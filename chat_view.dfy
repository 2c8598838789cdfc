/** What the chat applications show of a conversation (`get_messages_list`) and of the saved
    conversations (`get_saved_thread_ids`). */
module ChatView {
  import opened Wrappers
  import opened PyStr

  /** A message of a thread's history: a HumanMessage, an AIMessage, a ToolMessage, or a message
      of any other kind (a system message, say). */
  datatype Message = Human(content: string) | Ai(content: string) | Tool(content: string) | Other(content: string)

  /** The CSS class of a displayed entry: 'user-message' or 'bot-message'. */
  datatype Role = UserMessage | BotMessage

  /** One displayed entry, the dictionary `{'class': role, 'text': text}`. */
  datatype Entry = Entry(role: Role, text: string)

  /** `content.replace('\n', '<br>')`: every line break becomes an HTML line break. */
  function Br(content: string): (text: string)
    ensures text == ReplaceChar(content, '\n', "<br>")
    ensures '\n' !in text
  {
    ReplaceOneChar(content, '\n', "<br>");
    Replace(content, "\n", "<br>")
  }

  /** The entries one message contributes: a human message always gives one user entry, even
      when empty; an AI message gives a bot entry when its content is not empty; tool messages
      and any other kind give nothing. */
  function EntriesOf(m: Message): (es: seq<Entry>)
    ensures |es| <= 1
  {
    match m
    case Human(content) => [Entry(UserMessage, Br(content))]
    case Ai(content) => if content != "" then [Entry(BotMessage, Br(content))] else []
    case Tool(_) => []
    case Other(_) => []
  }

  /** The entries of a whole history, in the order of the messages. */
  function Presented(ms: seq<Message>): (es: seq<Entry>)
    ensures |es| <= |ms|
    ensures forall k :: 0 <= k < |es| ==> '\n' !in es[k].text
    decreases |ms|
  {
    if ms == [] then [] else Presented(ms[..|ms| - 1]) + EntriesOf(ms[|ms| - 1])
  }

  /** `get_messages_list`: walks the stored messages of a thread and collects the entries. */
  method MessagesList(memories: seq<Message>) returns (messages: seq<Entry>)
    ensures messages == Presented(memories)
  {
    messages := [];
    for i := 0 to |memories|
      invariant messages == Presented(memories[..i])
    {
      assert memories[..i + 1][..i] == memories[..i];
      var message := memories[i];
      if message.Tool? {
        continue;
      }
      if message.Human? {
        messages := messages + [Entry(UserMessage, Br(message.content))];
      } else if message.Ai? && message.content != "" {
        messages := messages + [Entry(BotMessage, Br(message.content))];
      }
    }
    assert memories[..|memories|] == memories;
  }

  /** The entries of two histories one after the other are the entries of each, in order. */
  lemma {:induction false} PresentedConcat(a: seq<Message>, b: seq<Message>)
    ensures Presented(a + b) == Presented(a) + Presented(b)
    decreases |b|
  {
    if b == [] {
      assert a + b == a;
    } else {
      var b' := b[..|b| - 1];
      assert (a + b)[..|a + b| - 1] == a + b';
      PresentedConcat(a, b');
    }
  }

  /** The contents of the human messages, in order. */
  function Humans(ms: seq<Message>): (texts: seq<string>)
    ensures |texts| <= |ms|
    decreases |ms|
  {
    if ms == [] then []
    else Humans(ms[..|ms| - 1]) + (if ms[|ms| - 1].Human? then [ms[|ms| - 1].content] else [])
  }

  /** The contents of the AI messages that are not empty, in order. */
  function Answers(ms: seq<Message>): (texts: seq<string>)
    ensures |texts| <= |ms|
    decreases |ms|
  {
    if ms == [] then []
    else
      var m := ms[|ms| - 1];
      Answers(ms[..|ms| - 1]) + (if m.Ai? && m.content != "" then [m.content] else [])
  }

  /** The texts of the entries with the given role, in order. */
  function TextsOf(es: seq<Entry>, role: Role): seq<string>
    decreases |es|
  {
    if es == [] then []
    else TextsOf(es[..|es| - 1], role) + (if es[|es| - 1].role == role then [es[|es| - 1].text] else [])
  }

  /** `[Br(t) for t in texts]`. */
  function BrAll(texts: seq<string>): (r: seq<string>)
    ensures |r| == |texts|
  {
    seq(|texts|, k requires 0 <= k < |texts| => Br(texts[k]))
  }

  lemma TextsOfAppend(es: seq<Entry>, more: seq<Entry>, role: Role)
    requires |more| <= 1
    ensures TextsOf(es + more, role) == TextsOf(es, role) + TextsOf(more, role)
  {
    if more == [] {
      assert es + more == es;
    } else {
      assert (es + more)[..|es + more| - 1] == es;
      assert more[..0] == [];
    }
  }

  lemma BrAllAppend(texts: seq<string>, more: seq<string>)
    ensures BrAll(texts + more) == BrAll(texts) + BrAll(more)
  {
  }

  /** The user entries are exactly the human messages, one each and in order, shown with
      their line breaks made HTML. */
  lemma {:induction false} UserEntriesAreHumanMessages(ms: seq<Message>)
    ensures TextsOf(Presented(ms), UserMessage) == BrAll(Humans(ms))
    decreases |ms|
  {
    if ms != [] {
      var init, m := ms[..|ms| - 1], ms[|ms| - 1];
      UserEntriesAreHumanMessages(init);
      TextsOfAppend(Presented(init), EntriesOf(m), UserMessage);
      BrAllAppend(Humans(init), if m.Human? then [m.content] else []);
    }
  }

  /** The bot entries are exactly the AI messages with non-empty content, in order. */
  lemma {:induction false} BotEntriesAreAnswers(ms: seq<Message>)
    ensures TextsOf(Presented(ms), BotMessage) == BrAll(Answers(ms))
    decreases |ms|
  {
    if ms != [] {
      var init, m := ms[..|ms| - 1], ms[|ms| - 1];
      BotEntriesAreAnswers(init);
      TextsOfAppend(Presented(init), EntriesOf(m), BotMessage);
      BrAllAppend(Answers(init), if m.Ai? && m.content != "" then [m.content] else []);
    }
  }

  /** Nothing but those is shown: one entry per human message and per non-empty AI message. */
  lemma {:induction false} PresentedCount(ms: seq<Message>)
    ensures |Presented(ms)| == |Humans(ms)| + |Answers(ms)|
    decreases |ms|
  {
    if ms != [] {
      PresentedCount(ms[..|ms| - 1]);
    }
  }

  /** The history without its tool messages. */
  function WithoutTools(ms: seq<Message>): (r: seq<Message>)
    ensures forall k :: 0 <= k < |r| ==> !r[k].Tool?
    decreases |ms|
  {
    if ms == [] then []
    else WithoutTools(ms[..|ms| - 1]) + (if ms[|ms| - 1].Tool? then [] else [ms[|ms| - 1]])
  }

  /** Tool messages never show: dropping them from the history changes no entry. */
  lemma {:induction false} ToolMessagesInvisible(ms: seq<Message>)
    ensures Presented(WithoutTools(ms)) == Presented(ms)
    decreases |ms|
  {
    if ms != [] {
      var init, m := ms[..|ms| - 1], ms[|ms| - 1];
      ToolMessagesInvisible(init);
      if m.Tool? {
        assert WithoutTools(ms) == WithoutTools(init) + [];
        assert WithoutTools(init) + [] == WithoutTools(init);
        assert EntriesOf(m) == [];
        assert Presented(ms) == Presented(init) + EntriesOf(m);
        assert Presented(init) + [] == Presented(init);
      } else {
        var w := WithoutTools(init) + [m];
        assert WithoutTools(ms) == w;
        assert w[..|w| - 1] == WithoutTools(init);
      }
    }
  }

  // ---- saved conversations ----

  const Extension := ".json"

  /** The name of the file a thread's record is saved under in `chat_logs`. */
  function RecordName(threadId: string): (name: string)
    ensures EndsWith(name, Extension) && name[..|name| - |Extension|] == threadId
  {
    threadId + Extension
  }

  /** `[f.replace('.json', '') for f in listing if f.endswith('.json')]`. */
  function IdsOfListing(listing: seq<string>): (ids: seq<string>)
    ensures |ids| <= |listing|
    ensures forall id :: id in ids <==>
              exists k :: 0 <= k < |listing| && EndsWith(listing[k], Extension) && Replace(listing[k], Extension, "") == id
    decreases |listing|
  {
    if listing == [] then []
    else
      var f := listing[|listing| - 1];
      IdsOfListing(listing[..|listing| - 1]) + (if EndsWith(f, Extension) then [Replace(f, Extension, "")] else [])
  }

  /** The ids follow the order of the listing, one for each ".json" entry: the ids of `a + b`
      are those of `a`, then those of `b`. */
  lemma {:induction false} IdsOfListingConcat(a: seq<string>, b: seq<string>)
    ensures IdsOfListing(a + b) == IdsOfListing(a) + IdsOfListing(b)
    decreases |b|
  {
    if b == [] {
      assert a + b == a;
    } else {
      var init := b[..|b| - 1];
      assert (a + b)[..|a + b| - 1] == a + init;
      IdsOfListingConcat(a, init);
    }
  }

  /** `get_saved_thread_ids`: the ids of the saved records, given the listing of `chat_logs`
      (None when the directory does not exist). */
  function SavedThreadIds(listing: Option<seq<string>>): (ids: seq<string>)
    ensures listing.None? ==> ids == []
    ensures listing.Some? ==> |ids| <= |listing.value|
    ensures listing.Some? ==> forall id :: id in ids <==>
              exists k :: 0 <= k < |listing.value| && EndsWith(listing.value[k], Extension) && Replace(listing.value[k], Extension, "") == id
  {
    if listing.None? then [] else IdsOfListing(listing.value)
  }

  lemma ReplaceRecordName(threadId: string)
    requires !Occurs(Extension, threadId)
    ensures Replace(RecordName(threadId), Extension, "") == threadId
  {
    ReplaceDropsSuffix(threadId, Extension);
  }

  /** A thread whose id does not contain ".json" is listed under its own id once its record
      is in the directory. */
  lemma {:induction false} SavedThreadListed(listing: seq<string>, threadId: string)
    requires !Occurs(Extension, threadId) && RecordName(threadId) in listing
    ensures threadId in SavedThreadIds(Some(listing))
    decreases |listing|
  {
    var init, f := listing[..|listing| - 1], listing[|listing| - 1];
    assert listing == init + [f];
    if f == RecordName(threadId) {
      ReplaceRecordName(threadId);
      assert EndsWith(f, Extension);
    } else {
      SavedThreadListed(init, threadId);
    }
  }

  /** "a.json.json", the record of the thread "a.json", is listed as "a": `replace` removes
      every ".json" in the name, not only the extension. */
  lemma ReplaceListsOtherId()
    ensures RecordName("a.json") == "a.json.json"
    ensures SavedThreadIds(Some(["a.json.json"])) == ["a"]
  {
    var f := "a.json.json";
    assert f[..5][0] != Extension[0];
    assert f[1..][..5] == Extension;
    assert f[1..][5..][..5] == Extension;
    assert Replace(f[1..][5..][5..], Extension, "") == "";
    assert Replace(f, Extension, "") == "a";
    assert EndsWith(f, Extension);
    assert ["a.json.json"][..0] == [];
  }

  /** Stripping only the trailing ".json": `[f[:-5] for f in listing if f.endswith('.json')]`. */
  function IdsOfListingBySuffix(listing: seq<string>): (ids: seq<string>)
    ensures |ids| <= |listing|
    decreases |listing|
  {
    if listing == [] then []
    else
      var f := listing[|listing| - 1];
      IdsOfListingBySuffix(listing[..|listing| - 1]) + (if EndsWith(f, Extension) then [f[..|f| - |Extension|]] else [])
  }

  /** The corrected listing keeps the same order: the ids of `a + b` are those of `a`, then
      those of `b`. */
  lemma {:induction false} IdsOfListingBySuffixConcat(a: seq<string>, b: seq<string>)
    ensures IdsOfListingBySuffix(a + b) == IdsOfListingBySuffix(a) + IdsOfListingBySuffix(b)
    decreases |b|
  {
    if b == [] {
      assert a + b == a;
    } else {
      var init := b[..|b| - 1];
      assert (a + b)[..|a + b| - 1] == a + init;
      IdsOfListingBySuffixConcat(a, init);
    }
  }

  /** With the extension stripped as a suffix, an id is listed exactly when its record file is
      in the directory, whatever the id. */
  lemma {:induction false} SuffixIdsMatchRecords(listing: seq<string>, threadId: string)
    ensures threadId in IdsOfListingBySuffix(listing) <==> RecordName(threadId) in listing
    decreases |listing|
  {
    if listing != [] {
      var init, f := listing[..|listing| - 1], listing[|listing| - 1];
      assert listing == init + [f];
      SuffixIdsMatchRecords(init, threadId);
      if f == RecordName(threadId) {
        assert f[..|f| - |Extension|] == threadId;
      }
      if EndsWith(f, Extension) && f[..|f| - |Extension|] == threadId {
        assert f == RecordName(threadId);
      }
    }
  }
}
