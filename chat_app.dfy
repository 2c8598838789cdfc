/** The chat application with saved conversations: each browser session is bound to a thread
    id, the process-wide store holds every thread's history, and `chat_logs` holds the saved
    records, one file per thread id. */
module ChatApp {
  import opened Wrappers
  import opened ChatView
  import opened ThreadStore
  import opened ChatHttp

  /** The `chat_logs` directory: file name to saved record; None while it does not exist. */
  type Directory = Option<map<string, seq<Message>>>

  /** The files of the directory, none when it does not exist. */
  function Files(dir: Directory): map<string, seq<Message>>
  {
    if dir.Some? then dir.value else map[]
  }

  /** There is a file `chat_logs/<threadId>.json`. */
  predicate HasRecord(dir: Directory, threadId: ThreadId)
    ensures HasRecord(dir, threadId) ==> dir.Some?
    ensures dir.Some? ==> (HasRecord(dir, threadId) <==> RecordName(threadId) in dir.value)
  {
    RecordName(threadId) in Files(dir)
  }

  /** `save` writes the record of the bound thread: the id is present and non-empty. */
  predicate SavesThread(session: Option<ThreadId>)
  {
    session.Some? && session.value != ""
  }

  class Server {
    /** `session['thread_id']` of the one browser session modelled. */
    var session: Option<ThreadId>
    /** `memory.storage`, shared by every session of the process. */
    var store: Store
    /** The `chat_logs` directory. */
    var chatLogs: Directory
    /** Every call of the conversation graph so far, in order. */
    ghost var calls: seq<Invocation>

    constructor (chatLogs: Directory)
      ensures session == None && store == map[] && this.chatLogs == chatLogs && calls == []
    {
      session := None;
      store := map[];
      this.chatLogs := chatLogs;
      calls := [];
    }

    /** `index`. An unbound session is first bound to `newId` (the fresh uuid); a bound one keeps
        its id. GET empties the whole store, every thread of every session, and shows no
        messages. POST runs the graph once with `user_message` under the bound id, the model
        answering with `reply`, and shows that thread. */
    method Index(request: Request, newId: ThreadId, reply: seq<Message>) returns (response: Response)
      modifies this
      ensures session == if old(session).None? then Some(newId) else old(session)
      ensures chatLogs == old(chatLogs)
      ensures request.Get? ==> store == map[] && calls == old(calls) && response == Page([])
      ensures request.Post? && request.userMessage.None? ==>
                store == old(store) && calls == old(calls) && response == BadRequest
      ensures request.Post? && request.userMessage.Some? ==>
                store == Invoked(old(store), session.value, request.userMessage.value, reply) &&
                calls == old(calls) + [Invocation(session.value, request.userMessage.value)] &&
                response == Page(Presented(store[session.value]))
    {
      if session.None? {
        session := Some(newId);
      }
      if request.Get? {
        store := map[];
        return Page([]);
      }
      if request.userMessage.None? {
        return BadRequest;
      }
      var userMessage := request.userMessage.value;
      var threadId := session.value;
      store := Invoked(store, threadId, userMessage, reply);
      calls := calls + [Invocation(threadId, userMessage)];
      response := Show(store, session);
    }

    /** `clear`: the session loses its thread id (nothing happens if it had none) and the whole
        store is emptied; the saved records stay. */
    method Clear() returns (response: Response)
      modifies this
      ensures session == None && store == map[]
      ensures chatLogs == old(chatLogs) && calls == old(calls)
      ensures response == Page([])
    {
      session := None;
      store := map[];
      return Page([]);
    }

    /** `save`: with a non-empty bound id whose thread is in the store, writes that thread's full
        history, tool messages included, as `chat_logs/<id>.json`, replacing any earlier record.
        With no id or the empty id nothing is written; with an id whose thread is not in the store
        reading it raises before anything is written. The page shows the bound thread. */
    method Save() returns (response: Response)
      modifies this
      ensures session == old(session) && store == old(store) && calls == old(calls)
      ensures SavesThread(session) && session.value in store ==>
                chatLogs == Some(Files(old(chatLogs))[RecordName(session.value) := store[session.value]])
      ensures !(SavesThread(session) && session.value in store) ==> chatLogs == old(chatLogs)
      ensures response == Shown(store, session)
    {
      var threadId := session;
      if threadId.Some? && threadId.value != "" {
        if threadId.value !in store {
          return ServerError;
        }
        var logs := store[threadId.value];
        chatLogs := Some(Files(chatLogs)[RecordName(threadId.value) := logs]);
      }
      response := Show(store, threadId);
    }

    /** `load`: binds the session to `threadId` whether or not a record exists. Without a record
        the store is left as it is. With one, the whole store is emptied and the graph is run once
        per human message of the record, in order, under `threadId`, the k-th run answered by
        `replies(k)`; AI and tool messages of the record are not replayed. The page shows the
        thread. */
    method Load(threadId: ThreadId, replies: nat -> seq<Message>) returns (response: Response)
      modifies this
      ensures session == Some(threadId) && chatLogs == old(chatLogs)
      ensures !HasRecord(chatLogs, threadId) ==> store == old(store) && calls == old(calls)
      ensures HasRecord(chatLogs, threadId) ==>
                var texts := Humans(Files(chatLogs)[RecordName(threadId)]);
                store == Replayed(threadId, texts, replies) &&
                calls == old(calls) + Invocations(threadId, texts)
      ensures response == Shown(store, Some(threadId))
    {
      session := Some(threadId);
      var filepath := RecordName(threadId);
      if chatLogs.Some? && filepath in chatLogs.value {
        store := map[];
        ReplayHumanTurns(threadId, chatLogs.value[filepath], replies);
      }
      response := Show(store, Some(threadId));
    }

    /** The loop of `load`: runs the graph once per human message of `messages`, in order, under
        `threadId`, on the store as it stands; the k-th run is answered by `replies(k)`. */
    method ReplayHumanTurns(threadId: ThreadId, messages: seq<Message>, replies: nat -> seq<Message>)
      modifies this
      requires store == map[]
      ensures session == old(session) && chatLogs == old(chatLogs)
      ensures store == Replayed(threadId, Humans(messages), replies)
      ensures calls == old(calls) + Invocations(threadId, Humans(messages))
    {
      var turn := 0;
      ghost var replayed: seq<string> := [];
      for i := 0 to |messages|
        invariant session == old(session) && chatLogs == old(chatLogs)
        invariant replayed == Humans(messages[..i]) && turn == |replayed|
        invariant store == Replayed(threadId, replayed, replies)
        invariant calls == old(calls) + Invocations(threadId, replayed)
      {
        HumansStep(messages, i);
        var msg := messages[i];
        if msg.Human? {
          ReplayedAppend(threadId, replayed, msg.content, replies);
          InvocationsAppend(threadId, replayed, msg.content);
          store := Invoked(store, threadId, msg.content, replies(turn));
          calls := calls + [Invocation(threadId, msg.content)];
          turn := turn + 1;
          replayed := replayed + [msg.content];
        }
      }
      assert messages[..|messages|] == messages;
    }
  }

  /** One more message adds its content to the user turns exactly when it is a human one. */
  lemma HumansStep(messages: seq<Message>, i: nat)
    requires i < |messages|
    ensures Humans(messages[..i + 1]) ==
              Humans(messages[..i]) + (if messages[i].Human? then [messages[i].content] else [])
  {
    assert messages[..i + 1][..i] == messages[..i];
  }

  /** Saving a thread and loading it back replays its user turns: the store then holds that one
      thread, its user messages are those of the saved history, in order, and they are shown as
      user entries; the answers are the model's new ones, not the saved ones. */
  lemma SaveThenLoadReplaysUserTurns(dir: Directory, threadId: ThreadId, history: seq<Message>, replies: nat -> seq<Message>)
    requires forall k: nat :: IsReply(replies(k))
    requires Humans(history) != []
    ensures var saved := Some(Files(dir)[RecordName(threadId) := history]);
            HasRecord(saved, threadId) &&
            var store := Replayed(threadId, Humans(Files(saved)[RecordName(threadId)]), replies);
            store.Keys == {threadId} &&
            Humans(store[threadId]) == Humans(history) &&
            TextsOf(Presented(store[threadId]), UserMessage) == BrAll(Humans(history))
  {
    var saved := Some(Files(dir)[RecordName(threadId) := history]);
    assert Files(saved)[RecordName(threadId)] == history;
    ReplayedUserTurns(threadId, Humans(history), replies);
    UserEntriesAreHumanMessages(Replayed(threadId, Humans(history), replies)[threadId]);
  }

  /** A save, a clear and a load of the same thread, as a browser session would do them. */
  method SaveClearLoad(newId: ThreadId, text: string, reply: seq<Message>, replies: nat -> seq<Message>)
    requires newId != "" && IsReply(reply)
    requires forall k: nat :: IsReply(replies(k))
  {
    var server := new Server(None);
    var response := server.Index(Post(Some(text)), newId, reply);
    assert server.session == Some(newId);
    var history := server.store[newId];
    InvokedAddsUserTurn(map[], newId, text, reply);
    assert Humans(history) == [text];
    response := server.Save();
    response := server.Clear();
    assert server.session == None && server.store == map[];
    response := server.Load(newId, replies);
    SaveThenLoadReplaysUserTurns(None, newId, history, replies);
    assert server.session == Some(newId);
    assert Humans(server.store[newId]) == [text];
    assert response.Page?;
  }

  /** The requests behind the listing defect of `get_saved_thread_ids`: `/load` binds the id
      "a.json" without a record, a POST creates its thread, and `/save` writes
      "a.json.json", which the listing shows as "a", an id that has no record. */
  method ListedIdWithoutRecord(text: string, newId: ThreadId, reply: seq<Message>, replies: nat -> seq<Message>)
  {
    var server := new Server(None);
    var response := server.Load("a.json", replies);
    assert !HasRecord(None, "a.json");
    response := server.Index(Post(Some(text)), newId, reply);
    assert server.session == Some("a.json") && "a.json" in server.store;
    response := server.Save();
    ReplaceListsOtherId();
    assert server.chatLogs == Some(map["a.json.json" := server.store["a.json"]]);
    assert SavedThreadIds(Some(["a.json.json"])) == ["a"];
    assert RecordName("a") == "a.json";
    assert !HasRecord(server.chatLogs, "a");
  }
}
