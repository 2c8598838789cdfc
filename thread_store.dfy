/** The checkpointer's in-memory storage (`memory.storage`): the history of every thread of the
    process, keyed by thread id, and the effect of running the conversation graph on it. */
module ThreadStore {
  import opened ChatView

  type ThreadId = string

  /** A thread is present once the graph has run on it at least once since the last clear. */
  type Store = map<ThreadId, seq<Message>>

  /** The history the graph starts from: the stored one, or nothing for a new thread. */
  function History(store: Store, id: ThreadId): seq<Message>
  {
    if id in store then store[id] else []
  }

  /** One call of the graph under `id` with the user's text: the user's message and then the
      turns the answering model produced (`reply`, tool messages and answers) are appended to the
      thread, which is created if absent. No other thread changes. */
  function Invoked(store: Store, id: ThreadId, text: string, reply: seq<Message>): (r: Store)
    ensures r.Keys == store.Keys + {id}
    ensures forall t :: t in store && t != id ==> r[t] == store[t]
  {
    store[id := History(store, id) + [Human(text)] + reply]
  }

  /** History accumulates: what the thread held stays in front, followed by the user's message. */
  lemma HistoryAccumulates(store: Store, id: ThreadId, text: string, reply: seq<Message>)
    ensures History(store, id) < Invoked(store, id, text, reply)[id]
    ensures Invoked(store, id, text, reply)[id][|History(store, id)|] == Human(text)
  {
  }

  /** Turns an answering model may append: anything but a user's message. */
  predicate IsReply(turns: seq<Message>)
  {
    forall k :: 0 <= k < |turns| ==> !turns[k].Human?
  }

  /** The store after it is emptied and the graph is run under `id` once per text, in order,
      the k-th run answered by `replies(k)`. */
  function Replayed(id: ThreadId, texts: seq<string>, replies: nat -> seq<Message>): Store
    decreases |texts|
  {
    if texts == [] then map[]
    else
      var n := |texts| - 1;
      Invoked(Replayed(id, texts[..n], replies), id, texts[n], replies(n))
  }

  /** One recorded call of the graph: the thread it ran under and the user's text. */
  datatype Invocation = Invocation(threadId: ThreadId, text: string)

  function Invocations(id: ThreadId, texts: seq<string>): (calls: seq<Invocation>)
    ensures |calls| == |texts|
    ensures forall k :: 0 <= k < |texts| ==> calls[k] == Invocation(id, texts[k])
  {
    seq(|texts|, k requires 0 <= k < |texts| => Invocation(id, texts[k]))
  }

  lemma InvocationsAppend(id: ThreadId, texts: seq<string>, text: string)
    ensures Invocations(id, texts + [text]) == Invocations(id, texts) + [Invocation(id, text)]
  {
  }

  lemma {:induction false} HumansConcat(a: seq<Message>, b: seq<Message>)
    ensures Humans(a + b) == Humans(a) + Humans(b)
    decreases |b|
  {
    if b == [] {
      assert a + b == a;
    } else {
      var b' := b[..|b| - 1];
      assert (a + b)[..|a + b| - 1] == a + b';
      HumansConcat(a, b');
    }
  }

  lemma {:induction false} HumansOfReply(turns: seq<Message>)
    requires IsReply(turns)
    ensures Humans(turns) == []
    decreases |turns|
  {
    if turns != [] {
      HumansOfReply(turns[..|turns| - 1]);
    }
  }

  /** Each call adds exactly its own text to the user turns of its thread. */
  lemma InvokedAddsUserTurn(store: Store, id: ThreadId, text: string, reply: seq<Message>)
    requires IsReply(reply)
    ensures Humans(Invoked(store, id, text, reply)[id]) == Humans(History(store, id)) + [text]
  {
    var h := History(store, id);
    HumansConcat(h + [Human(text)], reply);
    HumansConcat(h, [Human(text)]);
    HumansOfReply(reply);
    assert [Human(text)][..0] == [];
  }

  lemma ReplayedAppend(id: ThreadId, texts: seq<string>, text: string, replies: nat -> seq<Message>)
    ensures Replayed(id, texts + [text], replies) == Invoked(Replayed(id, texts, replies), id, text, replies(|texts|))
  {
    assert (texts + [text])[..|texts|] == texts;
  }

  lemma InvokedOnSingleThread(before: Store, id: ThreadId, texts: seq<string>, text: string, reply: seq<Message>)
    requires IsReply(reply)
    requires texts == [] ==> before == map[]
    requires texts != [] ==> before.Keys == {id} && Humans(before[id]) == texts
    ensures Invoked(before, id, text, reply).Keys == {id}
    ensures Humans(Invoked(before, id, text, reply)[id]) == texts + [text]
  {
    InvokedAddsUserTurn(before, id, text, reply);
  }

  /** Replaying texts leaves one thread, `id`, whose user turns are exactly those texts in order
      (when there is at least one); the answers are whatever the model gave this time. */
  lemma {:induction false} ReplayedUserTurns(id: ThreadId, texts: seq<string>, replies: nat -> seq<Message>)
    requires forall k: nat :: IsReply(replies(k))
    ensures texts == [] ==> Replayed(id, texts, replies) == map[]
    ensures texts != [] ==> Replayed(id, texts, replies).Keys == {id}
    ensures texts != [] ==> Humans(Replayed(id, texts, replies)[id]) == texts
    decreases |texts|
  {
    if texts != [] {
      var n := |texts| - 1;
      var init := texts[..n];
      assert texts == init + [texts[n]];
      ReplayedAppend(id, init, texts[n], replies);
      ReplayedUserTurns(id, init, replies);
      InvokedOnSingleThread(Replayed(id, init, replies), id, init, texts[n], replies(n));
    }
  }
}
