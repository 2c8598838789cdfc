/** The plain chat application: the same session binding and process-wide store as the
    application with saved conversations, without saving and loading. */
module ChatbotApp {
  import opened Wrappers
  import opened ChatView
  import opened ThreadStore
  import opened ChatHttp

  class Server {
    /** `session['thread_id']` of the one browser session modelled. */
    var session: Option<ThreadId>
    /** `memory.storage`, shared by every session of the process. */
    var store: Store
    /** Every call of the conversation graph so far, in order. */
    ghost var calls: seq<Invocation>

    constructor ()
      ensures session == None && store == map[] && calls == []
    {
      session := None;
      store := map[];
      calls := [];
    }

    /** `index`. An unbound session is first bound to `newId` (the fresh uuid); a bound one keeps
        its id. GET empties the whole store and shows no messages. POST runs the graph once with
        `user_message` under the bound id, the model answering with `reply`, without clearing
        anything, and shows that thread. */
    method Index(request: Request, newId: ThreadId, reply: seq<Message>) returns (response: Response)
      modifies this
      ensures session == if old(session).None? then Some(newId) else old(session)
      ensures request.Get? ==> store == map[] && calls == old(calls) && response == Page([])
      ensures request.Post? && request.userMessage.None? ==>
                store == old(store) && calls == old(calls) && response == BadRequest
      ensures request.Post? && request.userMessage.Some? ==>
                store == Invoked(old(store), session.value, request.userMessage.value, reply) &&
                calls == old(calls) + [Invocation(session.value, request.userMessage.value)] &&
                response == Page(Presented(store[session.value]))
    {
      if session.None? {
        session := Some(newId);
      }
      if request.Get? {
        store := map[];
        return Page([]);
      }
      if request.userMessage.None? {
        return BadRequest;
      }
      var userMessage := request.userMessage.value;
      store := Invoked(store, session.value, userMessage, reply);
      calls := calls + [Invocation(session.value, userMessage)];
      response := Show(store, session);
    }

    /** `clear`: the session loses its thread id (nothing happens if it had none) and the whole
        store is emptied. */
    method Clear() returns (response: Response)
      modifies this
      ensures session == None && store == map[] && calls == old(calls)
      ensures response == Page([])
    {
      session := None;
      store := map[];
      return Page([]);
    }
  }

  /** Two POSTs in one session: both user messages are in the thread, in order, and both are
      shown as user entries. */
  method TwoMessages(newId: ThreadId, first: string, second: string, reply1: seq<Message>, reply2: seq<Message>)
    requires IsReply(reply1) && IsReply(reply2)
  {
    var server := new Server();
    var response := server.Index(Post(Some(first)), newId, reply1);
    InvokedAddsUserTurn(map[], newId, first, reply1);
    var before := server.store;
    response := server.Index(Post(Some(second)), newId, reply2);
    assert server.session == Some(newId);
    InvokedAddsUserTurn(before, newId, second, reply2);
    assert Humans(server.store[newId]) == [first, second];
    UserEntriesAreHumanMessages(server.store[newId]);
    assert response == Page(Presented(server.store[newId]));
    assert TextsOf(response.messages, UserMessage) == BrAll([first, second]);
  }
}
