/** The requests and pages the two chat applications exchange with the browser. */
module ChatHttp {
  import opened Wrappers
  import opened ChatView
  import opened ThreadStore

  /** A request to `/`: GET, or POST with the form field `user_message` (None when missing). */
  datatype Request = Get | Post(userMessage: Option<string>)

  /** The index page with its list of entries; the 400 answer to a form without
      `user_message`; the 500 answer when a handler raises. */
  datatype Response = Page(messages: seq<Entry>) | BadRequest | ServerError

  /** The page showing thread `id`. Reading a thread the store does not hold yields no checkpoint,
      and subscripting it raises, so the answer is then a server error; so it is with no id. */
  function Shown(store: Store, id: Option<ThreadId>): (r: Response)
    ensures r.Page? <==> id.Some? && id.value in store
    ensures r.Page? ==> r.messages == Presented(store[id.value])
  {
    if id.Some? && id.value in store then Page(Presented(store[id.value])) else ServerError
  }

  /** Renders the page for thread `id` with `get_messages_list`. */
  method Show(store: Store, id: Option<ThreadId>) returns (response: Response)
    ensures response == Shown(store, id)
  {
    if id.None? || id.value !in store {
      return ServerError;
    }
    var messages := MessagesList(store[id.value]);
    return Page(messages);
  }
}
