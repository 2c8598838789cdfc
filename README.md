# Chat threads, TODO list and form checks — a Dafny model

This project models the self-contained logic of a set of small Python teaching
applications:

- **Conversation view** (`16_llmapp/original/graph.py`): `get_messages_list`
  turns a thread's stored messages into display entries, and
  `get_saved_thread_ids` turns the listing of `chat_logs` into thread ids.
- **Chat applications** (`16_llmapp/original/app.py`, `16_llmapp/chatbot/app.py`):
  a small state machine. Its state is the session's optional `thread_id`, the
  process-wide checkpointer storage (thread id to message history) and, for the
  application with saved conversations, the `chat_logs` directory (file name to
  saved message list). The handlers are `index` (GET and POST), `/clear`,
  `/save` and `/load`. `/load` replays a saved conversation: it empties the
  store and runs the conversation graph once per saved human message.
- **TODO list** (`09_flask/todo/app.py`): the list is kept in `todos.txt`.
  Loading strips each line. Saving joins the items with `"\n"`. Adding and
  deleting load the list, change it and save it back.
- **Form validation** (`09_flask/webform/app.py`) and the **arithmetic helpers**
  (`04_function/math_operations.py`).

The answering model is an oracle. Its reply turns are parameters of the
handlers: `reply` for a POST, and `replies(k)` for the k-th replayed turn of a
load. Nothing therefore assumes that a replay reproduces the saved answers;
only the user turns are proved to come back. The fresh uuid of a new session
is the parameter `newId`. A ghost log `calls` records every run of the graph,
so the contracts can say how often the graph ran, in which order and with
which text.

The code never reports "not found". When a handler renders a thread that the store
does not hold, `memory.get` returns `None` and subscripting it raises, so the
answer is a server error (`ChatHttp.Shown`). This happens in four cases:

- `/save` with no bound id.
- `/save` with a bound id whose thread is not in the store, for example right
  after a GET of `/` emptied the store.
- `/load` of a thread that is neither saved nor in the store.
- `/load` of a record that holds no human message: the store is emptied and
  nothing is replayed.

Two behaviours of the TODO list follow from the exact round trip
`Todo.LoadAfterSave`:

- An item added with whitespace at its ends is read back stripped.
- An empty last item is lost on the next save, because the text then ends in
  `"\n"`. A whitespace-only item becomes such an empty item. So deleting an
  item can also drop a blank item behind it (`Todo.DeleteCanLoseBlankItem`).

## Model

| member | source | states |
|---|---|---|
| `MathOperations.Add` | 04_function/math_operations.py:1-3 | the sum exceeds each argument by the other |
| `MathOperations.Subtract` | 04_function/math_operations.py:5-7 | adding `b` to the difference gives `a` |
| `MathOperations.SubtractUndoesAdd` | 04_function/math_operations.py:1-7 | subtract(add(a, b), b) == a and add(subtract(a, b), b) == a over unbounded integers |
| `MathOperations.ScriptResults` | 04_function/math_operations.py:12-13 | the script's calls: add(5, 3) == 8 and subtract(10, 4) == 6 |
| `WebForm.Submit` | 09_flask/webform/app.py:13-25 | a missing or empty name or email gives "Error: All fields are required!"; otherwise an email without '@' gives "Error: Invalid email address!"; otherwise the confirmation carries exactly that name and email; each case holds if and only if its condition holds |
| `WebForm.NameOnlyCheckedForPresence` | 09_flask/webform/app.py:19-25 | any two non-empty names lead to the same error, or both to a confirmation |
| `PyStr.Strip` | 09_flask/todo/app.py:9 | `str.strip()` leaves no whitespace (Python's `isspace` set) at either end, and leaves a string already without it unchanged |
| `PyStr.StripBothEnds` | 09_flask/todo/app.py:9 | `str.strip()` removes whitespace only, and only at the ends: its result is a slice of the string, and everything before and after that slice is whitespace |
| `PyStr.ReplaceOneChar` | 16_llmapp/original/graph.py:171 | `replace` with a one-character pattern is the character-by-character substitution |
| `PyStr.ReplaceDropsSuffix` | 16_llmapp/original/graph.py:181 | removing every ".json" from `id + ".json"` gives `id` back when `id` holds no ".json" |
| `Todo.TranslateNewlines` | 09_flask/todo/app.py:8-9 | reading in text mode leaves no "\r" |
| `Todo.TranslatePlainText` | 09_flask/todo/app.py:8-9 | a text without "\r" is read unchanged |
| `Todo.TranslateConcat` | 09_flask/todo/app.py:8-9 | two pieces of text are translated separately unless a "\r" ending the first and a "\n" starting the second form one "\r\n" |
| `Todo.TranslateCrLf` | 09_flask/todo/app.py:8-9 | each "\r\n" is read as one "\n" |
| `Todo.TranslateLoneCr` | 09_flask/todo/app.py:8-9 | a "\r" not followed by "\n" is read as "\n" |
| `Todo.TranslateOtherChar` | 09_flask/todo/app.py:8-9 | every other character is read unchanged, a "\n" included unless a "\r" precedes it |
| `Todo.LinesSpellText` | 09_flask/todo/app.py:9 | the lines met when iterating over the file spell its text |
| `Todo.LinesShape` | 09_flask/todo/app.py:9 | each line is non-empty, all but the last end with "\n", and no line holds "\n" elsewhere |
| `Todo.LoadTodos` | 09_flask/todo/app.py:6-12 | no file gives []; otherwise one item per line of the file |
| `Todo.LoadedItemsAreClean` | 09_flask/todo/app.py:9 | every loaded item has no line break and no whitespace at either end |
| `Todo.SaveTodos` | 09_flask/todo/app.py:15-17 | for items without line breaks, the text written holds no "\r" and reads back as one line per item, an empty last item giving none |
| `Todo.LoadAfterSave` | 09_flask/todo/app.py:6-17 | for items without line breaks, loading what was saved gives the items stripped, minus an empty last item |
| `Todo.LoadAfterSaveClean` | 09_flask/todo/app.py:6-17 | for items without line breaks or surrounding whitespace, loading what was saved gives the items minus an empty last item |
| `Todo.LoadSaveRoundTrip` | 09_flask/todo/app.py:6-17 | load(save(xs)) == xs when the items have no line breaks and no surrounding whitespace, and the last item is not empty |
| `Todo.Remove` | 09_flask/todo/app.py:35 | `del todos[i]` shortens the list by one, keeps the items before i and moves the later ones down by one |
| `Todo.App.Index` | 09_flask/todo/app.py:19-28 | GET lists the loaded items; POST with a non-empty `todo` saves the loaded list with it appended; POST with a missing or empty `todo` leaves the file unchanged |
| `Todo.App.Delete` | 09_flask/todo/app.py:30-37 | an index inside the loaded list saves the list without that item; any other index leaves the file unchanged |
| `Todo.AddAppendsItem` | 09_flask/todo/app.py:22-26 | after adding a non-empty item without line breaks, the list read back is the earlier list with the stripped item at its end |
| `Todo.DeleteRemovesItem` | 09_flask/todo/app.py:34-36 | after deleting item i, the list read back is the earlier list without item i, and without the new last item if that one is empty |
| `Todo.DeleteCanLoseBlankItem` | 09_flask/todo/app.py:34-36 | the file "a\n " holds "a" and ""; deleting "a" leaves an empty list |
| `ChatView.Br` | 16_llmapp/original/graph.py:171 | every "\n" becomes "<br>" and the text holds no "\n" |
| `ChatView.EntriesOf` | 16_llmapp/original/graph.py:165-174 | one message yields at most one entry |
| `ChatView.Presented` | 16_llmapp/original/graph.py:160-175 | there are no more entries than messages, and no entry text holds "\n" |
| `ChatView.MessagesList` | 16_llmapp/original/graph.py:156-175 | the loop with `continue` builds exactly the entries of the history |
| `ChatView.PresentedConcat` | 16_llmapp/original/graph.py:163-175 | the entries follow the order of the messages: those of a + b are those of a, then those of b |
| `ChatView.UserEntriesAreHumanMessages` | 16_llmapp/original/graph.py:169-171 | the user entries are exactly the human messages, one each and in order, even when empty |
| `ChatView.BotEntriesAreAnswers` | 16_llmapp/original/graph.py:172-174 | the bot entries are exactly the AI messages with non-empty content, in order |
| `ChatView.PresentedCount` | 16_llmapp/original/graph.py:160-175 | the number of entries is the number of human messages plus the number of non-empty AI messages |
| `ChatView.ToolMessagesInvisible` | 16_llmapp/original/graph.py:166-167 | dropping the tool messages from a history changes no entry |
| `ChatView.IdsOfListing` | 16_llmapp/original/graph.py:181 | an id is listed if and only if some listed file ends in ".json" and removing every ".json" from its name gives that id; there are no more ids than listed files |
| `ChatView.IdsOfListingConcat` | 16_llmapp/original/graph.py:181 | the ids follow the listing's order, one per ".json" file: the ids of a + b are those of a, then those of b |
| `ChatView.SavedThreadIds` | 16_llmapp/original/graph.py:178-181 | no `chat_logs` directory gives []; otherwise an id is listed if and only if it comes from a listed ".json" file, with at most one id per listed file |
| `ChatView.RecordName` | 16_llmapp/original/app.py:72 | the record file of a thread ends in ".json", and removing that suffix gives the thread id back |
| `ChatView.SavedThreadListed` | 16_llmapp/original/graph.py:181 | a thread whose id holds no ".json" is listed once its file `<id>.json` is in the directory |
| `ChatView.ReplaceListsOtherId` | 16_llmapp/original/graph.py:181 | the file "a.json.json", the record of thread "a.json", is listed as "a" |
| `ChatView.IdsOfListingBySuffix` | 16_llmapp/original/graph.py:181 | stripping only the trailing ".json" gives no more ids than listed files |
| `ChatView.IdsOfListingBySuffixConcat` | 16_llmapp/original/graph.py:181 | the corrected listing keeps the listing's order, one id per ".json" file |
| `ChatView.SuffixIdsMatchRecords` | 16_llmapp/original/graph.py:181 | with the suffix stripped, an id is listed if and only if its file `<id>.json` is in the directory |
| `ThreadStore.Invoked` | 16_llmapp/original/graph.py:130-139 | running the graph under one id creates or extends that thread and leaves every other thread unchanged |
| `ThreadStore.HistoryAccumulates` | 16_llmapp/chatbot/app.py:30-39 | a POST keeps the thread's earlier history in front and follows it with the user's message |
| `ThreadStore.InvokedAddsUserTurn` | 16_llmapp/original/graph.py:134-138 | with a reply holding no user message, one run adds exactly its own text to the user turns of the thread |
| `ThreadStore.ReplayedUserTurns` | 16_llmapp/original/app.py:79-93 | replaying texts from an empty store leaves the single thread `id`, whose user turns are exactly those texts, in order; with no texts the store stays empty |
| `ChatHttp.Shown` | 16_llmapp/original/graph.py:162 | the page exists if and only if the thread is in the store, and then shows exactly its entries; otherwise the reading raises |
| `ChatHttp.Show` | 16_llmapp/original/app.py:95 | rendering a thread answers with the page `Shown` describes |
| `ChatApp.Server.Index` | 16_llmapp/original/app.py:19-44 | a fresh id is bound only when none is bound; GET empties the whole store and shows no entries; POST without `user_message` is a 400 and changes only the binding; POST runs the graph exactly once under the bound id and shows that thread; saved records never change |
| `ChatApp.Server.Clear` | 16_llmapp/original/app.py:46-55 | the binding is removed, whether or not there was one; the whole store is emptied; saved records stay |
| `ChatApp.Server.Save` | 16_llmapp/original/app.py:57-66 | with no bound id or the empty id, nothing is written; with a bound id whose thread is in the store, that thread's full history becomes `chat_logs/<id>.json`, replacing any earlier record; a non-empty bound id whose thread is not in the store writes nothing and is a server error; the store and the binding do not change |
| `ChatApp.HasRecord` | 16_llmapp/original/app.py:73 | there is no record while `chat_logs` does not exist; otherwise there is one if and only if `<id>.json` is in the directory |
| `ChatApp.Server.Load` | 16_llmapp/original/app.py:68-95 | the session is rebound to the submitted id in every case; without a record the store is unchanged and the graph does not run; with one, the store is emptied and the graph runs once per human message of the record, in order, under that id, and never for AI or tool messages |
| `ChatApp.Server.ReplayHumanTurns` | 16_llmapp/original/app.py:87-93 | the loop runs the graph once per human message, in order, under the loaded id, and leaves the store as replaying those texts from an empty store does; the session and the saved records do not change |
| `ChatApp.SaveThenLoadReplaysUserTurns` | 16_llmapp/original/app.py:57-95 | after saving a thread and loading it back, the store holds that thread alone, with the saved user turns in order, shown as user entries |
| `ChatbotApp.Server.Index` | 16_llmapp/chatbot/app.py:14-39 | a fresh id is bound only when none is bound; GET empties the whole store and shows no entries; POST runs the graph once under the bound id without clearing anything, so history accumulates |
| `ChatbotApp.Server.Clear` | 16_llmapp/chatbot/app.py:41-50 | the binding is removed, whether or not there was one, and the whole store is emptied |

`ChatApp.SaveClearLoad`, `ChatApp.ListedIdWithoutRecord` and
`ChatbotApp.TwoMessages` are client methods. Each takes a browser session
through a sequence of requests and asserts what a caller can conclude from the
contracts above:

- `SaveClearLoad`: POST, save, clear, then load.
- `ListedIdWithoutRecord`: the requests behind the finding below.
- `TwoMessages`: two POSTs.

## Findings

| source | as written | input that shows it | evidently intended | confidence | as-written member | corrected member |
|---|---|---|---|---|---|---|
| 16_llmapp/original/graph.py:181 | `f.replace('.json', '')` removes every ".json" in a file name, not only the extension | `/load` with thread_id "a.json", then POST `/`, then `/save` writes `chat_logs/a.json.json`; the listing shows "a", and `/load` of "a" finds no record (`ChatApp.ListedIdWithoutRecord` walks these requests) | strip only the trailing ".json", so that every listed id names its own record | medium; not executed | `ChatView.ReplaceListsOtherId` | `ChatView.SuffixIdsMatchRecords` |

## Left out

- The retrieval and answering pipeline is left out: `create_index`, `define_tools`, `build_graph`, `stream_graph_updates`, `get_bot_response` and the lazily built `graph` (graph.py:39-153, app.py:82-84). Their only effect on the model's state is the reply turns appended to the thread. Those turns are parameters. The lemmas about replaying assume one thing about them (`ThreadStore.IsReply`): a reply holds no user message. This holds because `build_graph` (graph.py:96-127) adds only the chatbot node's AI message and the tool node's tool messages. Nothing else is claimed about their content.
- Failures of the answering model (errors, timeouts) are not modelled; in the source they propagate as a server error.
- `uuid.uuid4()` is the parameter `newId`. Uniqueness and collision probability are not modelled.
- `messages_to_dict`, `messages_from_dict` and the JSON file format are not modelled. A saved record is the message list itself, so unreadable or malformed record files are not modelled either.
- The filesystem is abstract. `chat_logs` is a map from file name to record, and `todos.txt` is an optional string. Path separators in ids, permissions, encodings and other I/O errors are left out. The write side of `save_todos` assumes "\n" line endings, as on POSIX systems.
- The `saved_threads` list rendered on each page is not part of the modelled response. `get_saved_thread_ids` is modelled on its own, with the listing order of `os.listdir` given as input.
- A `/load` request without a `thread_id` field is not modelled. In the source it binds `None` and reads `chat_logs/None.json`.
- The checkpointer's internals are not modelled: checkpoints, message ids, and the empty entries that reading a missing thread leaves in `memory.storage`. A thread is "in the store" when it has a checkpoint.
- Only one browser session is modelled. The store is shared, so clearing it erases the threads of every session. Requests are taken one at a time; the source has no locking.
- HTML templates, redirects and status codes other than 400 and 500 are left out.
- `16_llmapp/chatbot/graph.py` is not part of this model. `ChatbotApp` presents threads with `ChatView`, the model of `16_llmapp/original/graph.py`.
- The routing and view demos, the browser script, the test files, and the calculator and authenticator modules behind the tests in `06_test` are not modelled. Addition and subtraction on floats and strings are not modelled either.
