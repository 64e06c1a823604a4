# Todo List Manager: rate-limited agent front end and in-memory Todo API

The repository pairs a small CRUD service for todo items with a chat front
end. The chat front end hands a user's instruction to a hosted language
model, and the model may call five HTTP "tools" against the service. This
project models and proves the parts of that system that are program logic
rather than plumbing:

- **The rate-limit gate** (`wait_for_rate_limit`). It is a sliding-window
  limiter of 15 requests per 60 seconds over a process-wide list of
  timestamps. It is modelled as the class `RateLimiter.Limiter`, whose
  field `requestTimes` is the list. The wall clock is an integer parameter.
  The sleep is returned as a number of seconds instead of being taken.
  Pure functions (`Stale`, `Trim`, `Dropped`, `Kept`, `Wait`, `Admitted`)
  specify what one call does.
- **What the gate guarantees over a run of calls** (`SlidingWindow`). This
  is where the finding below lives.
- **The tools' status handling** (`TodoTools`). Each tool turns an HTTP
  status code into a returned value or a raised exception whose message
  carries the code.
- **The agent front end** (`TodoAgent`):
  - `chat` routes a line: it says goodbye, rewrites `show`, or passes the
    line on verbatim;
  - `run_agent` turns the model's outcome into a reply string;
  - both are driven over a `Limiter`.
- **The in-memory store** of the Todo API (`TodoBackend.TodoStore`). It is
  a map from id to todo, the next-id counter, and the dictionary's key
  insertion order.
- **Python text handling** (`Text`). It covers f-string formatting of an
  `int`, with a parser that inverts it, and `str.lower()` on ASCII.

Files: `wrappers.dfy` (Option), `text.dfy`, `rate_limiter.dfy`,
`sliding_window.dfy`, `tools.dfy`, `agent.dfy`, `todo_store.dfy`.

## Model

| member | source | states |
|---|---|---|
| RateLimiter.Limiter.WaitForRateLimit | agent_ai/Agent.py:29-45 | Pops the stale front of `requestTimes` with a loop, then applies the full-window rule and appends. The new list is `Admitted(old list, now)` and the returned wait is `Wait(old list, now)`. The last entry is the entry time `now`. A list of at most 15 entries stays at most 15. |
| RateLimiter.Limiter.constructor | agent_ai/Agent.py:27 | The gate starts with an empty list. |
| RateLimiter.Stale | agent_ai/Agent.py:35-36 | Counts the entries the trimming loop pops. That many are popped at most, and the first entry kept is younger than a window. |
| RateLimiter.TrimPopsExactlyStale | agent_ai/Agent.py:35-36 | Every popped entry is at least 60 seconds old. With `Stale`'s contract, trimming removes exactly the leading entries of age >= 60. |
| RateLimiter.TrimLeavesOnlyRecent | agent_ai/Agent.py:35-36 | On a sorted list, no entry left after trimming is 60 or more seconds old. |
| RateLimiter.Wait | agent_ai/Agent.py:38-42 | The sleep is never negative. |
| RateLimiter.WaitBounds | agent_ai/Agent.py:38-42 | A sleep happens only when the trimmed list holds at least 15 entries. It is then exactly `60 - (now - oldest)` and strictly positive, so the `wait_time > 0` test always passes. With no entry later than `now`, the sleep is at most 60. Otherwise the sleep is 0. |
| RateLimiter.AdmittedShape | agent_ai/Agent.py:33-45 | After the gate, the last entry is the entry time `now`, not the time after the sleep. The entries before it are a tail of the old list in their old order. The list outgrows 15 only if the old list was already longer. |
| RateLimiter.SuffixKeepsOrder | agent_ai/Agent.py:35-43 | Popping from the front keeps a sorted list sorted and keeps it at or before `now`. |
| RateLimiter.AppendKeepsOrder | agent_ai/Agent.py:45 | Appending `now` to a sorted list of times at or before `now` keeps it sorted. |
| RateLimiter.AdmittedKeepsWindow | agent_ai/Agent.py:26-45 | Invariant of the gate. A sorted list of at most 15 entries, none after `now`, is still sorted, still at most 15 long, and still not after `now` once the call is recorded. |
| SlidingWindow.AdmitWithRoom | agent_ai/Agent.py:35-45 | A call with fewer than 15 entries, all from the same second, passes without sleeping and is added. |
| SlidingWindow.AdmitWhenFull | agent_ai/Agent.py:38-45 | A call with 15 entries, all from the same second, sleeps a full 60 seconds. The list holds the same 15 times afterwards. |
| SlidingWindow.AdmitAfterWindow | agent_ai/Agent.py:35-45 | A call a window or more after every entry empties the list, does not sleep, and leaves only its own time. |
| SlidingWindow.AsWrittenAdmitsBurst | agent_ai/Agent.py:33-45 | Drives one `Limiter` through 31 back-to-back calls from any start time. The 16th and the 31st are released at the same second, so that run is not `Spaced`. |
| SlidingWindow.CorrectedStep | agent_ai/Agent.py:35-45 | One call of the gate that records its release time keeps the run invariant. The list is a tail of at most 15 of the releases, everything older is a window before the latest release, and the releases are spaced. |
| SlidingWindow.CorrectedSpacedFrom | agent_ai/Agent.py:35-45 | By induction over the calls, every run of the corrected gate continues a spaced history as a spaced history. |
| SlidingWindow.CorrectedGateIsSpaced | agent_ai/Agent.py:26-45 | Any 16 releases of the corrected gate span at least 60 seconds. This holds for any start time and any idle gaps between calls. |
| TodoTools.OnStatus | agent_ai/Agent.py:115-118 | The shared shape of every tool. The tool returns exactly when the status is 200. Otherwise it raises a message that starts with the tool's prefix, and the status code can be read back from it. |
| TodoTools.GetTodos | agent_ai/Agent.py:114-118 | `get_todos` returns the decoded body exactly when the status is 200. Otherwise the raised message carries the status code after "Failed to retrieve todos: ". |
| TodoTools.GetTodoById | agent_ai/Agent.py:131-135 | `get_todo_by_id` returns the body exactly when the status is 200. Otherwise the code is carried after "Failed to retrieve todo: ". |
| TodoTools.DeleteTodoById | agent_ai/Agent.py:148-154 | 200 gives "Todo deleted successfully". 404 gives "Todo not found" and is returned, never raised. Every other code raises a message that carries it after "Failed to delete todo: ". |
| TodoTools.AddNewTodo | agent_ai/Agent.py:168-172 | "Todo added successfully" exactly when the status is 200. Otherwise the code is carried after "Failed to add todo: ". |
| TodoTools.UpdateATodoById | agent_ai/Agent.py:187-191 | "Todo updated successfully" exactly when the status is 200. Otherwise the code is carried after "Failed to update todo: ". |
| TodoTools.FailureIdentifiesStatus | agent_ai/Agent.py:115-191 | Two failures of one tool have the same message only when their status codes are equal. |
| TodoTools.ReadFailuresAreDistinct | agent_ai/Agent.py:118-135 | No failure message of `get_todos` equals one of `get_todo_by_id`. |
| TodoAgent.RunAgentReply | agent_ai/Agent.py:99-104 | The reply for each outcome: a final output as it is, a `None` output as "Task completed but no output was returned", no result as "No response received from the agent", and an exception as "Error processing request: " followed by its text. |
| TodoAgent.FallbackRepliesIdentifyOutcome | agent_ai/Agent.py:99-104 | Leaving aside outputs the model wrote, the reply determines the outcome. The two fallbacks and every error text give different replies. |
| TodoAgent.ProviderOutputCanMimicFallback | agent_ai/Agent.py:99-101 | The design limitation kept as it is: a model output can read exactly like the "no response" fallback. |
| TodoAgent.Route | agent_ai/Agent.py:204-210 | The line is a farewell exactly when it is a capitalisation of "exit". Any capitalisation of "show" becomes the table-display instruction. Every other line is dispatched unchanged. |
| TodoAgent.RouteSettles | agent_ai/Agent.py:208-213 | The rewritten show instruction is neither command, so routing it again changes nothing. |
| TodoAgent.RunAgent | agent_ai/Agent.py:72-104 | The gate is passed first, and its state and sleep are as `WaitForRateLimit` states. The reply is `RunAgentReply` of the model's outcome for the instruction. |
| TodoAgent.Chat | agent_ai/Agent.py:193-214 | A farewell returns the fixed goodbye, sleeps 0 and leaves the gate's list untouched. Any other line passes the gate and answers `RunAgentReply` of the model's outcome for the routed instruction. |
| Text.NatToStringRoundTrip | agent_ai/Agent.py:118 | Reading back the decimal digits of a natural number gives that number. |
| Text.IntToStringRoundTrip | agent_ai/Agent.py:115-191 | Formatting an `int` as Python does in an f-string, then parsing it, gives the same `int`. |
| Text.IntToStringInjective | agent_ai/Agent.py:118 | Distinct status codes render to distinct text. |
| Text.CodeAfterPrefix | agent_ai/Agent.py:118 | The code can be read back from the text that follows a message's prefix. |
| Text.LowerMatchesCapitalisation | agent_ai/Agent.py:205-209 | For a lower-case word, `s.lower() == w` holds exactly when `s` spells `w` in some mix of upper and lower case. |
| TodoBackend.TodoStore.constructor | backend/backend/__init__.py:8-9 | The server starts with no todos and the counter at 1, which satisfies the store invariant. |
| TodoBackend.TodoStore.CreateTodo | backend/backend/__init__.py:77-81 | The new todo gets the old counter as its id and the given fields. That id was not yet stored, so nothing is overwritten. It goes to the end of the listing order. Only that key is added, and the counter grows by exactly 1. Reading the id back gives the new todo. |
| TodoBackend.TodoStore.ReadTodos | backend/backend/__init__.py:91 | The listing has as many entries as stored todos. Every stored todo is in it, and each entry is the todo stored under its own id. Entries are in insertion order, which is ascending id order. |
| TodoBackend.TodoStore.ReadTodo | backend/backend/__init__.py:107-109 | Answers Ok with the stored todo exactly when the id is stored, and that todo has the requested id. Otherwise it answers a 404 "Todo not found" error. |
| TodoBackend.TodoStore.UpdateTodo | backend/backend/__init__.py:126-130 | A missing id yields 404 and changes nothing. A present id is replaced by the new fields under the same id. All other entries, the listing order and the counter are unchanged. |
| TodoBackend.TodoStore.DeleteTodo | backend/backend/__init__.py:146-149 | A missing id yields 404 and changes nothing. A present id removes exactly that key and answers "Todo deleted". The other entries keep their order and the counter is not stepped back. Afterwards the id reads as 404. |
| TodoBackend.CreateThenRead | backend/backend/__init__.py:77-109 | A todo created with only a title reads back with that title, no description and its id; the title-only body is built by `TitleOnly`, which models the default `description = None` of `TodoBase` at backend/backend/__init__.py:20. A second create gets a different id, and both read back. |
| TodoBackend.Without | backend/backend/__init__.py:148 | Removing a key from the insertion order leaves exactly the other keys, still in ascending order. |
| TodoBackend.IncreasingCard | backend/backend/__init__.py:91 | A key order without repetitions has as many entries as the key set, which gives the listing's length. |

## Left out

- HTTP calls to the Todo API out of the tools, and the JSON body of a response. A tool receives the status code, plus for the two reads an already-decoded body. The todo id, title and description only build the request, so the tools do not take them.
- The language-model SDK: the client, `Agent`, `Runner.run`, the model description and the tracing switch. The model is a function from the instruction to an `Outcome`. Which tools the model chooses to call, for example listing the todos after `show`, is its own behaviour.
- `explain_agent`: it passes the gate and then calls a `Runner.explain` that is not visible. Its gate call is the same `WaitForRateLimit`.
- Real time: `time.time()` is a float, and `asyncio.sleep` suspends. The clock is an integer number of seconds passed in by the caller, and the sleep is returned as a number of seconds.
- Concurrency: `request_times` and the store's counter are unsynchronised globals, and concurrent callers race on them. The model has a single caller.
- TodoAgent.Chat: does not model `chat`'s `except` branch (agent_ai/Agent.py:216-219) and its "Error: ..." reply, nor the handler for a `None` result. `run_agent`'s own `try` does not cover everything it runs: an exception from the gate call before the `try` (agent_ai/Agent.py:82), from the debug `print` inside its handler (agent_ai/Agent.py:103, for example an encoding error), or from `asyncio.run` itself reaches `chat`'s handler. Exceptions, the console and the event loop are outside the model, so `Chat`'s contract states only the replies of the normal path.
- The debug `print` calls in `run_agent` and `chat`.
- `str(final_output)` for non-string outputs: the final output is taken to be text already.
- `str.lower()` beyond ASCII. For comparison against "exit" and "show" this is exact: the only characters that lower-case to one of those letters are the ASCII letters themselves.
- FastAPI routing, `response_model` filtering, Pydantic validation, and the welcome dictionary of `read_root`.
- One route mismatch: the update tool sends its request to `/todos/{id}/` with a trailing slash, while the service's route has none.
- The SQLAlchemy layer (`crud.py`, `models.py`, `database.py`), the schema declarations, `backend/main.py`, the Streamlit front end and environment loading.
- The service's test file expects 201, 204 and a different welcome body. Those do not match `backend/backend/__init__.py`, and the code is what is modelled.
- TodoAgent.RunAgent: models the gate as written, since that is the code. The corrected gate is stated beside it in `SlidingWindow` and is not wired into the agent.

## Findings

| source | as written | input that shows it | evidently intended | confidence | as-written member | corrected member |
|---|---|---|---|---|---|---|
| agent_ai/Agent.py:33-45 | The call is recorded at `current_time`, the time it entered the gate, even when it then sleeps `wait_time` seconds. A call that slept is remembered as a window older than its request to the provider. The next window then admits a full 15 more calls beside it. | From an empty list, 31 calls back to back from time `t`, each entering when the previous one returns. Calls 1-15 pass at `t`. Call 16 sleeps until `t + 60` but is recorded at `t`. Calls 17-31 enter at `t + 60`, see every entry as stale, and pass at once. That is 16 requests released at `t + 60`. | At most 15 requests reach the provider in any 60-second window. Recording `current_time + wait_time` achieves this. | not executed | SlidingWindow.AsWrittenAdmitsBurst | SlidingWindow.CorrectedGateIsSpaced |
