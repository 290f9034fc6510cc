# Leave ledger of the employee MCP server

This project models the leave-management core of a small MCP server. The
server keeps an in-memory map from employee id to a leave record. Each record
holds the number of leave days left (`balance`) and the dates already taken
(`history`, oldest first). Four tools act on it:

- `get_leave_balance` and `get_leave_history` look a record up and answer with a fixed text.
- `apply_leave` checks the id, then the balance. Only when both checks pass does it deduct
  the number of dates and append the dates to the history.
- `get_greeting` is a text template that never looks at the store.

Layout:

- `wrappers.dfy` (`Wrappers`): an `Option` type that works with `:-`.
- `decimal.dfy` (`Decimal`): how Python's f-strings render an integer, and parsers
  that read it back.
- `text_join.dfy` (`TextJoin`): `", ".join` and `split(", ")`, with the facts the history
  text relies on.
- `ledger.dfy` (`Ledger`): records, the seed store `SEED`, and the pure transition `Apply`,
  which specifies `apply_leave`. It also has `Run`, a sequence of applications served in order.
- `leave_tools.dfy` (`LeaveTools`): the reply texts of the four tools, the readers that
  recover the data from those texts, and the class `LeaveManager`. The class holds the live
  store. Its method `ApplyLeave` updates the store in place, as the source does. Its method
  `Invoke` dispatches a closed `ToolCall` datatype.

Each reply text has a partner that reads it back. The reader recovers the balance, the
outcome of an application, the list of dates or the greeting's name. The round-trip lemmas
show that each reply carries exactly the data it reports.

Notes on reading the code:

- `data = employee_leaves.get(id)` is followed by `if data:`. A record is a dict with two
  keys, so it is always truthy. Only membership decides the branch, and the model checks
  membership.
- Balances are Python integers. The model uses `int` and renders negative values with a
  leading `-`. A negative balance cannot arise from the seed store. `SeedIsNonNegative`
  shows the seed has no negative balance. `LeaveManager.Valid()` keeps the live store equal to
  `Run` of the seed over the applications served so far. `SeedRunStep` combines this with
  `RunKeepsNonNegative` to give `ApplyLeave` its promise that no balance is negative afterwards.
- On a record whose balance is already negative, an application with no dates is refused:
  `balance < 0` holds. `ApplyNoDates` therefore asks for a non-negative balance.
- A history holding the single entry `"No leaves taken."` renders exactly like an empty
  history (`HistoryText`). A date containing ", " makes the joined text ambiguous:
  `["a, b"]` and `["a", "b"]` give the same reply. `HistoryReplyReadsBack` excludes exactly
  these two cases. This is how the source's text format behaves.
- The code has no lock around the check and the update (app.py:50-62). The model is one
  sequential caller, and `Run` covers serial schedules only.

## Model

| member | source | states |
|---|---|---|
| `Decimal.NatToDecimal` | app.py:31 | The rendered count is a non-empty run of digits with no leading zero (except for 0 itself). |
| `Decimal.IntToDecimal` | app.py:31 | The rendered integer starts with '-' exactly when it is negative. |
| `Decimal.NatRoundTrip` | app.py:65 | Parsing the rendering of a natural number gives back that number. |
| `Decimal.CanonicalRoundTrip` | app.py:65 | Every digit string without leading zeros is the rendering of its own value, so the rendering is the one canonical form. |
| `Decimal.IntRoundTrip` | app.py:31 | Parsing the rendering of any integer, negative ones included, gives back that integer. |
| `Decimal.ReadNatOfConcat` | app.py:55-56 | A rendered count followed by text that does not start with a digit is read back as that count, leaving the text. |
| `TextJoin.Join` | app.py:74 | `", ".join`: the first part comes first, and with two or more parts a comma follows it. |
| `TextJoin.JoinAppend` | app.py:74 | For two non-empty lists xs and ys, joining xs ++ ys with ", " is the join of xs, then ", ", then the join of ys. |
| `TextJoin.SplitJoin` | app.py:74 | Splitting the ", "-join of a non-empty list gives back that list, when no part contains ", ". |
| `Ledger.SeedIsNonNegative` | app.py:16-19 | The seed store `SEED` (E001: 18 days, two dates; E002: 20 days, none) has no negative balance. |
| `Ledger.Apply` | app.py:45-65 | An unknown id gives NotFound. If the balance is below the number of dates, the outcome is Insufficient(requested, available). Otherwise the outcome is Applied: the balance drops by exactly that number, the dates are appended in order, and the remaining balance is reported. A non-applied call leaves the store unchanged. No key is added or removed, and every other record is untouched. |
| `Ledger.ApplyKeepsNonNegative` | app.py:54-61 | If every balance is non-negative before an application, every balance is non-negative after it. |
| `Ledger.ApplyExtendsHistory` | app.py:62 | Every employee's old history is a prefix of the new one. |
| `Ledger.ApplyNoDates` | app.py:49-65 | With a non-negative balance, applying for no dates succeeds, reports 0 days and the unchanged balance, and leaves the store as it was. |
| `Ledger.Run` | app.py:39-65 | A sequence of applications yields one outcome per call and never changes the set of employee ids. |
| `Ledger.RunConservesLeave` | app.py:60-62 | After any serial run, each employee's balance has dropped by exactly the number of dates granted to them. Their history is the old history followed by those dates, in grant order. |
| `Ledger.ApplyGrants` | app.py:54-62 | One application changes an employee's record only by the dates it grants to them: the history gains exactly those dates and the balance drops by their number. Refused calls and calls for other employees grant nothing. |
| `Ledger.SeedRunStep` | app.py:39-65 | Serving one more application after any served sequence from the seed store applies it to the current store, and leaves no negative balance. |
| `Ledger.RunKeepsNonNegative` | app.py:54-61 | A serial run from non-negative balances never produces a negative balance. |
| `LeaveTools.BalanceReply` | app.py:29-35 | The reply is "Employee ID not found." exactly when the id is unknown. |
| `LeaveTools.BalanceReplyReadsBack` | app.py:29-35 | "{id} has {balance} leave days remaining." reads back as exactly the stored balance. The not-found reply reads back as nothing. |
| `LeaveTools.HistoryText` | app.py:74 | The text after the colon is "No leaves taken." exactly when the history is empty or is the single entry "No leaves taken.". |
| `LeaveTools.HistoryTextAppend` | app.py:74 | Adding a non-empty list of dates to a history gives their ", "-join, when the history was empty. Otherwise it gives the old joined text, then ", ", then the join of the new dates. |
| `LeaveTools.HistoryReply` | app.py:72-79 | The reply is "Employee ID not found." exactly when the id is unknown. |
| `LeaveTools.HistoryReplyReadsBack` | app.py:72-79 | "Leave history for {id}: ..." reads back as exactly the stored dates, in order, or as the empty list for "No leaves taken.". This holds when no date contains ", " and the history is not the single entry "No leaves taken.". The not-found reply reads back as nothing. |
| `LeaveTools.ApplyExtendsHistoryReply` | app.py:60-75 | After a successful application of one or more dates, the history reply is the previous one with ", " and the new dates added at its end. If the history was empty, the new dates replace "No leaves taken.". |
| `LeaveTools.ApplyReply` | app.py:45-65 | Renders the three `apply_leave` replies (app.py:47, 55-56, 65); the reply is "Employee ID not found." exactly for the NotFound outcome. |
| `LeaveTools.ShortReplyRoundTrip` | app.py:54-58 | "Insufficient leave balance. You requested {n} day(s) but have only {balance}." reads back as both counts. |
| `LeaveTools.AppliedReplyRoundTrip` | app.py:60-65 | "Leave applied for {n} day(s). Remaining balance: {new}." reads back as both counts. |
| `LeaveTools.ApplyReplyRoundTrip` | app.py:45-65 | Every outcome of `apply_leave` is recovered exactly from its reply text, so no two outcomes share a reply. |
| `LeaveTools.Greeting` | app.py:82-85 | The greeting is "Hello, " + name + "! How can I assist you with leave management today?", and the name reads back from it. It takes no store. |
| `LeaveTools.LeaveManager.constructor` | app.py:16-19 | The store starts as the seed: E001 with 18 days and two dates, E002 with 20 days and no dates. No application has been served yet, so `Valid()` holds. |
| `LeaveTools.LeaveManager.ApplyLeave` | app.py:39-65 | The in-place update leaves the store equal to `Apply` of the old store, and the reply is the text of `Apply`'s outcome. The call is recorded as served, `Valid()` is kept, and no balance is negative afterwards. |
| `LeaveTools.LeaveManager.Invoke` | app.py:24-79 | Balance and history calls leave the store and the served applications unchanged, and answer with the lookup texts. A leave application changes the store exactly as `Apply` does and is recorded as served. |

## Left out

- The FastAPI application, the SSE transport, the `/messages` mount, its documentation route and the `/sse` handler (app.py:87-133). This is network and async plumbing over libraries outside this model.
- The session state machine, call/result frames and transport errors. They live in the MCP library, which is not part of this model.
- Tool and resource registration through FastMCP decorators (app.py:22-25, 38, 68, 82). Dispatch is modelled as the closed `ToolCall` datatype. Matching the resource URI template `greeting://{name}` is library behaviour and is not modelled. `Greeting` takes the name directly.
- All `logging` calls and the logging setup (app.py:11-13 and throughout). They have no effect on results.
- `server.py`: host and port from environment variables, and `uvicorn.run`. This is process configuration and I/O.
- Concurrent sessions. The source has no lock around the check and the update, so there is no synchronisation to verify. `Run` covers only serial schedules.
- The `routes` module imported at app.py:138 is not part of this model.
- Date validation. The source treats `leave_dates` as opaque labels plus a count, and so does the model.
- Object identity of the Python lists. A record's history is a value in the model. Aliasing between a caller's `leave_dates` and the stored list is not represented. `extend` copies the elements, so this changes no observable result.
- `HistoryReplyReadsBack`: it is stated only for histories in which no date contains ", " and which are not the single entry "No leaves taken.". In those two cases the source's text does not determine the list: a date containing ", " reads the same as two dates, and that single entry reads the same as an empty history.
