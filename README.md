# mail_cleanup, modelled in Dafny

The repository holds two small Python scripts that share one configuration file. `accounts.json` is an ordered list of mailbox records. `cleanup_mail.py` is a batch job. For every enabled record it opens a POP3-over-TLS session, authenticates, lists the messages, marks each one with DELE and commits with QUIT. `manage_accounts.py` is an interactive menu that lists, adds, removes and enables/disables records, and writes the file after every change.

The model has six modules:

- `Wrappers` (wrappers.dfy): the `Option` type for record fields that may be absent.
- `Text` (text.dfy): `str.replace` for one character, `str.upper`, and Python's `int(...)` together with its inverse, the decimal rendering.
- `Accounts` (accounts.dfy): the account record, with the defaults `enabled = true` and `port = 995`.
- `Pop3` (pop3.dfy): the commands the job sends and an abstract server. A `Server` says which positions of a session's command sequence raise, and how many messages LIST reports. Since the commands before the first failure are fixed, this covers any deterministic server. The module also gives the session semantics of RFC 1939: DELE only marks a message (section 5), and the marks are removed when QUIT moves a TRANSACTION-state session into the UPDATE state (section 6).
- `CleanupMail` (cleanup_mail.dfy): `get_password`; `cleanup_account` as a method that builds the command trace, with its `try`/`finally`; and the batch loop of `main`. `Trace` and `Result` are the reference definitions the method is proved against. Each is stated as the script of a session in which nothing fails, cut off at the first refused command.
- `ManageAccounts` (manage_accounts.dfy): the `AccountStore` class, whose methods change its `accounts` sequence in place and count calls of `save_config` in `saves`. `Apply` and `Run` are functional specifications of one menu choice and of the whole menu loop; the class's `Dispatch` and `RunMenu` methods are proved against them.

Behaviour of the code that the model keeps:

- A port answer that is not a number makes `int(port)` (manage_accounts.py:49) raise `ValueError`. Nothing catches it, so the editor stops. `AddAccount` returns `false` without changing or saving anything, and the menu loop ends with `BadPort`.
- A remove or toggle selector that is not a number, or is out of range, makes the code print a message and change nothing (manage_accounts.py:62-74, 84-94). The model returns the `Selection` value `NotANumber` or `OutOfRange`.
- The closing log line (cleanup_mail.py:131) divides `success_count` by `len(accounts)`, which includes disabled accounts. The log is not modelled. `RunBatch` returns the two counters and the list of positions it attempted.

Behaviour worth noting, proved as `FailedDeleStillCommitsEarlierMarks`: suppose DELE k+1 fails after DELE 1..k succeeded. The `finally` block still sends QUIT. If the server accepts it, RFC 1939 semantics remove messages 1..k, the ones already marked, yet the account is reported as `(False, 0)`.

## Model

| member | source | states |
|---|---|---|
| `Text.Replace` | cleanup_mail.py:34 | `str.replace` for one character keeps the length and swaps exactly the occurrences of the target character |
| `Text.Upper` | cleanup_mail.py:34 | `str.upper` keeps the length and upper-cases each character independently |
| `Text.ParseInt` | manage_accounts.py:49 | `int(...)` succeeds exactly on an optional sign followed by digits, giving the digits' value, negated after '-'; the empty answer is refused |
| `Text.ParseIntRoundTrip` | manage_accounts.py:66 | `int(...)` reads every integer's decimal rendering back as that integer |
| `CleanupMail.EnvKey` | cleanup_mail.py:34 | the key is `MAIL_PASS_` followed by the address with `@` and `.` replaced by `_` and letters upper-cased; it is 10 characters longer than the address |
| `CleanupMail.EnvKeyAlphabet` | cleanup_mail.py:30-34 | no `@`, no `.` and no lower-case letter is left in the key |
| `CleanupMail.GetPassword` | cleanup_mail.py:27-40 | a non-empty environment value wins; an absent or empty one falls back to the record's password; a usable password exists iff one of the two is non-empty |
| `CleanupMail.Deles` | cleanup_mail.py:72-73 | the DELE commands of the loop are DELE 1 .. DELE n in that order |
| `CleanupMail.FirstFailure` | cleanup_mail.py:59-88 | finds the first command the server refuses, which is where the `try` block is left |
| `CleanupMail.CleanupAccount` | cleanup_mail.py:42-95 | the method's result pair and command trace equal the reference `Result` and `Trace` for every password, environment and server |
| `CleanupMail.NoPasswordNoSession` | cleanup_mail.py:49-52 | with no usable password the result is `(False, 0)` and no command is sent |
| `CleanupMail.SuccessIff` | cleanup_mail.py:59-88 | an account succeeds iff it has a password and no command of its session fails; a failure reports 0 deleted, a success the LIST count |
| `CleanupMail.SuccessfulSession` | cleanup_mail.py:62-81 | on success the trace is connect, USER, PASS, LIST, DELE 1..N, then exactly one QUIT, and N is reported as deleted |
| `CleanupMail.SessionDiscipline` | cleanup_mail.py:67-95 | on every path the DELEs sent are 1, 2, ... in order and at most N; QUIT is sent at most twice, and twice exactly when the first QUIT failed; a failed connection sends nothing after it; once the connection succeeds, the last command sent is always a QUIT, from the `try` block or from the `finally` block |
| `CleanupMail.FailedDiscipline` | cleanup_mail.py:67-95 | a session cut off at its first refused command sends DELE 1, 2, ... in order and at most N, and QUIT at most twice, twice exactly when the refused command is the `try` block's QUIT; a refused connect sends nothing else |
| `CleanupMail.EndsWithQuit` | cleanup_mail.py:78-95 | once the connection is open, the last command of the session is a QUIT, whether the `try` block completes or the `finally` block runs after a failure |
| `CleanupMail.SuccessPurgesMailbox` | cleanup_mail.py:70-81 | under RFC 1939 semantics a successful session removes messages 1..N, the whole maildrop |
| `CleanupMail.OpeningAccepted` | cleanup_mail.py:59-67 | an accepted connect, USER, PASS and LIST leave the session in the TRANSACTION state with nothing marked |
| `CleanupMail.MarksUpTo` | cleanup_mail.py:72-73 | accepted DELE 1..m mark exactly messages 1..m and remove nothing yet |
| `CleanupMail.FailedDeleStillCommitsEarlierMarks` | cleanup_mail.py:72-95 | for every k below N, a refused DELE k+1 yields `(False, 0)`; the trace is the opening, DELE 1..k+1, and the `finally` QUIT, which when accepted commits the removal of messages 1..k |
| `CleanupMail.FailedConnectionRemovesNothing` | cleanup_mail.py:57-95 | a session whose connection fails removes no message |
| `Pop3.NoQuitRemovesNothing` | cleanup_mail.py:78-79 | marks alone delete nothing: without a QUIT no message is removed |
| `Pop3.NoQuitNoRemoval` | cleanup_mail.py:78-79 | a whole session without a QUIT removes nothing |
| `Accounts.IsEnabled` | cleanup_mail.py:122 | a record is enabled unless its `enabled` field is present and false |
| `Accounts.PortOf` | cleanup_mail.py:59 | the port connected to is the record's `port`, or 995 when the field is absent |
| `CleanupMail.HasPassword` | cleanup_mail.py:49-52 | a password is usable iff it is present and not the empty string |
| `CleanupMail.Attempted` | cleanup_mail.py:121-126 | the positions handed to the session are exactly the enabled ones (a missing `enabled` counts as true), in increasing order, at most `len(accounts)` of them |
| `CleanupMail.Successes` | cleanup_mail.py:119-128 | `success_count` never exceeds the number of enabled accounts |
| `CleanupMail.TotalDeleted` | cleanup_mail.py:118-129 | `total_deleted` adds the counts of successes only, and is 0 when nothing succeeded |
| `CleanupMail.RunBatch` | cleanup_mail.py:109-131 | an empty list returns before any account is processed; otherwise the loop's two counters and its attempted positions equal `Successes`, `TotalDeleted` and `Attempted` over the whole list |
| `CleanupMail.DisabledAccountsIgnored` | cleanup_mail.py:121-126 | a disabled account's server has no influence on either counter |
| `CleanupMail.FailureIsolated` | cleanup_mail.py:121-129 | an account whose PASS is refused does not stop the next one: the counters are 1 and the second account's message count |
| `ManageAccounts.ParsePort` | manage_accounts.py:41-49 | a blank port answer is 995; any other answer goes through `int(...)` |
| `ManageAccounts.NewAccount` | manage_accounts.py:45-52 | the appended record carries the typed email, password, server and description, the parsed port, always stored as a `port` field, and `enabled` set to true |
| `ManageAccounts.PortAnswers` | manage_accounts.py:41-49 | every port typed in decimal is stored as typed, blank is 995, and a non-numeric answer is refused |
| `ManageAccounts.Select` | manage_accounts.py:62-74 | an empty list selects nothing; otherwise a selector is valid iff it parses to s with 1 <= s <= len, and then selects index s-1 |
| `ManageAccounts.RemoveAt` | manage_accounts.py:68 | `pop(i)` shortens the list by one, keeps the others in their relative order, and removes exactly one copy of the record |
| `ManageAccounts.ToggleAt` | manage_accounts.py:87 | the selected record becomes itself with `enabled` set to the negation of its effective value; every other record is unchanged |
| `ManageAccounts.ToggleTwice` | manage_accounts.py:87 | toggling twice restores the effective `enabled` and every other field; the list is identical iff the field was present |
| `ManageAccounts.Apply` | manage_accounts.py:106-121 | '1' changes nothing; '2' appends `NewAccount` and saves once, or aborts when the port is not a number; '3' and '4' apply `RemoveAt` and `ToggleAt` to the selected record and save once; '5' leaves; an unknown choice or a rejected selector changes nothing; a save happens iff the list changed |
| `ManageAccounts.ToggleTwiceInMenu` | manage_accounts.py:76-89 | two toggles of the same valid selector save twice and restore every record's enabled status |
| `ManageAccounts.Run` | manage_accounts.py:96-121 | the loop ends only at the first '5', at the first add whose port answer is not a number, or at the end of input; it stops at the first step that is either of those, and runs out of input only when no step is; it saves at most once per step |
| `ManageAccounts.UnknownChoiceSkipped` | manage_accounts.py:120-121 | a step with an unrecognised choice can be dropped from the input without changing the outcome |
| `ManageAccounts.AccountStore.Save` | manage_accounts.py:15-19 | saving leaves the list unchanged and counts one write |
| `ManageAccounts.AccountStore.ListAccounts` | manage_accounts.py:21-33 | one row per record, numbered from 1, showing enabled when the field is absent and an empty description when absent |
| `ManageAccounts.AccountStore.AddAccount` | manage_accounts.py:35-55 | a valid port appends exactly one enabled record at the end and saves once; a bad port changes and saves nothing |
| `ManageAccounts.AccountStore.RemoveAccount` | manage_accounts.py:57-74 | a valid selector pops that record and saves once; an empty list or an invalid selector changes and saves nothing |
| `ManageAccounts.AccountStore.ToggleAccount` | manage_accounts.py:76-94 | a valid selector flips that record's `enabled` and saves once; anything else changes and saves nothing |
| `ManageAccounts.AccountStore.Dispatch` | manage_accounts.py:106-121 | one pass of the menu loop changes the store exactly as `Apply` says |
| `ManageAccounts.AccountStore.RunMenu` | manage_accounts.py:96-121 | the menu loop ends in the store, reason and step count that `Run` gives |

## Left out

- The network: `poplib.POP3_SSL`, TLS, sockets and `socket.setdefaulttimeout` are replaced by the abstract `Server`. It does not distinguish `socket.timeout` from other exceptions, since both give `(False, 0)` and differ only in the log text.
- A server that refuses a DELE for a message number above its count is not modelled as such; the `Server` decides refusals by position only.
- Logging, `print` output and the column widths of `list_accounts` are presentation. The status label is modelled as a boolean.
- File I/O: `load_config`, `save_config`, `json.load`/`json.dump` and the check that the config file exists are left out. Persistence is the `saves` counter. `accounts` stands for the file's content, since every editor operation reloads the file and writes every change back. The round trip of the JSON encoding is not modelled.
- `input()` and `.strip()`: answers are parameters, already stripped. The end of the input stands for the `EOFError` the script would raise.
- `os.environ` is passed in as a map.
- `Text.ParseInt`: models `int(...)` on ASCII digits with an optional sign only; it does not accept the surrounding whitespace, underscores or non-ASCII digits that Python accepts. This matters for the selectors, which are not stripped.
- `Text.Upper`: upper-cases ASCII letters only. Python's `str.upper` also maps other letters, some of them to several characters.
- `Accounts.Account` always has `email` and `server`. The `KeyError` paths of records lacking them are not modelled; some of those paths would stop the scripts.
- The port value is unbounded; neither the source nor the model checks its range.
