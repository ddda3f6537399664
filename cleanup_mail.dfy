/** The cleanup job: the password lookup, the per-account POP3 session that
    marks every message for deletion and commits with QUIT, and the batch loop
    over the configured accounts. The network is an abstract `Server`, the
    process environment a map, and the log is left out. */
module CleanupMail {
  import opened Wrappers
  import opened Text
  import opened Accounts
  import opened Pop3

  // ---------------------------------------------------------------------
  // Password lookup
  // ---------------------------------------------------------------------

  const EnvPrefix: string := "MAIL_PASS_"

  /** The character the key derivation puts in place of one character of the address. */
  function KeyChar(c: char): char {
    if c == '@' || c == '.' then '_' else UpperChar(c)
  }

  /** The environment variable consulted for an address: `@` and `.` become
      `_`, letters are upper-cased, and the result is prefixed. */
  function EnvKey(email: string): (key: string)
    ensures |key| == |EnvPrefix| + |email|
    ensures key[..|EnvPrefix|] == EnvPrefix
    ensures forall i :: 0 <= i < |email| ==> key[|EnvPrefix| + i] == KeyChar(email[i])
  {
    var noAt := Replace(email, '@', '_');
    var noDot := Replace(noAt, '.', '_');
    assert forall i :: 0 <= i < |email| ==> Upper(noDot)[i] == KeyChar(email[i]);
    EnvPrefix + Upper(noDot)
  }

  /** The key has neither separator left and no lower-case letter. */
  lemma EnvKeyAlphabet(email: string)
    ensures forall i :: 0 <= i < |EnvKey(email)| ==>
      EnvKey(email)[i] != '@' && EnvKey(email)[i] != '.' && !IsLower(EnvKey(email)[i])
  {
  }

  /** Python truthiness of the resolved password: present and non-empty. */
  predicate HasPassword(p: Option<string>)
    ensures HasPassword(p) <==> p != None && p != Some("")
  {
    p.Some? && p.value != ""
  }

  /** `get_password`: a non-empty environment value wins over the record's own. */
  function GetPassword(account: Account, env: map<string, string>): (pw: Option<string>)
    ensures EnvKey(account.email) in env && env[EnvKey(account.email)] != "" ==>
      pw == Some(env[EnvKey(account.email)])
    ensures EnvKey(account.email) !in env || env[EnvKey(account.email)] == "" ==>
      pw == account.password
    ensures HasPassword(pw) <==>
      (EnvKey(account.email) in env && env[EnvKey(account.email)] != "") || HasPassword(account.password)
  {
    var key := EnvKey(account.email);
    if key in env && env[key] != "" then Some(env[key]) else account.password
  }

  // ---------------------------------------------------------------------
  // One account's session
  // ---------------------------------------------------------------------

  /** `(success, deleted)` as `cleanup_account` returns it. */
  datatype AccountResult = AccountResult(success: bool, deleted: nat)

  /** Connect, authenticate and list. */
  function Opening(account: Account, password: string): seq<Command> {
    [Connect(account.server, PortOf(account)), User(account.email), Pass(password), List]
  }

  /** DELE 1, DELE 2, ..., DELE n. */
  function Deles(n: nat): (cmds: seq<Command>)
    ensures |cmds| == n
    ensures forall i :: 0 <= i < n ==> cmds[i] == Dele(i + 1)
  {
    if n == 0 then [] else Deles(n - 1) + [Dele(n)]
  }

  /** The commands of a session in which no command fails and LIST reports `n` messages. */
  function Script(account: Account, password: string, n: nat): (cmds: seq<Command>)
    ensures |cmds| == n + 5
    ensures cmds[0] == Connect(account.server, PortOf(account)) && cmds[1] == User(account.email)
    ensures cmds[2] == Pass(password) && cmds[3] == List
    ensures forall i :: 4 <= i < n + 4 ==> cmds[i] == Dele(i - 3)
    ensures cmds[n + 4] == Quit
  {
    Opening(account, password) + Deles(n) + [Quit]
  }

  /** The first position in `from..len` at which the server refuses a command. */
  function FirstFailure(srv: Server, from: nat, len: nat): (k: Option<nat>)
    ensures k.Some? ==> from <= k.value < len && srv.Fails(k.value)
    ensures k.Some? ==> forall j :: from <= j < k.value ==> !srv.Fails(j)
    ensures k.None? ==> forall j :: from <= j < len ==> !srv.Fails(j)
    decreases len - from
  {
    if from >= len then None
    else if srv.Fails(from) then Some(from)
    else FirstFailure(srv, from + 1, len)
  }

  /** The commands `cleanup_account` sends. Without a password, none. Otherwise
      the script up to and including the first refused command, followed by
      the QUIT of the `finally` block whenever the connection had been opened
      (that is, unless the refused command was the connection itself). */
  function Trace(account: Account, env: map<string, string>, srv: Server): seq<Command> {
    var pw := GetPassword(account, env);
    if !HasPassword(pw) then []
    else
      var script := Script(account, pw.value, srv.listed);
      match FirstFailure(srv, 0, |script|)
      case None => script
      case Some(k) => script[..k + 1] + (if k == 0 then [] else [Quit])
  }

  /** The pair `cleanup_account` returns. */
  function Result(account: Account, env: map<string, string>, srv: Server): AccountResult {
    var pw := GetPassword(account, env);
    if HasPassword(pw) && FirstFailure(srv, 0, srv.listed + 5).None? then AccountResult(true, srv.listed)
    else AccountResult(false, 0)
  }

  /** The state at a `break` out of the session block: the commands sent are
      the script's first ones, the last of them failed and none before it. */
  lemma FailedSession(account: Account, env: map<string, string>, srv: Server, trace: seq<Command>)
    requires HasPassword(GetPassword(account, env))
    requires 0 < |trace| <= srv.listed + 5
    requires forall j :: 0 <= j < |trace| ==>
      trace[j] == Script(account, GetPassword(account, env).value, srv.listed)[j]
    requires srv.Fails(|trace| - 1)
    requires forall j :: 0 <= j < |trace| - 1 ==> !srv.Fails(j)
    ensures Result(account, env, srv) == AccountResult(false, 0)
    ensures Trace(account, env, srv) == trace + (if |trace| == 1 then [] else [Quit])
  {
  }

  /** `cleanup_account`. The `try` block is the labelled block, each raising
      call a `break` out of it; `connected` stands for `M is not None`. */
  method CleanupAccount(account: Account, env: map<string, string>, srv: Server)
    returns (success: bool, deleted: nat, trace: seq<Command>)
    ensures AccountResult(success, deleted) == Result(account, env, srv)
    ensures trace == Trace(account, env, srv)
  {
    success, deleted, trace := false, 0, [];
    var password := GetPassword(account, env);
    if !HasPassword(password) {
      return;
    }
    ghost var script := Script(account, password.value, srv.listed);
    var connected := false;
    label session: {
      trace := trace + [Connect(account.server, PortOf(account))];
      if srv.Fails(0) {
        FailedSession(account, env, srv, trace);
        break session;
      }
      connected := true;
      trace := trace + [User(account.email)];
      if srv.Fails(1) {
        FailedSession(account, env, srv, trace);
        break session;
      }
      trace := trace + [Pass(password.value)];
      if srv.Fails(2) {
        FailedSession(account, env, srv, trace);
        break session;
      }
      trace := trace + [List];
      if srv.Fails(3) {
        FailedSession(account, env, srv, trace);
        break session;
      }
      var numMessages := srv.listed;
      var i := 0;
      while i < numMessages
        invariant 0 <= i <= numMessages
        invariant |trace| == 4 + i
        invariant forall j :: 0 <= j < |trace| ==> trace[j] == script[j]
        invariant forall j :: 0 <= j < |trace| ==> !srv.Fails(j)
      {
        trace := trace + [Dele(i + 1)];
        if srv.Fails(4 + i) {
          FailedSession(account, env, srv, trace);
          break session;
        }
        i := i + 1;
      }
      trace := trace + [Quit];
      if srv.Fails(4 + numMessages) {
        FailedSession(account, env, srv, trace);
        break session;
      }
      connected := false;
      success, deleted := true, numMessages;
      assert FirstFailure(srv, 0, |script|).None?;
      assert trace == script;
    }
    if connected {
      // the QUIT of the `finally` block; its own failure is ignored
      trace := trace + [Quit];
    }
  }

  // ---------------------------------------------------------------------
  // What a session sends and what it removes
  // ---------------------------------------------------------------------

  /** The message numbers of the DELE commands in `t`, in the order sent. */
  function DeleNumbers(t: seq<Command>): seq<nat> {
    if t == [] then []
    else DeleNumbers(t[..|t| - 1]) + (if t[|t| - 1].Dele? then [t[|t| - 1].msg] else [])
  }

  /** How many times `c` occurs in `t`. */
  function Occurrences(t: seq<Command>, c: Command): nat {
    if t == [] then 0
    else Occurrences(t[..|t| - 1], c) + (if t[|t| - 1] == c then 1 else 0)
  }

  /** 1, 2, ..., k. */
  function Upto(k: nat): (ns: seq<nat>)
    ensures |ns| == k
    ensures forall i :: 0 <= i < k ==> ns[i] == i + 1
  {
    if k == 0 then [] else Upto(k - 1) + [k]
  }

  /** The message numbers 1..k. */
  function Numbers(k: nat): (ns: set<nat>)
    ensures forall x :: x in ns <==> 1 <= x <= k
  {
    if k == 0 then {} else Numbers(k - 1) + {k}
  }

  /** How many DELE commands the first `m` commands of a script hold. */
  function DelesWithin(m: nat, n: nat): nat {
    if m <= 4 then 0 else if m - 4 <= n then m - 4 else n
  }

  lemma AppendOne(t: seq<Command>, c: Command)
    ensures DeleNumbers(t + [c]) == DeleNumbers(t) + (if c.Dele? then [c.msg] else [])
    ensures Occurrences(t + [c], Quit) == Occurrences(t, Quit) + (if c == Quit then 1 else 0)
  {
  }

  /** Every prefix of a script: its DELEs are 1, 2, ... in order, and it holds
      a QUIT only when it is the whole script. */
  lemma {:induction false} ScriptPrefix(account: Account, password: string, n: nat, m: nat)
    requires m <= n + 5
    ensures DeleNumbers(Script(account, password, n)[..m]) == Upto(DelesWithin(m, n))
    ensures Occurrences(Script(account, password, n)[..m], Quit) == if m == n + 5 then 1 else 0
  {
    var script := Script(account, password, n);
    if m > 0 {
      ScriptPrefix(account, password, n, m - 1);
      assert script[..m] == script[..m - 1] + [script[m - 1]];
      AppendOne(script[..m - 1], script[m - 1]);
      if 4 < m < n + 5 {
        assert script[m - 1] == Dele(m - 4);
      }
    }
  }

  /** With no password there is no session at all. */
  lemma NoPasswordNoSession(account: Account, env: map<string, string>, srv: Server)
    requires !HasPassword(GetPassword(account, env))
    ensures Result(account, env, srv) == AccountResult(false, 0)
    ensures Trace(account, env, srv) == []
  {
  }

  /** The account succeeds exactly when it has a password and the server
      accepts every command of the script; a failed account reports 0 deleted,
      a successful one the count LIST gave. */
  lemma SuccessIff(account: Account, env: map<string, string>, srv: Server)
    ensures Result(account, env, srv).success <==>
      HasPassword(GetPassword(account, env)) && forall j :: 0 <= j < srv.listed + 5 ==> !srv.Fails(j)
    ensures Result(account, env, srv).deleted == if Result(account, env, srv).success then srv.listed else 0
  {
  }

  /** On success the session is connect, USER, PASS, LIST, then DELE 1..N in
      order, then a single QUIT, and nothing else. */
  lemma SuccessfulSession(account: Account, env: map<string, string>, srv: Server)
    requires Result(account, env, srv).success
    ensures Trace(account, env, srv) ==
      Opening(account, GetPassword(account, env).value) + Deles(srv.listed) + [Quit]
    ensures Trace(account, env, srv) == Script(account, GetPassword(account, env).value, srv.listed)
    ensures DeleNumbers(Trace(account, env, srv)) == Upto(srv.listed)
    ensures Occurrences(Trace(account, env, srv), Quit) == 1
    ensures Result(account, env, srv).deleted == srv.listed
  {
    var script := Script(account, GetPassword(account, env).value, srv.listed);
    ScriptPrefix(account, GetPassword(account, env).value, srv.listed, |script|);
    assert script[..|script|] == script;
  }

  /** The trace of a session whose first refused command is at position `k`. */
  lemma FailedTrace(account: Account, env: map<string, string>, srv: Server, k: nat)
    requires HasPassword(GetPassword(account, env))
    requires FirstFailure(srv, 0, srv.listed + 5) == Some(k)
    ensures Trace(account, env, srv) ==
      Script(account, GetPassword(account, env).value, srv.listed)[..k + 1] + (if k == 0 then [] else [Quit])
  {
  }

  /** Once the connection is open, the last command sent is a QUIT: that of
      the `try` block when nothing fails, otherwise that of the `finally` block. */
  lemma EndsWithQuit(account: Account, env: map<string, string>, srv: Server)
    requires HasPassword(GetPassword(account, env)) && !srv.Fails(0)
    ensures |Trace(account, env, srv)| > 0 && Trace(account, env, srv)[|Trace(account, env, srv)| - 1] == Quit
  {
    if FirstFailure(srv, 0, srv.listed + 5).None? {
      SuccessfulSession(account, env, srv);
    } else {
      var k := FirstFailure(srv, 0, srv.listed + 5).value;
      FailedTrace(account, env, srv, k);
    }
  }

  /** A session cut off at its first refused command sends DELE 1, 2, ... in
      order, never more than LIST reported, and QUIT at most twice, twice only
      when the refused command is the QUIT of the `try` block. */
  lemma FailedDiscipline(account: Account, env: map<string, string>, srv: Server, k: nat)
    requires HasPassword(GetPassword(account, env))
    requires FirstFailure(srv, 0, srv.listed + 5) == Some(k)
    ensures |DeleNumbers(Trace(account, env, srv))| <= srv.listed
    ensures forall i :: 0 <= i < |DeleNumbers(Trace(account, env, srv))| ==>
      DeleNumbers(Trace(account, env, srv))[i] == i + 1
    ensures Occurrences(Trace(account, env, srv), Quit) <= 2
    ensures Occurrences(Trace(account, env, srv), Quit) == 2 <==> k == srv.listed + 4
    ensures k == 0 ==> Trace(account, env, srv) == [Connect(account.server, PortOf(account))]
  {
    var pw := GetPassword(account, env).value;
    var script := Script(account, pw, srv.listed);
    FailedTrace(account, env, srv, k);
    ScriptPrefix(account, pw, srv.listed, k + 1);
    if k > 0 {
      AppendOne(script[..k + 1], Quit);
    } else {
      assert script[..1] == [Connect(account.server, PortOf(account))];
    }
  }

  /** Whatever fails, the DELEs sent are 1, 2, ... in increasing order and
      never more than LIST reported. QUIT is sent twice only when the QUIT of
      the `try` block itself failed, never when the connection failed, and once
      the connection is open the session always ends with a QUIT. */
  lemma SessionDiscipline(account: Account, env: map<string, string>, srv: Server)
    ensures |DeleNumbers(Trace(account, env, srv))| <= srv.listed
    ensures forall i :: 0 <= i < |DeleNumbers(Trace(account, env, srv))| ==>
      DeleNumbers(Trace(account, env, srv))[i] == i + 1
    ensures Occurrences(Trace(account, env, srv), Quit) <= 2
    ensures Occurrences(Trace(account, env, srv), Quit) == 2 <==>
      HasPassword(GetPassword(account, env)) && FirstFailure(srv, 0, srv.listed + 5) == Some(srv.listed + 4)
    ensures HasPassword(GetPassword(account, env)) && srv.Fails(0) ==>
      Trace(account, env, srv) == [Connect(account.server, PortOf(account))]
    ensures HasPassword(GetPassword(account, env)) && !srv.Fails(0) ==>
      |Trace(account, env, srv)| > 0 && Trace(account, env, srv)[|Trace(account, env, srv)| - 1] == Quit
  {
    var pw := GetPassword(account, env);
    if !HasPassword(pw) {
      assert Trace(account, env, srv) == [];
    } else if FirstFailure(srv, 0, srv.listed + 5).None? {
      SuccessfulSession(account, env, srv);
      assert FirstFailure(srv, 0, srv.listed + 5) != Some(srv.listed + 4);
    } else {
      var k := FirstFailure(srv, 0, srv.listed + 5).value;
      FailedDiscipline(account, env, srv, k);
      if srv.Fails(0) {
        assert k == 0;
      } else {
        EndsWithQuit(account, env, srv);
      }
    }
  }

  /** Connect, USER, PASS and LIST, all accepted, bring the session into the
      TRANSACTION state with nothing marked. */
  lemma OpeningAccepted(srv: Server, t: seq<Command>)
    requires |t| >= 4 && t[0].Connect? && t[1].User? && t[2].Pass? && t[3] == List
    requires forall i :: 0 <= i < 4 ==> !srv.Fails(i)
    ensures RunFrom(srv, t, 0, Initial) == RunFrom(srv, t, 4, Session(Transaction, {}, {}))
  {
    var s1 := Session(Authorization, {}, {});
    assert RunFrom(srv, t, 0, Initial) == RunFrom(srv, t, 1, s1);
    assert RunFrom(srv, t, 1, s1) == RunFrom(srv, t, 2, s1);
  }

  /** Accepted DELE 1..m, sent from position 4 on, mark messages 1..m. */
  lemma {:induction false} MarksUpTo(srv: Server, t: seq<Command>, m: nat, j: nat, s: Session)
    requires 4 + m <= |t|
    requires forall i :: 4 <= i < 4 + m ==> t[i] == Dele(i - 3) && !srv.Fails(i)
    requires j <= m && s.phase == Transaction && s.marked == Numbers(j)
    ensures RunFrom(srv, t, 4 + j, s) == RunFrom(srv, t, 4 + m, s.(marked := Numbers(m)))
    decreases m - j
  {
    if j < m {
      var next := Step(s, t[4 + j], true);
      assert next == s.(marked := Numbers(j + 1));
      MarksUpTo(srv, t, m, j + 1, next);
    } else {
      assert s == s.(marked := Numbers(m));
    }
  }

  /** A successful session removes every message of the maildrop, as RFC 1939
      defines DELE and QUIT. */
  lemma SuccessPurgesMailbox(account: Account, env: map<string, string>, srv: Server)
    requires Result(account, env, srv).success
    ensures Removed(srv, Trace(account, env, srv)) == Numbers(srv.listed)
  {
    SuccessIff(account, env, srv);
    SuccessfulSession(account, env, srv);
    var t := Trace(account, env, srv);
    var n := srv.listed;
    OpeningAccepted(srv, t);
    MarksUpTo(srv, t, n, 0, Session(Transaction, {}, {}));
    assert RunFrom(srv, t, 4 + n, Session(Transaction, Numbers(n), {})) ==
      RunFrom(srv, t, 5 + n, Session(Update, {}, Numbers(n)));
  }

  /** A session that fails at DELE k+1 still has its QUIT sent by the
      `finally` block; when the server accepts that QUIT it removes messages
      1..k, those marked before the failure, while the account is reported as
      failed with nothing deleted. */
  lemma FailedDeleStillCommitsEarlierMarks(account: Account, env: map<string, string>, srv: Server, k: nat)
    requires HasPassword(GetPassword(account, env))
    requires k < srv.listed
    requires forall j :: 0 <= j < 4 + k ==> !srv.Fails(j)
    requires srv.Fails(4 + k) && !srv.Fails(5 + k)
    ensures Result(account, env, srv) == AccountResult(false, 0)
    ensures Trace(account, env, srv) ==
      Opening(account, GetPassword(account, env).value) + Deles(k + 1) + [Quit]
    ensures Removed(srv, Trace(account, env, srv)) == Numbers(k)
  {
    var pw := GetPassword(account, env).value;
    var script := Script(account, pw, srv.listed);
    var sent := script[..5 + k];
    FailedSession(account, env, srv, sent);
    var t := sent + [Quit];
    assert t == Opening(account, pw) + Deles(k + 1) + [Quit];
    OpeningAccepted(srv, t);
    MarksUpTo(srv, t, k, 0, Session(Transaction, {}, {}));
    var marked := Session(Transaction, Numbers(k), {});
    assert RunFrom(srv, t, 4 + k, marked) == RunFrom(srv, t, 5 + k, marked);
    assert RunFrom(srv, t, 5 + k, marked) == RunFrom(srv, t, 6 + k, Session(Update, {}, Numbers(k)));
  }

  /** A session whose connection fails sends nothing else and removes nothing. */
  lemma FailedConnectionRemovesNothing(account: Account, env: map<string, string>, srv: Server)
    requires srv.Fails(0)
    ensures Removed(srv, Trace(account, env, srv)) == {}
  {
    SessionDiscipline(account, env, srv);
    NoQuitNoRemoval(srv, Trace(account, env, srv));
  }

  // ---------------------------------------------------------------------
  // The batch loop of `main`
  // ---------------------------------------------------------------------

  /** What `main` ends with: the early return for an empty configuration, or
      the two counters and the positions of the accounts handed to the session. */
  datatype BatchOutcome =
    | NothingConfigured
    | Completed(successCount: nat, totalDeleted: nat, attempted: seq<nat>)

  /** The positions, below `n`, of the enabled accounts, in list order. */
  function Attempted(accounts: seq<Account>, n: nat): (idx: seq<nat>)
    requires n <= |accounts|
    ensures |idx| <= n
    ensures forall j :: 0 <= j < |idx| ==> idx[j] < n && IsEnabled(accounts[idx[j]])
    ensures forall j: nat :: j < n && IsEnabled(accounts[j]) ==> j in idx
    ensures forall a, b :: 0 <= a < b < |idx| ==> idx[a] < idx[b]
  {
    if n == 0 then []
    else Attempted(accounts, n - 1) + (if IsEnabled(accounts[n - 1]) then [n - 1] else [])
  }

  /** Whether the account at position `j` is attempted and succeeds. */
  predicate SucceedsAt(accounts: seq<Account>, env: map<string, string>, servers: seq<Server>, j: nat)
    requires |servers| == |accounts| && j < |accounts|
  {
    IsEnabled(accounts[j]) && Result(accounts[j], env, servers[j]).success
  }

  /** `success_count` after the first `n` accounts. */
  function Successes(accounts: seq<Account>, env: map<string, string>, servers: seq<Server>, n: nat): (count: nat)
    requires |servers| == |accounts| && n <= |accounts|
    ensures count <= |Attempted(accounts, n)|
  {
    if n == 0 then 0
    else Successes(accounts, env, servers, n - 1) + (if SucceedsAt(accounts, env, servers, n - 1) then 1 else 0)
  }

  /** `total_deleted` after the first `n` accounts: the counts of the successes only. */
  function TotalDeleted(accounts: seq<Account>, env: map<string, string>, servers: seq<Server>, n: nat): (total: nat)
    requires |servers| == |accounts| && n <= |accounts|
    ensures Successes(accounts, env, servers, n) == 0 ==> total == 0
  {
    if n == 0 then 0
    else
      var last := if SucceedsAt(accounts, env, servers, n - 1) then Result(accounts[n - 1], env, servers[n - 1]).deleted else 0;
      TotalDeleted(accounts, env, servers, n - 1) + last
  }

  /** `main` from the account list on (lines 109-131); `servers[j]` is the
      remote end of `accounts[j]`. */
  method RunBatch(accounts: seq<Account>, env: map<string, string>, servers: seq<Server>)
    returns (outcome: BatchOutcome)
    requires |servers| == |accounts|
    ensures |accounts| == 0 ==> outcome == NothingConfigured
    ensures |accounts| > 0 ==> outcome == Completed(
      Successes(accounts, env, servers, |accounts|),
      TotalDeleted(accounts, env, servers, |accounts|),
      Attempted(accounts, |accounts|))
  {
    if |accounts| == 0 {
      return NothingConfigured;
    }
    var totalDeleted, successCount := 0, 0;
    var attempted: seq<nat> := [];
    for i := 0 to |accounts|
      invariant successCount == Successes(accounts, env, servers, i)
      invariant totalDeleted == TotalDeleted(accounts, env, servers, i)
      invariant attempted == Attempted(accounts, i)
    {
      var account := accounts[i];
      if !IsEnabled(account) {
        continue;
      }
      attempted := attempted + [i];
      var success, deleted, _ := CleanupAccount(account, env, servers[i]);
      if success {
        successCount := successCount + 1;
        totalDeleted := totalDeleted + deleted;
      }
    }
    return Completed(successCount, totalDeleted, attempted);
  }

  /** A disabled account's server plays no part: two runs whose servers agree
      on every enabled account end with the same counters. */
  lemma {:induction false} DisabledAccountsIgnored(
    accounts: seq<Account>, env: map<string, string>, servers: seq<Server>, others: seq<Server>, n: nat)
    requires |servers| == |accounts| == |others| && n <= |accounts|
    requires forall j :: 0 <= j < n && IsEnabled(accounts[j]) ==> servers[j] == others[j]
    ensures Successes(accounts, env, servers, n) == Successes(accounts, env, others, n)
    ensures TotalDeleted(accounts, env, servers, n) == TotalDeleted(accounts, env, others, n)
  {
    if n > 0 {
      DisabledAccountsIgnored(accounts, env, servers, others, n - 1);
    }
  }

  /** One account's authentication failure does not stop the next one: the
      first account's PASS is refused, the second goes through. */
  lemma FailureIsolated(a: Account, b: Account, env: map<string, string>, sa: Server, sb: Server)
    requires IsEnabled(a) && IsEnabled(b)
    requires sa.Fails(2)
    requires HasPassword(GetPassword(b, env))
    requires forall j :: 0 <= j < sb.listed + 5 ==> !sb.Fails(j)
    ensures Successes([a, b], env, [sa, sb], 2) == 1
    ensures TotalDeleted([a, b], env, [sa, sb], 2) == sb.listed
  {
  }
}
