/** The interactive account editor: the store of account records as an object
    whose list is changed in place and saved after every change, the answers
    typed at its prompts as parameters, and the menu loop over a script of
    such answers. Writing `accounts.json` is counted, not performed. */
module ManageAccounts {
  import opened Wrappers
  import opened Text
  import opened Accounts

  // ---------------------------------------------------------------------
  // Answers and what they select
  // ---------------------------------------------------------------------

  /** The five answers `add_account` reads, already stripped. */
  datatype AddForm = AddForm(email: string, password: string, server: string, port: string, description: string)

  /** The port answer: blank stands for the default port, anything else goes
      through `int(...)`, whose `ValueError` is `None`. */
  function ParsePort(answer: string): (port: Option<int>)
    ensures answer == "" ==> port == Some(DefaultPort)
    ensures answer != "" ==> port == ParseInt(answer)
  {
    if answer == "" then Some(DefaultPort) else ParseInt(answer)
  }

  /** Every port typed in decimal is taken as typed; a blank answer is 995;
      an answer that is not a number is refused. */
  lemma PortAnswers(port: int, answer: string)
    ensures ParsePort(IntToString(port)) == Some(port)
    ensures ParsePort("") == Some(995)
    ensures answer != "" && !IsIntLiteral(answer) ==> ParsePort(answer) == None
  {
    ParseIntRoundTrip(port);
  }

  /** The record `add_account` appends. */
  function NewAccount(form: AddForm, port: int): (a: Account)
    ensures a.email == form.email && a.password == Some(form.password) && a.server == form.server
    ensures a.port == Some(port) && PortOf(a) == port
    ensures a.enabled == Some(true) && IsEnabled(a)
    ensures a.description == Some(form.description)
  {
    Account(form.email, Some(form.password), form.server, Some(port), Some(true), Some(form.description))
  }

  /** What a numbered answer at the remove and toggle prompts comes to. */
  datatype Selection =
    | NoAccounts           // the list is empty: no prompt is shown
    | NotANumber           // `int(...)` raised `ValueError`
    | OutOfRange(number: int)
    | Selected(index: nat) // 0-based position of the chosen record

  /** `index = int(answer) - 1` and its bounds check `0 <= index < len(accounts)`. */
  function Select(accounts: seq<Account>, answer: string): (sel: Selection)
    ensures sel == NoAccounts <==> |accounts| == 0
    ensures sel == NotANumber <==> |accounts| > 0 && ParseInt(answer).None?
    ensures sel.Selected? <==>
      |accounts| > 0 && ParseInt(answer).Some? && 1 <= ParseInt(answer).value <= |accounts|
    ensures sel.Selected? ==> sel.index < |accounts| && sel.index + 1 == ParseInt(answer).value
  {
    if |accounts| == 0 then NoAccounts
    else match ParseInt(answer)
      case None => NotANumber
      case Some(number) =>
        var index := number - 1;
        if 0 <= index < |accounts| then Selected(index) else OutOfRange(number)
  }

  /** `accounts.pop(i)`: the others keep their relative order. */
  function RemoveAt(accounts: seq<Account>, i: nat): (r: seq<Account>)
    requires i < |accounts|
    ensures |r| == |accounts| - 1
    ensures forall j :: 0 <= j < i ==> r[j] == accounts[j]
    ensures forall j :: i <= j < |r| ==> r[j] == accounts[j + 1]
    ensures multiset(r) + multiset{accounts[i]} == multiset(accounts)
  {
    assert accounts == accounts[..i] + [accounts[i]] + accounts[i + 1..];
    accounts[..i] + accounts[i + 1..]
  }

  /** `accounts[i]['enabled'] = not accounts[i].get('enabled', True)`. */
  function ToggleAt(accounts: seq<Account>, i: nat): (r: seq<Account>)
    requires i < |accounts|
    ensures |r| == |accounts|
    ensures r[i] == accounts[i].(enabled := Some(!IsEnabled(accounts[i])))
    ensures IsEnabled(r[i]) == !IsEnabled(accounts[i])
    ensures forall j :: 0 <= j < |r| && j != i ==> r[j] == accounts[j]
  {
    accounts[i := accounts[i].(enabled := Some(!IsEnabled(accounts[i])))]
  }

  /** Toggling the same record twice restores whether it is enabled and every
      other field. The list is restored exactly when the record had an
      `enabled` field; one without it now holds an explicit `true`. */
  lemma ToggleTwice(accounts: seq<Account>, i: nat)
    requires i < |accounts|
    ensures |ToggleAt(ToggleAt(accounts, i), i)| == |accounts|
    ensures IsEnabled(ToggleAt(ToggleAt(accounts, i), i)[i]) == IsEnabled(accounts[i])
    ensures ToggleAt(ToggleAt(accounts, i), i)[i] == accounts[i].(enabled := Some(IsEnabled(accounts[i])))
    ensures ToggleAt(ToggleAt(accounts, i), i) == accounts <==> accounts[i].enabled.Some?
  {
  }

  // ---------------------------------------------------------------------
  // The menu
  // ---------------------------------------------------------------------

  /** The store as the editor sees it between two menu choices: the records
      in `accounts.json`, and how many times the file has been written. */
  datatype Editor = Editor(accounts: seq<Account>, saves: nat)

  /** One pass of the menu loop: the choice typed, and the answers the chosen
      operation then reads (unused for the other choices). */
  datatype MenuStep = MenuStep(choice: string, form: AddForm, selector: string)

  /** The loop goes on with a (possibly) new store, leaves on '5', or ends
      because `int(port)` raised in `add_account`, which nothing catches. */
  datatype Reaction = Stay(next: Editor) | Leave | Abort

  /** One menu choice. */
  function Apply(e: Editor, step: MenuStep): (r: Reaction)
    ensures r.Leave? <==> step.choice == "5"
    ensures r.Abort? <==> step.choice == "2" && ParsePort(step.form.port).None?
    ensures r.Stay? ==> r.next.saves <= e.saves + 1
    ensures r.Stay? ==> (r.next.saves == e.saves + 1 <==> r.next.accounts != e.accounts)
    ensures step.choice !in {"1", "2", "3", "4", "5"} ==> r == Stay(e)
    ensures step.choice in {"3", "4"} && !Select(e.accounts, step.selector).Selected? ==> r == Stay(e)
    ensures step.choice == "1" ==> r == Stay(e)
    ensures step.choice == "2" && ParsePort(step.form.port).Some? ==>
      r == Stay(Editor(e.accounts + [NewAccount(step.form, ParsePort(step.form.port).value)], e.saves + 1))
    ensures step.choice == "3" && Select(e.accounts, step.selector).Selected? ==>
      r == Stay(Editor(RemoveAt(e.accounts, Select(e.accounts, step.selector).index), e.saves + 1))
    ensures step.choice == "4" && Select(e.accounts, step.selector).Selected? ==>
      r == Stay(Editor(ToggleAt(e.accounts, Select(e.accounts, step.selector).index), e.saves + 1))
  {
    if step.choice == "1" then Stay(e)
    else if step.choice == "2" then
      match ParsePort(step.form.port)
      case None => Abort
      case Some(port) => Stay(Editor(e.accounts + [NewAccount(step.form, port)], e.saves + 1))
    else if step.choice == "3" then
      match Select(e.accounts, step.selector)
      case Selected(i) => Stay(Editor(RemoveAt(e.accounts, i), e.saves + 1))
      case _ => Stay(e)
    else if step.choice == "4" then
      match Select(e.accounts, step.selector)
      case Selected(i) =>
        assert ToggleAt(e.accounts, i)[i] != e.accounts[i];
        Stay(Editor(ToggleAt(e.accounts, i), e.saves + 1))
      case _ => Stay(e)
    else if step.choice == "5" then Leave
    else Stay(e)
  }

  /** Toggling the same valid selector twice writes the file twice and leaves
      every record enabled exactly as before. */
  lemma ToggleTwiceInMenu(e: Editor, step: MenuStep)
    requires step.choice == "4" && Select(e.accounts, step.selector).Selected?
    ensures Apply(e, step).Stay? && Apply(Apply(e, step).next, step).Stay?
    ensures Apply(Apply(e, step).next, step).next.saves == e.saves + 2
    ensures |Apply(Apply(e, step).next, step).next.accounts| == |e.accounts|
    ensures forall j :: 0 <= j < |e.accounts| ==>
      IsEnabled(Apply(Apply(e, step).next, step).next.accounts[j]) == IsEnabled(e.accounts[j])
  {
  }

  /** Why the menu loop ended. */
  datatype MenuEnd = Exited | BadPort | EndOfInput

  /** The store after the loop, why it ended, and how many steps it consumed. */
  datatype RunResult = RunResult(final: Editor, end: MenuEnd, used: nat)

  /** `main`'s `while True` loop over the steps typed. It ends only at the
      first '5', at an add with a non-numeric port, or when the steps run out;
      each step consumed wrote the file at most once. */
  function Run(e: Editor, script: seq<MenuStep>): (r: RunResult)
    ensures r.used <= |script|
    ensures r.end == EndOfInput ==> r.used == |script|
    ensures r.end != EndOfInput ==> 0 < r.used
    ensures r.end == Exited ==> script[r.used - 1].choice == "5"
    ensures r.end == BadPort ==> script[r.used - 1].choice == "2" && ParsePort(script[r.used - 1].form.port).None?
    ensures forall k :: 0 <= k < r.used - 1 ==> !(script[k].choice == "2" && ParsePort(script[k].form.port).None?)
    ensures forall k :: 0 <= k < r.used - 1 ==> script[k].choice != "5"
    ensures r.end == EndOfInput ==> forall k :: 0 <= k < |script| ==> script[k].choice != "5"
    ensures r.end == EndOfInput ==> forall k :: 0 <= k < |script| ==>
      !(script[k].choice == "2" && ParsePort(script[k].form.port).None?)
    ensures r.final.saves <= e.saves + r.used
    decreases |script|
  {
    if script == [] then RunResult(e, EndOfInput, 0)
    else match Apply(e, script[0])
      case Stay(next) =>
        var rest := Run(next, script[1..]);
        RunResult(rest.final, rest.end, rest.used + 1)
      case Leave => RunResult(e, Exited, 1)
      case Abort => RunResult(e, BadPort, 1)
  }

  /** A step with an unrecognised choice leaves the store as it was: dropping
      it from the script changes nothing but the number of steps consumed. */
  lemma UnknownChoiceSkipped(e: Editor, step: MenuStep, script: seq<MenuStep>)
    requires step.choice !in {"1", "2", "3", "4", "5"}
    ensures Run(e, [step] + script) ==
      RunResult(Run(e, script).final, Run(e, script).end, Run(e, script).used + 1)
  {
  }

  // ---------------------------------------------------------------------
  // The store
  // ---------------------------------------------------------------------

  /** One line of `list_accounts`: the 1-based number, the address and
      server, the status (a record without `enabled` shows as enabled) and
      the description (empty when absent). */
  datatype Row = Row(number: nat, email: string, server: string, enabled: bool, description: string)

  /** The account list a session of the editor works on. Every operation
      reloads `accounts.json`, and every change is written straight back, so
      `accounts` is both the file's content and the list in memory; `saves`
      counts the calls of `save_config`. */
  class AccountStore {
    var accounts: seq<Account>
    var saves: nat

    constructor (initial: seq<Account>)
      ensures accounts == initial && saves == 0
    {
      accounts := initial;
      saves := 0;
    }

    function State(): Editor
      reads this
    {
      Editor(accounts, saves)
    }

    /** `save_config`: the whole list is written back. */
    method Save()
      modifies this
      ensures accounts == old(accounts) && saves == old(saves) + 1
    {
      saves := saves + 1;
    }

    /** `list_accounts`. */
    method ListAccounts() returns (rows: seq<Row>)
      ensures |rows| == |accounts|
      ensures forall i :: 0 <= i < |rows| ==>
        rows[i] == Row(i + 1, accounts[i].email, accounts[i].server,
                       IsEnabled(accounts[i]), accounts[i].description.GetOr(""))
    {
      rows := [];
      for i := 0 to |accounts|
        invariant |rows| == i
        invariant forall j :: 0 <= j < i ==>
          rows[j] == Row(j + 1, accounts[j].email, accounts[j].server,
                         IsEnabled(accounts[j]), accounts[j].description.GetOr(""))
      {
        var acc := accounts[i];
        rows := rows + [Row(i + 1, acc.email, acc.server, acc.enabled.GetOr(true), acc.description.GetOr(""))];
      }
    }

    /** `add_account`: one record at the end, enabled, then one save. A port
        answer `int(...)` refuses leaves the list and the file alone. */
    method AddAccount(form: AddForm) returns (ok: bool)
      modifies this
      ensures ok <==> ParsePort(form.port).Some?
      ensures ok ==> accounts == old(accounts) + [NewAccount(form, ParsePort(form.port).value)]
      ensures ok ==> saves == old(saves) + 1
      ensures !ok ==> accounts == old(accounts) && saves == old(saves)
    {
      var port := ParsePort(form.port);
      if port.None? {
        return false;
      }
      accounts := accounts + [NewAccount(form, port.value)];
      Save();
      return true;
    }

    /** `remove_account`: pop the selected record and save; any other answer
        (or an empty list) changes and saves nothing. */
    method RemoveAccount(answer: string) returns (sel: Selection)
      modifies this
      ensures sel == Select(old(accounts), answer)
      ensures sel.Selected? ==> accounts == RemoveAt(old(accounts), sel.index) && saves == old(saves) + 1
      ensures !sel.Selected? ==> accounts == old(accounts) && saves == old(saves)
    {
      if |accounts| == 0 {
        return NoAccounts;
      }
      var number := ParseInt(answer);
      if number.None? {
        return NotANumber;
      }
      var index := number.value - 1;
      if 0 <= index < |accounts| {
        accounts := accounts[..index] + accounts[index + 1..];
        Save();
        sel := Selected(index);
      } else {
        sel := OutOfRange(number.value);
      }
    }

    /** `toggle_account`: flip the selected record's `enabled` and save; any
        other answer (or an empty list) changes and saves nothing. */
    method ToggleAccount(answer: string) returns (sel: Selection)
      modifies this
      ensures sel == Select(old(accounts), answer)
      ensures sel.Selected? ==> accounts == ToggleAt(old(accounts), sel.index) && saves == old(saves) + 1
      ensures !sel.Selected? ==> accounts == old(accounts) && saves == old(saves)
    {
      if |accounts| == 0 {
        return NoAccounts;
      }
      var number := ParseInt(answer);
      if number.None? {
        return NotANumber;
      }
      var index := number.value - 1;
      if 0 <= index < |accounts| {
        accounts := accounts[index := accounts[index].(enabled := Some(!accounts[index].enabled.GetOr(true)))];
        Save();
        sel := Selected(index);
      } else {
        sel := OutOfRange(number.value);
      }
    }

    /** One pass of `main`'s loop body. */
    method Dispatch(step: MenuStep) returns (reaction: Reaction)
      modifies this
      ensures reaction == Apply(old(State()), step)
      ensures reaction.Stay? ==> State() == reaction.next
      ensures !reaction.Stay? ==> State() == old(State())
    {
      if step.choice == "1" {
        var _ := ListAccounts();
        reaction := Stay(State());
      } else if step.choice == "2" {
        var ok := AddAccount(step.form);
        reaction := if ok then Stay(State()) else Abort;
      } else if step.choice == "3" {
        var _ := RemoveAccount(step.selector);
        reaction := Stay(State());
      } else if step.choice == "4" {
        var _ := ToggleAccount(step.selector);
        reaction := Stay(State());
      } else if step.choice == "5" {
        reaction := Leave;
      } else {
        reaction := Stay(State());
      }
    }

    /** `main`: the menu loop over the steps typed, until '5', an uncaught
        error, or the end of the input. */
    method RunMenu(script: seq<MenuStep>) returns (end: MenuEnd, used: nat)
      modifies this
      ensures Run(old(State()), script) == RunResult(State(), end, used)
    {
      used := 0;
      while used < |script|
        invariant used <= |script|
        invariant Run(old(State()), script) ==
          var rest := Run(State(), script[used..]);
          RunResult(rest.final, rest.end, rest.used + used)
      {
        assert script[used..][0] == script[used] && script[used..][1..] == script[used + 1..];
        var reaction := Dispatch(script[used]);
        used := used + 1;
        if reaction.Leave? {
          return Exited, used;
        } else if reaction.Abort? {
          return BadPort, used;
        }
      }
      return EndOfInput, used;
    }
  }
}
