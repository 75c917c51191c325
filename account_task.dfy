/** An authentication task's state machine (AccountTask::changeState), the runner that
    drives a flow's steps through it, and the defensive parser and printer of error
    replies from the Minecraft services (MojangError). */
module AuthTask {
  import opened Common

  /** AccountTaskState; `Unrecognised` stands for any other value of the enum's
      underlying integer. */
  datatype TaskState =
    | StateCreated
    | StateWorking
    | StateSucceeded
    | StateOffline
    | StateFailedSoft
    | StateFailedMustMigrate
    | StateFailedHard
    | StateFailedGone
    | Unrecognised(code: int)
  {
    /** The five failure states that store their reason. */
    predicate IsFailure() {
      StateOffline? || StateFailedSoft? || StateFailedMustMigrate? || StateFailedHard? || StateFailedGone?
    }
  }

  /** The account states changeState assigns. */
  datatype AccountState = Offline | Working | Online | Errored | MustMigrate | Expired | Gone

  /** The terminal signals of a task. */
  datatype TaskSignal = Succeeded | Failed(reason: string)

  /** getStateMessage: the status text of a state. */
  function StateMessage(s: TaskState): (m: string)
    ensures s.Unrecognised? <==> m == "..."
  {
    match s
    case StateCreated => "Waiting..."
    case StateWorking => "Sending request to auth servers..."
    case StateSucceeded => "Authentication task succeeded."
    case StateOffline => "Failed to contact the authentication server."
    case StateFailedSoft => "Encountered an error during authentication."
    case StateFailedMustMigrate => "Failed to authenticate. The account must be migrated to a Microsoft account to be usable."
    case StateFailedHard => "Failed to authenticate. The session has expired."
    case StateFailedGone => "Failed to authenticate. The account no longer exists."
    case Unrecognised(_) => "..."
  }

  /** The recognised state a status text belongs to; the eight texts have eight different
      lengths, which is how they are told apart here. */
  function StateOfMessage(m: string): Option<TaskState> {
    var candidate :=
      if |m| == 10 then Some(StateCreated)
      else if |m| == 34 then Some(StateWorking)
      else if |m| == 30 then Some(StateSucceeded)
      else if |m| == 44 then Some(StateOffline)
      else if |m| == 43 then Some(StateFailedSoft)
      else if |m| == 89 then Some(StateFailedMustMigrate)
      else if |m| == 48 then Some(StateFailedHard)
      else if |m| == 53 then Some(StateFailedGone)
      else None;
    if candidate.Some? && StateMessage(candidate.value) == m then candidate else None
  }

  /** Each recognised state's status text identifies the state: distinct states never
      share a text. */
  lemma StateMessageIdentifiesState(s: TaskState)
    ensures StateOfMessage(StateMessage(s)) == if s.Unrecognised? then None else Some(s)
  {
    // the eight texts have eight different lengths
    var m := StateMessage(s);
    match s {
      case StateCreated => assert |m| == 10;
      case StateWorking => assert |m| == 34;
      case StateSucceeded => assert |m| == 30;
      case StateOffline => assert |m| == 44;
      case StateFailedSoft => assert |m| == 43;
      case StateFailedMustMigrate => assert |m| == 89;
      case StateFailedHard => assert |m| == 48;
      case StateFailedGone => assert |m| == 53;
      case Unrecognised(_) => assert |m| == 3;
    }
  }

  /** Two recognised states with the same status text are the same state. */
  lemma StateMessageInjective(s: TaskState, t: TaskState)
    requires !s.Unrecognised? && !t.Unrecognised? && StateMessage(s) == StateMessage(t)
    ensures s == t
  {
    StateMessageIdentifiesState(s);
    StateMessageIdentifiesState(t);
  }

  /** The account state a failure state sets. */
  function FailureAccountState(s: TaskState): AccountState
    requires s.IsFailure()
  {
    match s
    case StateOffline => Offline
    case StateFailedSoft => Errored
    case StateFailedMustMigrate => MustMigrate
    case StateFailedHard => Expired
    case StateFailedGone => Gone
  }

  /** The text failed() carries for an unrecognised state. */
  function UnknownStateText(code: int): string {
    "Unknown account task state: " + IntString(code)
  }

  /** What changeState does to the account data and which terminal signal it emits. */
  datatype Transition = Transition(accountState: AccountState, errorString: string, signal: Option<TaskSignal>, continues: bool)

  function ChangeOutcome(s: TaskState, reason: string, account: AccountState, error: string): (t: Transition)
    ensures t.continues <==> s.StateCreated? || s.StateWorking?
    ensures t.continues <==> t.signal.None?
    ensures s.StateCreated? ==> t == Transition(account, "", None, true)
    ensures s.StateWorking? ==> t == Transition(Working, error, None, true)
    ensures s.StateSucceeded? ==> t == Transition(Online, error, Some(Succeeded), false)
    ensures s.IsFailure() ==> t.errorString == reason && t.signal == Some(Failed(reason))
    ensures s.Unrecognised? ==> t == Transition(Errored, error, Some(Failed(UnknownStateText(s.code))), false)
  {
    match s
    case StateCreated => Transition(account, "", None, true)
    case StateWorking => Transition(Working, error, None, true)
    case StateSucceeded => Transition(Online, error, Some(Succeeded), false)
    case Unrecognised(code) => Transition(Errored, error, Some(Failed(UnknownStateText(code))), false)
    case _ => Transition(FailureAccountState(s), reason, Some(Failed(reason)), false)
  }

  /** The failure states map one-to-one onto the account states other than Working and
      Online. */
  lemma FailureMappingIsInjective(s: TaskState, t: TaskState)
    requires s.IsFailure() && t.IsFailure() && FailureAccountState(s) == FailureAccountState(t)
    ensures s == t
  {
  }

  class AccountTask {
    var taskState: TaskState
    var status: string
    /** The account data the account task updates (m_data). */
    var accountState: AccountState
    var errorString: string
    /** The terminal signals emitted so far. */
    var emitted: seq<TaskSignal>

    /** Construction enters the created state, which clears the account's error string. */
    constructor (account: AccountState, error: string)
      ensures taskState == StateCreated && status == StateMessage(StateCreated)
      ensures accountState == account && errorString == "" && emitted == []
    {
      taskState := StateCreated;
      status := StateMessage(StateCreated);
      accountState := account;
      errorString := "";
      emitted := [];
    }

    method ChangeState(newState: TaskState, reason: string) returns (continues: bool)
      modifies this
      ensures var t := ChangeOutcome(newState, reason, old(accountState), old(errorString));
        taskState == newState && status == StateMessage(newState) &&
        accountState == t.accountState && errorString == t.errorString &&
        emitted == old(emitted) + (if t.signal.Some? then [t.signal.value] else []) &&
        continues == t.continues
    {
      taskState := newState;
      status := StateMessage(newState);
      match newState {
        case StateCreated =>
          errorString := "";
          return true;
        case StateWorking =>
          accountState := Working;
          return true;
        case StateSucceeded =>
          accountState := Online;
          emitted := emitted + [Succeeded];
          return false;
        case Unrecognised(code) =>
          accountState := Errored;
          emitted := emitted + [Failed(UnknownStateText(code))];
          return false;
        case StateOffline =>
          errorString, accountState := reason, Offline;
          emitted := emitted + [Failed(reason)];
          return false;
        case StateFailedSoft =>
          errorString, accountState := reason, Errored;
          emitted := emitted + [Failed(reason)];
          return false;
        case StateFailedMustMigrate =>
          errorString, accountState := reason, MustMigrate;
          emitted := emitted + [Failed(reason)];
          return false;
        case StateFailedHard =>
          errorString, accountState := reason, Expired;
          emitted := emitted + [Failed(reason)];
          return false;
        case StateFailedGone =>
          errorString, accountState := reason, Gone;
          emitted := emitted + [Failed(reason)];
          return false;
      }
    }
  }

  // ---------------------------------------------------------------------------------
  // the flow runner

  /** How one step finishes: the state it reports and the reason text. */
  datatype StepResult = StepResult(state: TaskState, reason: string)

  /** The message the runner reports on running out of steps. */
  const AllStepsDone: string := "Finished all authentication steps"

  /** The number of steps the runner executes: it stops after the first step whose
      reported state does not continue the flow. */
  function StepsRun(results: seq<StepResult>): (n: nat)
    ensures n <= |results|
    ensures forall i :: 0 <= i < n - 1 ==> results[i].state.StateCreated? || results[i].state.StateWorking?
    ensures n < |results| ==> n > 0 && !(results[n - 1].state.StateCreated? || results[n - 1].state.StateWorking?)
  {
    if results == [] then 0
    else if results[0].state.StateCreated? || results[0].state.StateWorking? then
      var m := StepsRun(results[1..]);
      if m == |results| - 1 then |results| else 1 + m
    else 1
  }

  /** The account's error string after the first `n` steps all continued: a step that
      reports the created state clears it, a working step leaves it alone. */
  function CarriedError(results: seq<StepResult>, n: nat, error: string): string
    requires n <= |results|
  {
    if exists j :: 0 <= j < n && results[j].state.StateCreated? then "" else error
  }

  /** The runner: every step's reported state goes through changeState, in order, while
      it answers "continue"; when all steps continued, the flow succeeds. Exactly one
      terminal signal is emitted: the stopping step's, or Succeeded. */
  method RunFlow(task: AccountTask, results: seq<StepResult>) returns (executed: nat)
    modifies task
    ensures executed == StepsRun(results)
    ensures var lastFailed := 0 < executed && !(results[executed - 1].state.StateCreated? || results[executed - 1].state.StateWorking?);
      lastFailed ==>
        var r := results[executed - 1];
        var t := ChangeOutcome(r.state, r.reason, old(task.accountState), old(task.errorString));
        task.taskState == r.state && task.emitted == old(task.emitted) + [t.signal.value] &&
        task.accountState == t.accountState &&
        task.errorString == if r.state.IsFailure() then r.reason else CarriedError(results, executed - 1, old(task.errorString))
    ensures var lastFailed := 0 < executed && !(results[executed - 1].state.StateCreated? || results[executed - 1].state.StateWorking?);
      !lastFailed ==>
        task.taskState == StateSucceeded && task.emitted == old(task.emitted) + [Succeeded] &&
        task.accountState == Online && task.errorString == CarriedError(results, executed, old(task.errorString))
  {
    var i := 0;
    while i < |results|
      invariant 0 <= i <= |results|
      invariant forall j :: 0 <= j < i ==> results[j].state.StateCreated? || results[j].state.StateWorking?
      invariant task.emitted == old(task.emitted)
      invariant task.errorString == CarriedError(results, i, old(task.errorString))
    {
      var continues := task.ChangeState(results[i].state, results[i].reason);
      if !continues {
        StepsRunStopsAt(results, i);
        return i + 1;
      }
      i := i + 1;
    }
    StepsRunAllContinue(results);
    var _ := task.ChangeState(StateSucceeded, AllStepsDone);
    return |results|;
  }

  lemma {:induction false} StepsRunStopsAt(results: seq<StepResult>, i: nat)
    requires i < |results| && !(results[i].state.StateCreated? || results[i].state.StateWorking?)
    requires forall j :: 0 <= j < i ==> results[j].state.StateCreated? || results[j].state.StateWorking?
    ensures StepsRun(results) == i + 1
  {
    if i > 0 {
      StepsRunStopsAt(results[1..], i - 1);
    }
  }

  lemma {:induction false} StepsRunAllContinue(results: seq<StepResult>)
    requires forall j :: 0 <= j < |results| ==> results[j].state.StateCreated? || results[j].state.StateWorking?
    ensures StepsRun(results) == |results|
  {
    if results != [] {
      StepsRunAllContinue(results[1..]);
    }
  }

  // ---------------------------------------------------------------------------------
  // MojangError

  /** A JSON value, as far as the parser looks at it. */
  datatype JsonValue = JString(s: string) | JObject(fields: map<string, JsonValue>) | JOther

  /** What the JSON parser makes of the reply body: a parse error text, or a document. */
  datatype ParsedBody = ParseFailed(errorText: string) | ParsedDocument(root: JsonValue)

  /** Null QStrings are `None`. */
  datatype MojangError = MojangError(
    rawError: string,
    networkError: int,
    jsonParsed: bool,
    parseError: string,
    path: Option<string>,
    detailsStatus: Option<string>,
    error: Option<string>,
    errorMessage: Option<string>)

  /** The fields of the root object; a document whose root is not an object has none. */
  function RootFields(root: JsonValue): map<string, JsonValue> {
    if root.JObject? then root.fields else map[]
  }

  /** Parsers::getString: a string value is taken, anything else leaves the field null. */
  function GetString(fields: map<string, JsonValue>, key: string): (r: Option<string>)
    ensures r.Some? <==> key in fields && fields[key].JString?
    ensures r.Some? ==> fields[key] == JString(r.value)
  {
    if key in fields && fields[key].JString? then Some(fields[key].s) else None
  }

  function FromJson(data: string, body: ParsedBody, networkError: int): (e: MojangError)
    ensures e.rawError == data && e.networkError == networkError
    ensures e.jsonParsed <==> body.ParsedDocument?
    ensures !e.jsonParsed ==> e.parseError == body.errorText && e.path.None? && e.detailsStatus.None? && e.error.None? && e.errorMessage.None?
    ensures e.detailsStatus.Some? ==>
      body.ParsedDocument? && "details" in RootFields(body.root) && RootFields(body.root)["details"].JObject? &&
      "status" in RootFields(body.root)["details"].fields &&
      RootFields(body.root)["details"].fields["status"] == JString(e.detailsStatus.value)
    ensures e.jsonParsed ==>
      e.path == GetString(RootFields(body.root), "path") &&
      e.error == GetString(RootFields(body.root), "error") &&
      e.errorMessage == GetString(RootFields(body.root), "errorMessage")
  {
    match body
    case ParseFailed(text) => MojangError(data, networkError, false, text, None, None, None, None)
    case ParsedDocument(root) =>
      var fields := RootFields(root);
      var status := if "details" in fields && fields["details"].JObject? then GetString(fields["details"].fields, "status") else None;
      MojangError(data, networkError, true, "", GetString(fields, "path"), status, GetString(fields, "error"), GetString(fields, "errorMessage"))
  }

  function FieldLine(caption: string, value: Option<string>): string {
    if value.Some? then caption + value.value + "\n" else ""
  }

  function NetworkErrorLine(e: MojangError): string {
    "Network error:" + IntString(e.networkError) + "\n"
  }

  function ToString(e: MojangError): (s: string)
    ensures NetworkErrorLine(e) <= s
  {
    NetworkErrorLine(e) +
    if e.jsonParsed then
      FieldLine("path: ", e.path) + FieldLine("error: ", e.error) +
      FieldLine("errorMessage: ", e.errorMessage) + FieldLine("details.status: ", e.detailsStatus)
    else
      "Mojang error failed to parse with error: " + e.parseError + "\n" + "Raw contents:\n" + e.rawError + "\n"
  }

  /** A parsed reply whose root has a "path" string prints it on the line right after
      the network line. */
  lemma PrintedPathLine(data: string, body: ParsedBody, networkError: int)
    requires body.ParsedDocument? && GetString(RootFields(body.root), "path").Some?
    ensures var e := FromJson(data, body, networkError);
      NetworkErrorLine(e) + "path: " + GetString(RootFields(body.root), "path").value + "\n" <= ToString(e)
  {
    var e := FromJson(data, body, networkError);
    var p := GetString(RootFields(body.root), "path").value;
    var rest := FieldLine("error: ", e.error) + FieldLine("errorMessage: ", e.errorMessage) + FieldLine("details.status: ", e.detailsStatus);
    assert ToString(e) == NetworkErrorLine(e) + ("path: " + p + "\n") + rest;
  }

  /** A parsed reply prints the network line, then one line for each of the string fields
      path, error, errorMessage and details.status that the document holds, in that order. */
  lemma PrintedDocument(data: string, body: ParsedBody, networkError: int)
    requires body.ParsedDocument?
    ensures var fields := RootFields(body.root);
      var details := if "details" in fields && fields["details"].JObject? then fields["details"].fields else map[];
      var e := FromJson(data, body, networkError);
      ToString(e) ==
        NetworkErrorLine(e) + FieldLine("path: ", GetString(fields, "path")) + FieldLine("error: ", GetString(fields, "error")) +
        FieldLine("errorMessage: ", GetString(fields, "errorMessage")) + FieldLine("details.status: ", GetString(details, "status"))
  {
    var fields := RootFields(body.root);
    var e := FromJson(data, body, networkError);
    var lines := [FieldLine("path: ", e.path), FieldLine("error: ", e.error), FieldLine("errorMessage: ", e.errorMessage), FieldLine("details.status: ", e.detailsStatus)];
    assert ToString(e) == NetworkErrorLine(e) + (lines[0] + lines[1] + lines[2] + lines[3]);
  }

  /** A document with none of the four fields prints nothing after the network line. */
  lemma PrintedEmptyDocument(data: string, body: ParsedBody, networkError: int)
    requires body.ParsedDocument? && RootFields(body.root) == map[]
    ensures var e := FromJson(data, body, networkError); ToString(e) == NetworkErrorLine(e)
  {
  }

  /** An unparsable reply prints the parser's message right after the network line and
      ends with the raw body. */
  lemma PrintedUnparsable(data: string, body: ParsedBody, networkError: int)
    requires body.ParseFailed?
    ensures var e := FromJson(data, body, networkError); var s := ToString(e);
      NetworkErrorLine(e) + "Mojang error failed to parse with error: " + body.errorText + "\n" <= s &&
      |data| + 1 <= |s| && s[|s| - |data| - 1..] == data + "\n"
  {
    var e := FromJson(data, body, networkError);
    var mid := "Mojang error failed to parse with error: " + body.errorText + "\n";
    assert ToString(e) == (NetworkErrorLine(e) + mid) + ("Raw contents:\n" + data + "\n");
  }
}
