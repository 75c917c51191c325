/** The launch step that claims the account a game session plays with (ClaimAccount):
    an online session looks its account up by profile name and holds a use-lock on it
    while the game runs; an offline or demo session needs no account. */
module Claim {
  import opened Common
  import AccountRegistry

  /** The parts of the session the step looks at. */
  datatype Session = Session(playableOnline: bool, demo: bool, playerName: string)

  /** How the launch step ended, once it ran. */
  datatype StepOutcome = NotRun | StepSucceeded | StepFailed(reason: string)

  const FailurePrefix: string := "Failed to claim account by profile: "
  const FailureSuffix: string := " was not found."

  /** The failure message naming the player. */
  function NotFoundMessage(playerName: string): (m: string)
    ensures |m| == |FailurePrefix| + |playerName| + |FailureSuffix|
    ensures m[|FailurePrefix|..|FailurePrefix| + |playerName|] == playerName
  {
    var m := FailurePrefix + playerName + FailureSuffix;
    assert m[|FailurePrefix|..|FailurePrefix| + |playerName|] == playerName;
    m
  }

  /** What executeTask does: the lock it leaves held and how the step ends. */
  function Execution(online: bool, account: Option<AccountRegistry.AccountRef>, playerName: string)
    : (r: (Option<AccountRegistry.AccountRef>, StepOutcome))
    ensures r.0.Some? <==> online && account.Some?
    ensures r.0.Some? ==> r.0 == account
    ensures r.1.StepFailed? <==> online && account.None?
    ensures r.1.StepFailed? ==> r.1.reason == NotFoundMessage(playerName)
    ensures r.1 != NotRun
  {
    if online then
      if account.Some? then (account, StepSucceeded) else (None, StepFailed(NotFoundMessage(playerName)))
    else (None, StepSucceeded)
  }

  /** A lock is held only by a succeeded online claim, on the account it found. */
  lemma LockOnlyOnSuccess(online: bool, account: Option<AccountRegistry.AccountRef>, playerName: string)
    ensures var r := Execution(online, account, playerName);
      r.0.Some? ==> r.1 == StepSucceeded && online && r.0 == account
  {
  }

  class ClaimAccount {
    var playerName: string
    var online: bool
    /** The account found by profile name, if any. */
    var account: Option<AccountRegistry.AccountRef>
    /** The account the use-lock is held on, if any. */
    var lock: Option<AccountRegistry.AccountRef>
    var outcome: StepOutcome

    /** The lock is only ever held on the claimed account of an online session. */
    predicate Valid()
      reads this
    {
      (lock.Some? ==> online && lock == account) && (!online ==> account.None?)
    }

    /** Construction decides whether the claim is online and, if so, looks the account up
        by profile name. */
    constructor (session: Session, accounts: AccountRegistry.AccountList)
      ensures Valid()
      ensures playerName == session.playerName && lock.None? && outcome == NotRun
      ensures online <==> session.playableOnline && !session.demo
      ensures online ==>
        var row := AccountRegistry.FindRow(accounts.accounts, AccountRegistry.ByProfileName(session.playerName));
        account == (if row == -1 then None else Some(accounts.accounts[row].account.ref))
    {
      playerName := session.playerName;
      online := false;
      account := None;
      lock := None;
      outcome := NotRun;
      if session.playableOnline && !session.demo {
        online := true;
        var found, a, index := accounts.GetAccountBy(AccountRegistry.ByProfileName(session.playerName));
        if found {
          account := Some(a.value.ref);
        }
      }
    }

    /** executeTask: an online claim with its account takes the lock (dropping any earlier
        one) and succeeds; without its account it fails naming the player; an offline
        claim succeeds and takes nothing. */
    method ExecuteTask()
      modifies this`lock, this`outcome
      requires Valid()
      ensures Valid()
      ensures (lock, outcome) == Execution(online, account, playerName)
    {
      if online {
        if account.Some? {
          lock := account;
          outcome := StepSucceeded;
        } else {
          outcome := StepFailed(NotFoundMessage(playerName));
        }
      } else {
        outcome := StepSucceeded;
      }
    }

    /** finalize releases any held lock. */
    method Finalize()
      modifies this`lock
      requires Valid()
      ensures Valid() && lock.None?
    {
      lock := None;
    }
  }
}
