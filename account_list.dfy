/** The account registry (AccountList): an ordered list of accounts with a synthetic
    placeholder row, a nullable default account, a deduplicated background refresh
    queue served one task at a time, a floor-clamped activity counter, and a
    versioned save/load format.

    Object identity of a MinecraftAccount is an `AccountRef`; the list stores the
    reference together with the account fields the registry reads. The file system,
    Qt signals and the timers are state of the `AccountList` object: `disk` maps a
    path to the list file found there, `events` logs the notifications emitted, and
    a timer is `Some(interval in ms)` once started. */
module AccountRegistry {
  import opened Common

  type AccountRef = nat

  /** The fields of an account that the registry reads. `needsRefresh` is the answer of
      MinecraftAccount::shouldRefresh(). */
  datatype AccountData = AccountData(internalId: string, xid: string, profileName: string, needsRefresh: bool)

  datatype Account = Account(ref: AccountRef, data: AccountData)

  /** A row of the list (AccountList::Entry): the "Add New Account" placeholder carries
      no account, every other row carries exactly one. */
  datatype Entry = Placeholder | AccountEntry(account: Account)

  /** What a row scan compares: the Xbox user id, the profile name, the internal id, the
      object itself, or (for the refresh scheduler) the internal id of an account whose
      refresh() hands out a task, the refs in `startable`. */
  datatype Key =
    | ByXid(xid: string)
    | ByProfileName(profileName: string)
    | ById(internalId: string)
    | ByRef(ref: AccountRef)
    | StartableById(id: string, startable: set<AccountRef>)

  predicate Matches(a: Account, k: Key) {
    match k
    case ByXid(x) => a.data.xid == x
    case ByProfileName(n) => a.data.profileName == n
    case ById(i) => a.data.internalId == i
    case ByRef(r) => a.ref == r
    case StartableById(i, s) => a.data.internalId == i && a.ref in s
  }

  predicate RowMatches(entries: seq<Entry>, i: int, k: Key)
    requires 0 <= i < |entries|
  {
    entries[i].AccountEntry? && Matches(entries[i].account, k)
  }

  /** The first row at or after `from` whose account matches `k`, or -1. */
  function FindRowFrom(entries: seq<Entry>, k: Key, from: nat): (r: int)
    requires from <= |entries|
    ensures r == -1 || from <= r < |entries|
    ensures r == -1 <==> forall i :: from <= i < |entries| ==> !RowMatches(entries, i, k)
    ensures r != -1 ==> RowMatches(entries, r, k) && forall i :: from <= i < r ==> !RowMatches(entries, i, k)
    decreases |entries| - from
  {
    if from == |entries| then -1
    else if RowMatches(entries, from, k) then from
    else FindRowFrom(entries, k, from + 1)
  }

  /** The first row whose account matches `k`, or -1; placeholder rows never match. */
  function FindRow(entries: seq<Entry>, k: Key): (r: int)
    ensures -1 <= r < |entries|
    ensures r == -1 <==> forall i :: 0 <= i < |entries| ==> !RowMatches(entries, i, k)
    ensures r != -1 ==> RowMatches(entries, r, k) && forall i :: 0 <= i < r ==> !RowMatches(entries, i, k)
  {
    FindRowFrom(entries, k, 0)
  }

  /** The accounts of the list in row order, placeholders skipped. */
  function Accounts(entries: seq<Entry>): seq<Account> {
    if entries == [] then []
    else (if entries[0].AccountEntry? then [entries[0].account] else []) + Accounts(entries[1..])
  }

  function Refs(entries: seq<Entry>): set<AccountRef> {
    set e | e in entries && e.AccountEntry? :: e.account.ref
  }

  /** No account object is in the list twice. */
  ghost predicate RefsDistinct(entries: seq<Entry>) {
    forall i, j :: 0 <= i < j < |entries| && entries[i].AccountEntry? && entries[j].AccountEntry? ==>
      entries[i].account.ref != entries[j].account.ref
  }

  /** No two accounts share a non-empty Xbox user id. */
  ghost predicate XidsUnique(entries: seq<Entry>) {
    forall i, j ::
      (0 <= i < j < |entries| && entries[i].AccountEntry? && entries[j].AccountEntry? && entries[i].account.data.xid != "") ==>
        entries[i].account.data.xid != entries[j].account.data.xid
  }

  lemma RefInList(entries: seq<Entry>, r: AccountRef)
    ensures r in Refs(entries) <==> FindRow(entries, ByRef(r)) != -1
  {
    if r in Refs(entries) {
      var e :| e in entries && e.AccountEntry? && e.account.ref == r;
      var i :| 0 <= i < |entries| && entries[i] == e;
      assert RowMatches(entries, i, ByRef(r));
    }
  }

  lemma {:induction false} AccountsAppend(entries: seq<Entry>, e: Entry)
    ensures Accounts(entries + [e]) == Accounts(entries) + (if e.AccountEntry? then [e.account] else [])
  {
    if entries != [] {
      assert (entries + [e])[1..] == entries[1..] + [e];
      AccountsAppend(entries[1..], e);
    }
  }

  lemma {:induction false} AccountsMembers(entries: seq<Entry>, a: Account)
    ensures a in Accounts(entries) <==> AccountEntry(a) in entries
  {
    if entries != [] {
      AccountsMembers(entries[1..], a);
      assert entries == [entries[0]] + entries[1..];
    }
  }

  // ---------------------------------------------------------------------------------
  // addAccount, removeAccount

  /** The list after addAccount(a): unchanged when the object is already listed, the
      existing entry's data replaced when an account with the same Xbox user id is
      listed, otherwise `a` appended. */
  function AddedEntries(entries: seq<Entry>, a: Account): seq<Entry> {
    if FindRow(entries, ByRef(a.ref)) != -1 then entries
    else
      var j := FindRow(entries, ByXid(a.data.xid));
      if j != -1 then entries[j := AccountEntry(Account(entries[j].account.ref, a.data))]
      else entries + [AccountEntry(a)]
  }

  /** The row addAccount returns. For an object already listed it is 0 whatever its row,
      because the loop counter of the presence check is never incremented. */
  function AddedRow(entries: seq<Entry>, a: Account): int {
    if FindRow(entries, ByRef(a.ref)) != -1 then 0
    else
      var j := FindRow(entries, ByXid(a.data.xid));
      if j != -1 then j else |entries|
  }

  /** The three outcomes of addAccount: nothing changes for a listed object (row 0); a
      same-xid account is merged in place into the first account with that xid, keeping
      the count, the row and the listed object; otherwise exactly `a` is appended and the
      new last row is returned. */
  lemma AddAccountOutcome(entries: seq<Entry>, a: Account)
    ensures var r := AddedEntries(entries, a);
      if a.ref in Refs(entries) then r == entries && AddedRow(entries, a) == 0
      else if FindRow(entries, ByXid(a.data.xid)) != -1 then
        var j := AddedRow(entries, a);
        |r| == |entries| && 0 <= j < |r| && entries[j].AccountEntry? && entries[j].account.data.xid == a.data.xid &&
        (forall i :: 0 <= i < j ==> !RowMatches(entries, i, ByXid(a.data.xid))) &&
        r[j] == AccountEntry(Account(entries[j].account.ref, a.data)) &&
        forall i :: 0 <= i < |r| && i != j ==> r[i] == entries[i]
      else r == entries + [AccountEntry(a)] && AddedRow(entries, a) == |entries|
  {
    RefInList(entries, a.ref);
  }

  /** addAccount never lists an object twice nor introduces a second account with the
      same non-empty Xbox user id; no listed object is dropped. */
  lemma AddKeepsListConsistent(entries: seq<Entry>, a: Account)
    requires RefsDistinct(entries) && XidsUnique(entries)
    ensures RefsDistinct(AddedEntries(entries, a)) && XidsUnique(AddedEntries(entries, a))
    ensures Refs(entries) <= Refs(AddedEntries(entries, a)) <= Refs(entries) + {a.ref}
  {
    if FindRow(entries, ByRef(a.ref)) == -1 {
      var j := FindRow(entries, ByXid(a.data.xid));
      if j != -1 {
        assert RowMatches(entries, j, ByXid(a.data.xid));
        ReplaceDataKeepsConsistent(entries, j, a.data);
      } else {
        AppendNewKeepsConsistent(entries, a);
      }
    }
  }

  /** Replacing the data of a listed account by data with the same xid keeps the list
      consistent and its objects unchanged. */
  lemma ReplaceDataKeepsConsistent(entries: seq<Entry>, j: int, d: AccountData)
    requires 0 <= j < |entries| && entries[j].AccountEntry? && entries[j].account.data.xid == d.xid
    requires RefsDistinct(entries) && XidsUnique(entries)
    ensures var r := entries[j := AccountEntry(Account(entries[j].account.ref, d))];
      RefsDistinct(r) && XidsUnique(r) && Refs(r) == Refs(entries)
  {
    var r := entries[j := AccountEntry(Account(entries[j].account.ref, d))];
    forall x | x in Refs(r) ensures x in Refs(entries) {
      var e :| e in r && e.AccountEntry? && e.account.ref == x;
      var i :| 0 <= i < |r| && r[i] == e;
      assert entries[i] in entries;
    }
    forall x | x in Refs(entries) ensures x in Refs(r) {
      var e :| e in entries && e.AccountEntry? && e.account.ref == x;
      var i :| 0 <= i < |entries| && entries[i] == e;
      assert r[i] in r;
    }
  }

  /** Appending an account whose object and xid match no row keeps the list consistent
      and adds exactly its object. */
  lemma AppendNewKeepsConsistent(entries: seq<Entry>, a: Account)
    requires RefsDistinct(entries) && XidsUnique(entries)
    requires FindRow(entries, ByRef(a.ref)) == -1 && FindRow(entries, ByXid(a.data.xid)) == -1
    ensures var r := entries + [AccountEntry(a)];
      RefsDistinct(r) && XidsUnique(r) && Refs(r) == Refs(entries) + {a.ref}
  {
    var r := entries + [AccountEntry(a)];
    forall i | 0 <= i < |entries| && entries[i].AccountEntry?
      ensures entries[i].account.ref != a.ref && entries[i].account.data.xid != a.data.xid
    {
      assert !RowMatches(entries, i, ByRef(a.ref));
      assert !RowMatches(entries, i, ByXid(a.data.xid));
    }
    assert r[|entries|] in r;
    forall x | x in Refs(r) ensures x in Refs(entries) + {a.ref} {
      var e :| e in r && e.AccountEntry? && e.account.ref == x;
      var i :| 0 <= i < |r| && r[i] == e;
      if i < |entries| { assert entries[i] in entries; }
    }
    forall x | x in Refs(entries) ensures x in Refs(r) {
      var e :| e in entries && e.AccountEntry? && e.account.ref == x;
      var i :| 0 <= i < |entries| && entries[i] == e;
      assert r[i] in r;
    }
  }

  /** The list after removeAccount(id): the first account with that internal id taken out,
      unchanged when there is none. */
  function RemovedEntries(entries: seq<Entry>, id: string): seq<Entry> {
    var j := FindRow(entries, ById(id));
    if j == -1 then entries else entries[..j] + entries[j + 1..]
  }

  /** Deleting one row keeps the list consistent and drops exactly that row's object. */
  lemma DeleteRowKeepsConsistent(entries: seq<Entry>, j: int)
    requires 0 <= j < |entries| && entries[j].AccountEntry?
    requires RefsDistinct(entries) && XidsUnique(entries)
    ensures var r := entries[..j] + entries[j + 1..];
      RefsDistinct(r) && XidsUnique(r) && Refs(r) == Refs(entries) - {entries[j].account.ref}
  {
    var r := entries[..j] + entries[j + 1..];
    assert forall i :: 0 <= i < |r| ==> r[i] == entries[if i < j then i else i + 1];
    DeleteRowRefs(entries, j);
  }

  /** The objects left after deleting row `j` of a list without repeated objects. */
  lemma DeleteRowRefs(entries: seq<Entry>, j: int)
    requires 0 <= j < |entries| && entries[j].AccountEntry? && RefsDistinct(entries)
    ensures Refs(entries[..j] + entries[j + 1..]) == Refs(entries) - {entries[j].account.ref}
  {
    var r := entries[..j] + entries[j + 1..];
    forall x | x in Refs(r) ensures x in Refs(entries) - {entries[j].account.ref} {
      var e :| e in r && e.AccountEntry? && e.account.ref == x;
      var i :| 0 <= i < |r| && r[i] == e;
      var k := if i < j then i else i + 1;
      assert r[i] == entries[k];
      assert entries[k] in entries && k != j;
    }
    forall x | x in Refs(entries) - {entries[j].account.ref} ensures x in Refs(r) {
      var e :| e in entries && e.AccountEntry? && e.account.ref == x;
      var i :| 0 <= i < |entries| && entries[i] == e;
      assert i != j;
      var k := if i < j then i else i - 1;
      assert r[k] == e;
      assert r[k] in r;
    }
  }

  /** removeAccount takes exactly the found object out of the list and keeps the rest
      consistent; no other object disappears. */
  lemma RemoveTakesOutOneAccount(entries: seq<Entry>, id: string)
    requires RefsDistinct(entries) && XidsUnique(entries)
    ensures var r := RemovedEntries(entries, id); var j := FindRow(entries, ById(id));
      RefsDistinct(r) && XidsUnique(r) &&
      (j == -1 ==> r == entries) &&
      (j != -1 ==>
        |r| == |entries| - 1 && entries[j].account.data.internalId == id &&
        Refs(r) == Refs(entries) - {entries[j].account.ref})
  {
    var j := FindRow(entries, ById(id));
    if j != -1 {
      DeleteRowKeepsConsistent(entries, j);
    }
  }

  // ---------------------------------------------------------------------------------
  // the default account

  /** The default after setDefaultAccount(requested): cleared by a null request, moved to
      a requested account only when that account is in the list, otherwise kept. */
  function NewDefault(entries: seq<Entry>, current: Option<AccountRef>, requested: Option<AccountRef>): Option<AccountRef> {
    if requested.None? then None
    else if FindRow(entries, ByRef(requested.value)) != -1 then requested
    else current
  }

  /** The row of `r`'s entry, -1 when `r` is null or not listed. */
  function RowOf(entries: seq<Entry>, r: Option<AccountRef>): int {
    if r.None? then -1 else FindRow(entries, ByRef(r.value))
  }

  /** The default is always a listed account or null, and a requested listed account
      always becomes the default. */
  lemma NewDefaultIsListed(entries: seq<Entry>, current: Option<AccountRef>, requested: Option<AccountRef>)
    requires current.Some? ==> current.value in Refs(entries)
    ensures var d := NewDefault(entries, current, requested);
      (d.Some? ==> d.value in Refs(entries)) &&
      (requested.Some? && requested.value in Refs(entries) ==> d == requested) &&
      (requested.Some? && requested.value !in Refs(entries) ==> d == current)
  {
    if requested.Some? { RefInList(entries, requested.value); }
  }

  /** The rows setDefaultAccount reports as changed: the old default's row alone when the
      default is cleared, else the old and the new default's rows (-1 for none). */
  function DefaultChangeRows(entries: seq<Entry>, current: Option<AccountRef>, requested: Option<AccountRef>): seq<int> {
    if requested.None? && current.Some? then [RowOf(entries, current)]
    else [RowOf(entries, current), RowOf(entries, NewDefault(entries, current, requested))]
  }

  /** Every reported row holds the account it reports about. */
  lemma DefaultChangeRowsHoldAccounts(entries: seq<Entry>, current: Option<AccountRef>, requested: Option<AccountRef>)
    requires current.Some? ==> current.value in Refs(entries)
    ensures var rows := DefaultChangeRows(entries, current, requested);
      var d := NewDefault(entries, current, requested);
      (current.Some? ==> 0 <= rows[0] < |entries| && entries[rows[0]] .AccountEntry? && entries[rows[0]].account.ref == current.value) &&
      (|rows| == 2 && d.Some? ==> 0 <= rows[1] < |entries| && entries[rows[1]].AccountEntry? && entries[rows[1]].account.ref == d.value)
  {
    if current.Some? { RefInList(entries, current.value); }
    NewDefaultIsListed(entries, current, requested);
    var d := NewDefault(entries, current, requested);
    if d.Some? { RefInList(entries, d.value); }
  }

  /** The number of account entries before row `row` (the counter the else branch of
      setDefaultAccount keeps, which skips the placeholder row). */
  function AccountsBefore(entries: seq<Entry>, row: int): nat
    requires -1 <= row <= |entries|
  {
    if row <= 0 then 0
    else AccountsBefore(entries, row - 1) + (if entries[row - 1].AccountEntry? then 1 else 0)
  }

  /** The rows the else branch of setDefaultAccount reports as written: it counts only
      account entries, so each row is the account's position among accounts. */
  function DefaultChangeRowsAsWritten(entries: seq<Entry>, current: Option<AccountRef>, requested: Option<AccountRef>): seq<int> {
    if requested.None? && current.Some? then [RowOf(entries, current)]
    else
      var c := RowOf(entries, current);
      var n := RowOf(entries, NewDefault(entries, current, requested));
      [if c == -1 then -1 else AccountsBefore(entries, c), if n == -1 then -1 else AccountsBefore(entries, n)]
  }

  /** With the placeholder as the first row, switching the default to the first account
      reports row 0, the placeholder, instead of the account's row 1. */
  lemma DefaultRowsAsWrittenMisnumbered()
    ensures var a := Account(7, AccountData("id", "xid", "Steve", false));
      var entries := [Placeholder, AccountEntry(a)];
      DefaultChangeRowsAsWritten(entries, None, Some(7)) == [-1, 0] &&
      DefaultChangeRows(entries, None, Some(7)) == [-1, 1] &&
      entries[0] == Placeholder
  {
    var a := Account(7, AccountData("id", "xid", "Steve", false));
    var entries := [Placeholder, AccountEntry(a)];
    assert RowMatches(entries, 1, ByRef(7));
    assert !RowMatches(entries, 0, ByRef(7));
    assert FindRow(entries, ByRef(7)) == 1;
  }

  /** The as-written numbering is right exactly when no placeholder precedes the row. */
  lemma {:induction false} AccountsBeforeIsRow(entries: seq<Entry>, row: int)
    requires 0 <= row <= |entries|
    ensures AccountsBefore(entries, row) == row <==> forall i :: 0 <= i < row ==> entries[i].AccountEntry?
    ensures AccountsBefore(entries, row) <= row
  {
    if row > 0 {
      AccountsBeforeIsRow(entries, row - 1);
    }
  }

  // ---------------------------------------------------------------------------------
  // the activity counter (32-bit unsigned)

  const ActivityModulus: nat := 0x1_0000_0000

  /** beginActivity: increment with 32-bit wrap-around. */
  function ActivityBegun(count: nat): (c: nat)
    requires count < ActivityModulus
    ensures c < ActivityModulus
    ensures count < ActivityModulus - 1 ==> c == count + 1
  {
    (count + 1) % ActivityModulus
  }

  /** endActivity: decrement, refused (kept at zero) at zero. */
  function ActivityEnded(count: nat): (c: nat)
    ensures count == 0 ==> c == 0
    ensures count > 0 ==> c + 1 == count
  {
    if count == 0 then 0 else count - 1
  }

  /** A matched begin/end pair restores the count, except at the wrap-around point; an
      unmatched end never drives the count below zero. */
  lemma EndUndoesBegin(count: nat)
    requires count < ActivityModulus
    ensures ActivityEnded(ActivityBegun(count)) == (if count == ActivityModulus - 1 then 0 else count)
    ensures ActivityBegun(ActivityEnded(0)) == 1
  {
  }

  // ---------------------------------------------------------------------------------
  // the refresh queue

  /** requestRefresh's queue: the id at the front, its first earlier occurrence removed. */
  function MovedToFront(q: seq<string>, id: string): seq<string> {
    [id] + RemoveFirst(q, id)
  }

  /** queueRefresh's queue: the id appended unless it is already queued. */
  function QueuedOnce(q: seq<string>, id: string): seq<string> {
    if id in q then q else q + [id]
  }

  /** requestRefresh puts the id first, keeps one occurrence of it out of those queued (at
      least one), leaves every other id's count alone, and keeps the order of the rest. */
  lemma MovedToFrontProperties(q: seq<string>, id: string)
    ensures var r := MovedToFront(q, id);
      r[0] == id &&
      Count(r, id) == (if id in q then Count(q, id) else 1) &&
      (forall y :: y != id ==> Count(r, y) == Count(q, y)) &&
      (id !in q ==> r[1..] == q) &&
      (id in q ==> exists k :: 0 <= k < |q| && q[k] == id && r[1..] == q[..k] + q[k + 1..])
  {
    var r := MovedToFront(q, id);
    assert r[1..] == RemoveFirst(q, id);
    forall y ensures Count(r, y) == (if y == id then 1 else 0) + Count(RemoveFirst(q, id), y) {
      assert r[0] == id;
    }
    forall y ensures Count(RemoveFirst(q, id), y) == if id == y && id in q then Count(q, y) - 1 else Count(q, y) {
      RemoveFirstCount(q, id, y);
    }
    if id in q { RemoveFirstIsDeletion(q, id); }
  }

  /** queueRefresh never duplicates an id and is idempotent. */
  lemma QueuedOnceProperties(q: seq<string>, id: string)
    ensures var r := QueuedOnce(q, id);
      id in r && Count(r, id) == (if id in q then Count(q, id) else 1) &&
      q <= r && QueuedOnce(r, id) == r
  {
    if id !in q {
      CountAppend(q, id, id);
      assert Count(q, id) == 0;
    }
  }

  /** An account fillQueue queues through queueRefresh: listed, not the default, and due
      for a refresh. */
  predicate Eligible(entries: seq<Entry>, i: int, def: Option<AccountRef>)
    requires 0 <= i < |entries|
  {
    entries[i].AccountEntry? && Some(entries[i].account.ref) != def && entries[i].account.data.needsRefresh
  }

  function EligibleIds(entries: seq<Entry>, def: Option<AccountRef>): set<string> {
    set i | 0 <= i < |entries| && Eligible(entries, i, def) :: entries[i].account.data.internalId
  }

  /** The queue after fillQueue's loop over rows `from` onwards. */
  function QueueOthers(q: seq<string>, entries: seq<Entry>, def: Option<AccountRef>, from: nat): seq<string>
    requires from <= |entries|
    decreases |entries| - from
  {
    if from == |entries| then q
    else
      var q' := if Eligible(entries, from, def) then QueuedOnce(q, entries[from].account.data.internalId) else q;
      QueueOthers(q', entries, def, from + 1)
  }

  /** The default account's data, when the default is listed. */
  function DefaultData(entries: seq<Entry>, def: Option<AccountRef>): Option<AccountData> {
    var r := RowOf(entries, def);
    if r == -1 then None else Some(entries[r].account.data)
  }

  /** fillQueue's queue before its loop: the default's id pushed (without deduplication)
      when the default is due for a refresh. */
  function QueueDefault(q: seq<string>, entries: seq<Entry>, def: Option<AccountRef>): seq<string> {
    var d := DefaultData(entries, def);
    if d.Some? && d.value.needsRefresh then q + [d.value.internalId] else q
  }

  function FilledQueue(q: seq<string>, entries: seq<Entry>, def: Option<AccountRef>): seq<string> {
    QueueOthers(QueueDefault(q, entries, def), entries, def, 0)
  }

  lemma {:induction false} QueueOthersProperties(q: seq<string>, entries: seq<Entry>, def: Option<AccountRef>, from: nat)
    requires from <= |entries|
    ensures var r := QueueOthers(q, entries, def, from);
      q <= r &&
      (forall i :: from <= i < |entries| && Eligible(entries, i, def) ==> entries[i].account.data.internalId in r) &&
      (forall k :: |q| <= k < |r| ==> r[k] !in q && r[k] in EligibleIds(entries, def)) &&
      (forall k, l :: |q| <= k < l < |r| ==> r[k] != r[l])
    decreases |entries| - from
  {
    if from < |entries| {
      var q' := if Eligible(entries, from, def) then QueuedOnce(q, entries[from].account.data.internalId) else q;
      QueueOthersProperties(q', entries, def, from + 1);
      var r := QueueOthers(q, entries, def, from);
      assert r == QueueOthers(q', entries, def, from + 1);
      if Eligible(entries, from, def) {
        var id := entries[from].account.data.internalId;
        assert id in EligibleIds(entries, def);
        assert q <= q';
        if id !in q {
          assert q' == q + [id];
          assert id in r by { assert r[|q|] == q'[|q|]; }
          forall k, l | |q| <= k < l < |r| ensures r[k] != r[l] {
            if k == |q| {
              assert r[k] == id;
              assert r[l] !in q';
              assert id in q' by { assert q'[|q|] == id; }
            }
          }
          forall k | |q| <= k < |r| ensures r[k] !in q {
            if k == |q| { assert r[k] == id; }
            else { assert r[k] !in q'; }
          }
        }
      }
    }
  }

  /** fillQueue keeps what was queued in front, queues the default first when it is due
      (a plain push, so it may end up queued twice), then queues each other account that is
      due exactly once, skipping ids already queued; nothing else is queued. */
  lemma FilledQueueProperties(q: seq<string>, entries: seq<Entry>, def: Option<AccountRef>)
    ensures var r := FilledQueue(q, entries, def); var q0 := QueueDefault(q, entries, def);
      q <= q0 <= r &&
      (var d := DefaultData(entries, def); d.Some? && d.value.needsRefresh ==> r[|q|] == d.value.internalId) &&
      (forall i :: 0 <= i < |entries| && Eligible(entries, i, def) ==> entries[i].account.data.internalId in r) &&
      (forall k :: |q0| <= k < |r| ==> r[k] !in q0 && r[k] in EligibleIds(entries, def)) &&
      (forall k, l :: |q0| <= k < l < |r| ==> r[k] != r[l])
  {
    var q0 := QueueDefault(q, entries, def);
    QueueOthersProperties(q0, entries, def, 0);
    var d := DefaultData(entries, def);
    if d.Some? && d.value.needsRefresh {
      assert FilledQueue(q, entries, def)[|q|] == q0[|q|];
    }
  }

  /** What tryNext leaves behind: the rest of the queue, the current task's account, and
      whether a task was started. */
  datatype Schedule = Schedule(queue: seq<string>, task: Option<AccountRef>, started: bool)

  /** tryNext: pop ids until one names an account whose refresh() hands out a task. Every
      matching account visited replaces the current task, with null when it hands out none. */
  function NextTask(q: seq<string>, entries: seq<Entry>, startable: set<AccountRef>, task: Option<AccountRef>): (s: Schedule)
    ensures |s.queue| <= |q|
    decreases |q|
  {
    if q == [] then Schedule([], task, false)
    else
      var r := FindRow(entries, StartableById(q[0], startable));
      if r != -1 then Schedule(q[1..], Some(entries[r].account.ref), true)
      else NextTask(q[1..], entries, startable, if FindRow(entries, ById(q[0])) != -1 then None else task)
  }

  /** tryNext leaves a suffix of the queue, empty when nothing started; a start is made
      by the first account, among those with the last popped id, whose refresh() hands
      out a task. */
  lemma {:induction false} NextTaskStarts(q: seq<string>, entries: seq<Entry>, startable: set<AccountRef>, task: Option<AccountRef>)
    ensures var s := NextTask(q, entries, startable, task);
      s.queue == q[|q| - |s.queue|..] &&
      (!s.started ==> s.queue == []) &&
      (s.started ==> (|s.queue| < |q| &&
        var r := FindRow(entries, StartableById(q[|q| - |s.queue| - 1], startable));
        r != -1 && s.task == Some(entries[r].account.ref) && entries[r].account.ref in startable))
    decreases |q|
  {
    if q != [] {
      var r := FindRow(entries, StartableById(q[0], startable));
      if r == -1 {
        var t := if FindRow(entries, ById(q[0])) != -1 then None else task;
        NextTaskStarts(q[1..], entries, startable, t);
        NextTaskSkips(q, entries, startable, task);
        var s := NextTask(q[1..], entries, startable, t);
        assert q[1..][|q[1..]| - |s.queue|..] == q[|q| - |s.queue|..];
        if s.started {
          assert q[1..][|q[1..]| - |s.queue| - 1] == q[|q| - |s.queue| - 1];
        }
      } else {
        assert RowMatches(entries, r, StartableById(q[0], startable));
      }
    }
  }

  /** The ids tryNext pops without starting anything name no account whose refresh()
      hands out a task, and when none of them names any account the account task stays as it was. */
  lemma {:induction false} NextTaskPassesOver(q: seq<string>, entries: seq<Entry>, startable: set<AccountRef>, task: Option<AccountRef>)
    ensures var s := NextTask(q, entries, startable, task);
      (!s.started && (forall k :: 0 <= k < |q| ==> FindRow(entries, ById(q[k])) == -1) ==> s.task == task) &&
      forall k :: 0 <= k < |q| - |s.queue| - (if s.started then 1 else 0) ==>
        FindRow(entries, StartableById(q[k], startable)) == -1
    decreases |q|
  {
    if q != [] && FindRow(entries, StartableById(q[0], startable)) == -1 {
      var t := if FindRow(entries, ById(q[0])) != -1 then None else task;
      NextTaskPassesOver(q[1..], entries, startable, t);
      NextTaskSkips(q, entries, startable, task);
      var s := NextTask(q, entries, startable, task);
      forall k | 0 <= k < |q| - |s.queue| - (if s.started then 1 else 0)
        ensures FindRow(entries, StartableById(q[k], startable)) == -1
      {
        if k > 0 {
          assert q[k] == q[1..][k - 1];
        }
      }
      if !s.started && (forall k :: 0 <= k < |q| ==> FindRow(entries, ById(q[k])) == -1) {
        assert FindRow(entries, ById(q[0])) == -1;
        assert forall k :: 0 <= k < |q[1..]| ==> q[1..][k] == q[k + 1];
      }
    }
  }

  /** A queued id none of whose accounts hands out a task is dropped, leaving the current
      task cleared when the id names some account. */
  lemma NextTaskSkips(q: seq<string>, entries: seq<Entry>, startable: set<AccountRef>, task: Option<AccountRef>)
    requires |q| > 0 && FindRow(entries, StartableById(q[0], startable)) == -1
    ensures NextTask(q, entries, startable, task) ==
      NextTask(q[1..], entries, startable, if FindRow(entries, ById(q[0])) != -1 then None else task)
  {
  }

  /** A refresh request made while the scheduler is idle starts that account first when its
      refresh() hands out a task, and leaves the rest of the queue for later. */
  lemma RequestedAccountServedFirst(q: seq<string>, entries: seq<Entry>, startable: set<AccountRef>, task: Option<AccountRef>, id: string)
    requires FindRow(entries, StartableById(id, startable)) != -1
    ensures var s := NextTask(MovedToFront(q, id), entries, startable, task);
      s.started && s.queue == RemoveFirst(q, id) &&
      s.task == Some(entries[FindRow(entries, StartableById(id, startable))].account.ref)
  {
    assert MovedToFront(q, id)[1..] == RemoveFirst(q, id);
  }

  // ---------------------------------------------------------------------------------
  // the list file

  /** One element of the "accounts" array as MinecraftAccount::loadFromJsonV3 sees it:
      an account (with its "active" flag) or something it rejects. */
  datatype AccountJson = AccountJson(data: AccountData, active: bool) | MalformedAccount

  /** The root object: "formatVersion" read as an integer and the "accounts" array. */
  datatype ListDocument = ListDocument(formatVersion: int, accounts: seq<AccountJson>)

  /** What reading a path yields: a file that cannot be opened, one that is not JSON, one
      whose root is not an object, or a document. */
  datatype ListFile = Unreadable | NotJson | NotObject | Document(doc: ListDocument)

  const FormatVersion: int := 3
  const OldListFileName: string := "accounts-old.json"

  /** The "accounts" array saveList writes: one object per account in row order, with
      "active" set only on the default. */
  function SavedAccounts(entries: seq<Entry>, def: Option<AccountRef>): seq<AccountJson> {
    if entries == [] then []
    else
      (if entries[0].AccountEntry? then [AccountJson(entries[0].account.data, Some(entries[0].account.ref) == def)] else []) +
      SavedAccounts(entries[1..], def)
  }

  function SaveDocument(entries: seq<Entry>, def: Option<AccountRef>): ListDocument {
    ListDocument(FormatVersion, SavedAccounts(entries, def))
  }

  /** The saved array lists the accounts in row order, each flagged active exactly when
      it is the default. */
  lemma {:induction false} SavedAccountsShape(entries: seq<Entry>, def: Option<AccountRef>)
    ensures var s := SavedAccounts(entries, def); var accs := Accounts(entries);
      |s| == |accs| && forall k :: 0 <= k < |s| ==> s[k] == AccountJson(accs[k].data, Some(accs[k].ref) == def)
  {
    if entries != [] {
      SavedAccountsShape(entries[1..], def);
      var s, rest := SavedAccounts(entries, def), SavedAccounts(entries[1..], def);
      var accs, accsRest := Accounts(entries), Accounts(entries[1..]);
      if entries[0].AccountEntry? {
        var a := entries[0].account;
        assert s == [AccountJson(a.data, Some(a.ref) == def)] + rest;
        assert accs == [a] + accsRest;
        forall k | 1 <= k < |s| ensures s[k] == AccountJson(accs[k].data, Some(accs[k].ref) == def) {
          assert s[k] == rest[k - 1] && accs[k] == accsRest[k - 1];
        }
      } else {
        assert s == rest && accs == accsRest;
      }
    }
  }

  /** The registry's list and default while loadV3 runs. */
  datatype Loaded = Loaded(entries: seq<Entry>, default: Option<AccountRef>)

  /** loadV3's treatment of one array element, built as the object `newRef`: rejected
      elements and accounts whose non-empty xid is already listed are skipped; others
      are appended, and become the default when flagged active. */
  function LoadOne(st: Loaded, j: AccountJson, newRef: AccountRef): Loaded {
    match j
    case MalformedAccount => st
    case AccountJson(d, active) =>
      if d.xid != "" && FindRow(st.entries, ByXid(d.xid)) != -1 then st
      else Loaded(st.entries + [AccountEntry(Account(newRef, d))], if active then Some(newRef) else st.default)
  }

  function LoadAccounts(st: Loaded, js: seq<AccountJson>, newRefs: seq<AccountRef>): Loaded
    requires |js| <= |newRefs|
    decreases |js|
  {
    if js == [] then st else LoadAccounts(LoadOne(st, js[0], newRefs[0]), js[1..], newRefs[1..])
  }

  /** The objects loadV3 creates are new: distinct from each other and from the listed ones. */
  ghost predicate FreshFor(newRefs: seq<AccountRef>, entries: seq<Entry>) {
    (forall i, j :: 0 <= i < j < |newRefs| ==> newRefs[i] != newRefs[j]) &&
    (forall i :: 0 <= i < |newRefs| ==> newRefs[i] !in Refs(entries))
  }

  /** The registry's consistency: objects listed once, non-empty xids unique, and the
      default listed or null. */
  ghost predicate Consistent(st: Loaded) {
    RefsDistinct(st.entries) && XidsUnique(st.entries) &&
    (st.default.Some? ==> st.default.value in Refs(st.entries))
  }

  /** Appending a new object whose non-empty xid is not listed keeps the list consistent. */
  lemma AppendKeepsConsistent(entries: seq<Entry>, a: Account)
    requires RefsDistinct(entries) && XidsUnique(entries) && a.ref !in Refs(entries)
    requires a.data.xid == "" || FindRow(entries, ByXid(a.data.xid)) == -1
    ensures RefsDistinct(entries + [AccountEntry(a)]) && XidsUnique(entries + [AccountEntry(a)])
    ensures Refs(entries + [AccountEntry(a)]) == Refs(entries) + {a.ref}
  {
    var r := entries + [AccountEntry(a)];
    forall i | 0 <= i < |entries| && entries[i].AccountEntry?
      ensures entries[i].account.ref != a.ref
      ensures entries[i].account.data.xid != "" ==> entries[i].account.data.xid != a.data.xid
    {
      assert entries[i] in entries;
      if a.data.xid != "" { assert !RowMatches(entries, i, ByXid(a.data.xid)); }
    }
    assert r[|entries|] in r;
    forall x | x in Refs(r) ensures x in Refs(entries) + {a.ref} {
      var e :| e in r && e.AccountEntry? && e.account.ref == x;
      var i :| 0 <= i < |r| && r[i] == e;
      if i < |entries| { assert entries[i] in entries; }
    }
    forall x | x in Refs(entries) ensures x in Refs(r) {
      var e :| e in entries && e.AccountEntry? && e.account.ref == x;
      var i :| 0 <= i < |entries| && entries[i] == e;
      assert r[i] in r;
    }
  }

  lemma LoadOneKeepsConsistent(st: Loaded, j: AccountJson, newRef: AccountRef)
    requires Consistent(st) && newRef !in Refs(st.entries)
    ensures Consistent(LoadOne(st, j, newRef))
    ensures Refs(LoadOne(st, j, newRef).entries) <= Refs(st.entries) + {newRef}
    ensures st.entries <= LoadOne(st, j, newRef).entries
  {
    if j.AccountJson? && !(j.data.xid != "" && FindRow(st.entries, ByXid(j.data.xid)) != -1) {
      AppendKeepsConsistent(st.entries, Account(newRef, j.data));
    }
  }

  /** loadV3 keeps the registry consistent whatever the file holds: duplicated xids in
      the file are dropped and the default is one of the listed accounts. */
  lemma {:induction false} LoadKeepsConsistent(st: Loaded, js: seq<AccountJson>, newRefs: seq<AccountRef>)
    requires |js| <= |newRefs| && Consistent(st) && FreshFor(newRefs, st.entries)
    ensures Consistent(LoadAccounts(st, js, newRefs))
    ensures st.entries <= LoadAccounts(st, js, newRefs).entries
    decreases |js|
  {
    if js != [] {
      var st' := LoadOne(st, js[0], newRefs[0]);
      LoadOneKeepsConsistent(st, js[0], newRefs[0]);
      assert FreshFor(newRefs[1..], st'.entries);
      LoadKeepsConsistent(st', js[1..], newRefs[1..]);
    }
  }

  /** The accounts loadV3 builds from an array none of whose elements it skips. */
  function Rebuilt(js: seq<AccountJson>, newRefs: seq<AccountRef>): seq<Entry>
    requires |js| <= |newRefs|
    decreases |js|
  {
    if js == [] then []
    else
      (if js[0].AccountJson? then [AccountEntry(Account(newRefs[0], js[0].data))] else []) +
      Rebuilt(js[1..], newRefs[1..])
  }

  /** The default after loading: the last element flagged active, else the old default. */
  function LastActive(js: seq<AccountJson>, newRefs: seq<AccountRef>, def: Option<AccountRef>): Option<AccountRef>
    requires |js| <= |newRefs|
    decreases |js|
  {
    if js == [] then def
    else LastActive(js[1..], newRefs[1..], if js[0].AccountJson? && js[0].active then Some(newRefs[0]) else def)
  }

  function JsonDatas(js: seq<AccountJson>): seq<AccountData>
    requires forall k :: 0 <= k < |js| ==> js[k].AccountJson?
  {
    seq(|js|, k requires 0 <= k < |js| => js[k].data)
  }

  function AccountDatas(accs: seq<Account>): seq<AccountData> {
    seq(|accs|, k requires 0 <= k < |accs| => accs[k].data)
  }

  /** The data of every listed account is among the data of the accounts in row order. */
  lemma ListedAccountData(entries: seq<Entry>, i: int)
    requires 0 <= i < |entries| && entries[i].AccountEntry?
    ensures exists p :: 0 <= p < |Accounts(entries)| && AccountDatas(Accounts(entries))[p] == entries[i].account.data
  {
    var accs := Accounts(entries);
    AccountsMembers(entries, entries[i].account);
    assert entries[i] in entries;
    var p :| 0 <= p < |accs| && accs[p] == entries[i].account;
    assert AccountDatas(accs)[p] == accs[p].data;
  }

  ghost predicate XidsUniqueIn(ds: seq<AccountData>) {
    forall i, j :: 0 <= i < j < |ds| && ds[i].xid != "" ==> ds[i].xid != ds[j].xid
  }

  /** In a sequence with unique non-empty xids, the element after a prefix shares its
      xid with nothing in the prefix. */
  lemma XidsUniqueAfter(ds1: seq<AccountData>, ds2: seq<AccountData>, xid: string)
    requires XidsUniqueIn(ds1 + ds2) && |ds2| > 0 && ds2[0].xid == xid && xid != ""
    ensures forall p :: 0 <= p < |ds1| ==> ds1[p].xid != xid
  {
    var ds := ds1 + ds2;
    forall p | 0 <= p < |ds1| ensures ds1[p].xid != xid {
      assert ds[p] == ds1[p] && ds[|ds1|] == ds2[0];
    }
  }

  /** An xid that no account's data carries matches no row. */
  lemma XidNotAmongAccounts(entries: seq<Entry>, xid: string)
    requires forall p :: 0 <= p < |AccountDatas(Accounts(entries))| ==> AccountDatas(Accounts(entries))[p].xid != xid
    ensures forall i :: 0 <= i < |entries| ==> !RowMatches(entries, i, ByXid(xid))
  {
    forall i | 0 <= i < |entries| && entries[i].AccountEntry? ensures entries[i].account.data.xid != xid {
      ListedAccountData(entries, i);
    }
  }

  /** The first element of an array whose xids are new and unique matches no listed
      account by xid. */
  lemma FirstXidNotListed(entries: seq<Entry>, js: seq<AccountJson>)
    requires |js| > 0 && forall k :: 0 <= k < |js| ==> js[k].AccountJson?
    requires XidsUniqueIn(AccountDatas(Accounts(entries)) + JsonDatas(js))
    ensures js[0].data.xid != "" ==> forall i :: 0 <= i < |entries| ==> !RowMatches(entries, i, ByXid(js[0].data.xid))
  {
    var d := js[0].data;
    var accs := Accounts(entries);
    var datas := AccountDatas(accs);
    if d.xid != "" {
      XidsUniqueAfter(datas, JsonDatas(js), d.xid);
      XidNotAmongAccounts(entries, d.xid);
    }
  }

  /** The first element of an array whose xids are new and unique is appended. */
  lemma LoadFirstAppends(st: Loaded, js: seq<AccountJson>, newRefs: seq<AccountRef>)
    requires 0 < |js| <= |newRefs| && forall k :: 0 <= k < |js| ==> js[k].AccountJson?
    requires XidsUniqueIn(AccountDatas(Accounts(st.entries)) + JsonDatas(js))
    ensures LoadOne(st, js[0], newRefs[0]) ==
      Loaded(st.entries + [AccountEntry(Account(newRefs[0], js[0].data))], if js[0].active then Some(newRefs[0]) else st.default)
  {
    FirstXidNotListed(st.entries, js);
  }

  /** Moving the first element of the array into the list leaves the sequence of data
      unchanged. */
  lemma DatasAfterFirst(entries: seq<Entry>, js: seq<AccountJson>, a: Account)
    requires 0 < |js| && (forall k :: 0 <= k < |js| ==> js[k].AccountJson?) && a.data == js[0].data
    ensures AccountDatas(Accounts(entries + [AccountEntry(a)])) + JsonDatas(js[1..]) ==
      AccountDatas(Accounts(entries)) + JsonDatas(js)
  {
    AccountsAppend(entries, AccountEntry(a));
    var left, right := AccountDatas(Accounts(entries + [AccountEntry(a)])) + JsonDatas(js[1..]), AccountDatas(Accounts(entries)) + JsonDatas(js);
    var n := |Accounts(entries)|;
    assert |left| == |right|;
    forall k | 0 <= k < |left| ensures left[k] == right[k] {
      if k > n {
        assert left[k] == js[1..][k - n - 1].data;
      }
    }
  }

  /** Loading an array whose xids are new and unique appends every element, in order. */
  lemma LoadAllNew(st: Loaded, js: seq<AccountJson>, newRefs: seq<AccountRef>)
    requires |js| <= |newRefs|
    requires forall k :: 0 <= k < |js| ==> js[k].AccountJson?
    requires XidsUniqueIn(AccountDatas(Accounts(st.entries)) + JsonDatas(js))
    ensures LoadAccounts(st, js, newRefs) == Loaded(st.entries + Rebuilt(js, newRefs), LastActive(js, newRefs, st.default))
  {
    LoadAllNewEntries(st, js, newRefs);
    LoadAllNewDefault(st, js, newRefs);
  }

  /** The list part of LoadAllNew. */
  lemma {:induction false} LoadAllNewEntries(st: Loaded, js: seq<AccountJson>, newRefs: seq<AccountRef>)
    requires |js| <= |newRefs|
    requires forall k :: 0 <= k < |js| ==> js[k].AccountJson?
    requires XidsUniqueIn(AccountDatas(Accounts(st.entries)) + JsonDatas(js))
    ensures LoadAccounts(st, js, newRefs).entries == st.entries + Rebuilt(js, newRefs)
    decreases |js|
  {
    if js != [] {
      var a := Account(newRefs[0], js[0].data);
      var st' := Loaded(st.entries + [AccountEntry(a)], if js[0].active then Some(newRefs[0]) else st.default);
      assert LoadAccounts(st, js, newRefs) == LoadAccounts(st', js[1..], newRefs[1..]) by {
        LoadFirstAppends(st, js, newRefs);
      }
      assert XidsUniqueIn(AccountDatas(Accounts(st'.entries)) + JsonDatas(js[1..])) by {
        DatasAfterFirst(st.entries, js, a);
      }
      LoadAllNewEntries(st', js[1..], newRefs[1..]);
      RebuiltFirst(st.entries, js, newRefs);
    }
  }

  /** Rebuilding an array after a list is rebuilding its tail after the list with the
      first element appended. */
  lemma RebuiltFirst(entries: seq<Entry>, js: seq<AccountJson>, newRefs: seq<AccountRef>)
    requires 0 < |js| <= |newRefs| && js[0].AccountJson?
    ensures entries + Rebuilt(js, newRefs) ==
      (entries + [AccountEntry(Account(newRefs[0], js[0].data))]) + Rebuilt(js[1..], newRefs[1..])
  {
    var e, rest := AccountEntry(Account(newRefs[0], js[0].data)), Rebuilt(js[1..], newRefs[1..]);
    assert Rebuilt(js, newRefs) == [e] + rest;
    assert entries + ([e] + rest) == (entries + [e]) + rest;
  }

  /** The default part of LoadAllNew. */
  lemma {:induction false} LoadAllNewDefault(st: Loaded, js: seq<AccountJson>, newRefs: seq<AccountRef>)
    requires |js| <= |newRefs|
    requires forall k :: 0 <= k < |js| ==> js[k].AccountJson?
    requires XidsUniqueIn(AccountDatas(Accounts(st.entries)) + JsonDatas(js))
    ensures LoadAccounts(st, js, newRefs).default == LastActive(js, newRefs, st.default)
    decreases |js|
  {
    if js != [] {
      var a := Account(newRefs[0], js[0].data);
      var st' := Loaded(st.entries + [AccountEntry(a)], if js[0].active then Some(newRefs[0]) else st.default);
      assert LoadAccounts(st, js, newRefs) == LoadAccounts(st', js[1..], newRefs[1..]) by {
        LoadFirstAppends(st, js, newRefs);
      }
      assert XidsUniqueIn(AccountDatas(Accounts(st'.entries)) + JsonDatas(js[1..])) by {
        DatasAfterFirst(st.entries, js, a);
      }
      LoadAllNewDefault(st', js[1..], newRefs[1..]);
    }
  }

  lemma {:induction false} RebuiltShape(js: seq<AccountJson>, newRefs: seq<AccountRef>)
    requires |js| <= |newRefs|
    requires forall k :: 0 <= k < |js| ==> js[k].AccountJson?
    ensures var r := Rebuilt(js, newRefs);
      Accounts(r) == seq(|js|, k requires 0 <= k < |js| => Account(newRefs[k], js[k].data))
    decreases |js|
  {
    if js != [] {
      RebuiltShape(js[1..], newRefs[1..]);
      var r := Rebuilt(js, newRefs);
      assert r == [AccountEntry(Account(newRefs[0], js[0].data))] + Rebuilt(js[1..], newRefs[1..]);
      assert r[1..] == Rebuilt(js[1..], newRefs[1..]);
    }
  }

  /** With exactly the element `p` flagged active (or none, p == -1), that element's object
      becomes the default. */
  lemma {:induction false} LastActiveUnique(js: seq<AccountJson>, newRefs: seq<AccountRef>, def: Option<AccountRef>, p: int)
    requires |js| <= |newRefs| && -1 <= p < |js|
    requires forall k :: 0 <= k < |js| ==> (js[k].AccountJson? && js[k].active <==> k == p)
    ensures LastActive(js, newRefs, def) == if p == -1 then def else Some(newRefs[p])
    decreases |js|
  {
    if js != [] {
      var def' := if js[0].AccountJson? && js[0].active then Some(newRefs[0]) else def;
      LastActiveUnique(js[1..], newRefs[1..], def', if p == -1 then -1 else p - 1);
    }
  }

  /** The list invariants carried over to the accounts in row order. */
  lemma {:induction false} AccountsUnique(entries: seq<Entry>)
    requires RefsDistinct(entries) && XidsUnique(entries)
    ensures var accs := Accounts(entries);
      XidsUniqueIn(AccountDatas(accs)) &&
      forall i, j :: 0 <= i < j < |accs| ==> accs[i].ref != accs[j].ref
  {
    if entries != [] {
      var rest := entries[1..];
      assert RefsDistinct(rest) && XidsUnique(rest) by {
        forall i, j | 0 <= i < j < |rest| ensures rest[i] == entries[i + 1] && rest[j] == entries[j + 1] { }
      }
      AccountsUnique(rest);
      if entries[0].AccountEntry? {
        var accs := Accounts(entries);
        var e0 := entries[0].account;
        assert accs == [e0] + Accounts(rest);
        forall k | 0 <= k < |Accounts(rest)|
          ensures Accounts(rest)[k].ref != e0.ref
          ensures e0.data.xid != "" ==> Accounts(rest)[k].data.xid != e0.data.xid
        {
          var a := Accounts(rest)[k];
          AccountsMembers(rest, a);
          var i :| 0 <= i < |rest| && rest[i] == AccountEntry(a);
          assert entries[i + 1] == AccountEntry(a);
        }
        var ds := AccountDatas(accs);
        assert ds == [e0.data] + AccountDatas(Accounts(rest));
        assert XidsUniqueIn(AccountDatas(Accounts(rest)));
        forall i, j | 0 <= i < j < |ds| && ds[i].xid != "" ensures ds[i].xid != ds[j].xid {
          if i == 0 {
            assert ds[j] == Accounts(rest)[j - 1].data;
          } else {
            assert ds[i] == AccountDatas(Accounts(rest))[i - 1] && ds[j] == AccountDatas(Accounts(rest))[j - 1];
          }
        }
      } else {
        assert Accounts(entries) == Accounts(rest);
      }
    }
  }

  /** Saving the list and loading the file back into an empty registry yields the same
      accounts in the same order, with the same one marked default: saving again writes
      the same document. */
  lemma SaveLoadRoundTrip(entries: seq<Entry>, def: Option<AccountRef>, newRefs: seq<AccountRef>)
    requires RefsDistinct(entries) && XidsUnique(entries)
    requires |Accounts(entries)| <= |newRefs|
    requires forall i, j :: 0 <= i < j < |newRefs| ==> newRefs[i] != newRefs[j]
    ensures |SavedAccounts(entries, def)| <= |newRefs|
    ensures var l := LoadAccounts(Loaded([Placeholder], None), SavedAccounts(entries, def), newRefs);
      [Placeholder] <= l.entries &&
      AccountDatas(Accounts(l.entries)) == AccountDatas(Accounts(entries)) &&
      SaveDocument(l.entries, l.default) == SaveDocument(entries, def)
  {
    var accs := Accounts(entries);
    var js := SavedAccounts(entries, def);
    var st := Loaded([Placeholder], None);
    SavedAccountsShape(entries, def);
    assert XidsUniqueIn(AccountDatas(Accounts(st.entries)) + JsonDatas(js)) by {
      AccountsUnique(entries);
      assert Accounts(st.entries) == [];
      assert JsonDatas(js) == AccountDatas(accs);
      assert AccountDatas(Accounts(st.entries)) + JsonDatas(js) == JsonDatas(js);
    }
    LoadAllNew(st, js, newRefs);
    var l := LoadAccounts(st, js, newRefs);
    var loadedAccs := seq(|js|, k requires 0 <= k < |js| => Account(newRefs[k], js[k].data));
    assert Accounts(l.entries) == loadedAccs by {
      RebuiltShape(js, newRefs);
      assert l.entries[1..] == Rebuilt(js, newRefs);
    }
    assert AccountDatas(Accounts(l.entries)) == AccountDatas(accs);
    var p := SavedActiveRow(entries, def);
    LastActiveUnique(js, newRefs, None, p);
    ResavedArray(l.entries, l.default, js, newRefs, p);
  }

  /** The saved array flags at most one element active: the default's, when the default
      is listed. */
  lemma SavedActiveRow(entries: seq<Entry>, def: Option<AccountRef>) returns (p: int)
    requires RefsDistinct(entries) && XidsUnique(entries)
    ensures var js := SavedAccounts(entries, def);
      -1 <= p < |js| && forall k :: 0 <= k < |js| ==> (js[k].AccountJson? && js[k].active <==> k == p)
  {
    var accs := Accounts(entries);
    var js := SavedAccounts(entries, def);
    SavedAccountsShape(entries, def);
    AccountsUnique(entries);
    p := -1;
    if def.Some? && def.value in Refs(entries) {
      RefInAccounts(entries, def.value);
      p :| 0 <= p < |accs| && accs[p].ref == def.value;
    }
    forall k | 0 <= k < |js| ensures (js[k].AccountJson? && js[k].active <==> k == p) {
      if def.Some? && accs[k].ref == def.value {
        AccountsMembers(entries, accs[k]);
        assert AccountEntry(accs[k]) in entries;
        assert def.value in Refs(entries);
      }
    }
  }

  /** Saving the loaded list gives back the array it was loaded from, when the loaded
      accounts are the array's data under distinct new objects and the default is the
      object of the one element flagged active. */
  lemma ResavedArray(entries: seq<Entry>, def: Option<AccountRef>, js: seq<AccountJson>, newRefs: seq<AccountRef>, p: int)
    requires |js| <= |newRefs| && -1 <= p < |js|
    requires forall i, j :: 0 <= i < j < |newRefs| ==> newRefs[i] != newRefs[j]
    requires forall k :: 0 <= k < |js| ==> js[k].AccountJson? && (js[k].active <==> k == p)
    requires Accounts(entries) == seq(|js|, k requires 0 <= k < |js| => Account(newRefs[k], js[k].data))
    requires def == if p == -1 then None else Some(newRefs[p])
    ensures SavedAccounts(entries, def) == js
  {
    SavedAccountsShape(entries, def);
  }

  lemma RefInAccounts(entries: seq<Entry>, r: AccountRef)
    requires r in Refs(entries)
    ensures exists k :: 0 <= k < |Accounts(entries)| && Accounts(entries)[k].ref == r
  {
    var e :| e in entries && e.AccountEntry? && e.account.ref == r;
    AccountsMembers(entries, e.account);
    assert e.account in Accounts(entries);
  }

  lemma AppendPlaceholderKeepsConsistent(st: Loaded)
    requires Consistent(st)
    ensures Consistent(Loaded(st.entries + [Placeholder], st.default))
    ensures Refs(st.entries + [Placeholder]) == Refs(st.entries)
  {
    var r := st.entries + [Placeholder];
    forall x | x in Refs(r) ensures x in Refs(st.entries) {
      var e :| e in r && e.AccountEntry? && e.account.ref == x;
      var i :| 0 <= i < |r| && r[i] == e;
      assert st.entries[i] in st.entries;
    }
    forall x | x in Refs(st.entries) ensures x in Refs(r) {
      var e :| e in st.entries && e.AccountEntry? && e.account.ref == x;
      var i :| 0 <= i < |st.entries| && st.entries[i] == e;
      assert r[i] in r;
    }
  }

  // ---------------------------------------------------------------------------------
  // the registry object

  /** Notifications the registry emits, in order: listChanged, defaultAccountChanged,
      dataChanged for one row, and a model reset. */
  datatype ListEvent = ListChanged | DefaultAccountChanged | RowChanged(row: int) | ModelReset

  function RowEvents(rows: seq<int>): (es: seq<ListEvent>)
    ensures |es| == |rows| && forall i :: 0 <= i < |rows| ==> es[i] == RowChanged(rows[i])
  {
    if rows == [] then [] else [RowChanged(rows[0])] + RowEvents(rows[1..])
  }

  /** What reading a path yields; a path with nothing at it cannot be opened. */
  function ListFileAt(disk: map<string, ListFile>, path: string): ListFile {
    if path in disk then disk[path] else Unreadable
  }

  const RefreshIntervalMs: nat := 1000 * 3600
  const NextRefreshDelayMs: nat := 1000 * 20

  /** Writing a file twice leaves what the second write wrote. */
  lemma SavedTwice(disk: map<string, ListFile>, path: string, first: ListFile, second: ListFile)
    ensures disk[path := first][path := second] == disk[path := second]
  {
  }

  class AccountList {
    var accounts: seq<Entry>
    var defaultAccount: Option<AccountRef>
    var refreshQueue: seq<string>
    /** The account whose refresh task is running, if any. */
    var currentTask: Option<AccountRef>
    var activityCount: nat
    var listFilePath: string
    var autosave: bool
    /** The single-shot timers: the hourly refresh timer (fires fillQueue) and the delay
        between two refreshes (fires tryNext). */
    var refreshTimer: Option<nat>
    var nextTimer: Option<nat>
    var events: seq<ListEvent>
    var disk: map<string, ListFile>

    ghost predicate Valid()
      reads this
    {
      Consistent(Loaded(accounts, defaultAccount)) && activityCount < ActivityModulus
    }

    /** The file system after an autosave of the current list and default; `writable`
        says whether the folder can be made and the file opened and committed. */
    function Autosaved(before: map<string, ListFile>, writable: bool): map<string, ListFile>
      reads this
    {
      if autosave && listFilePath != "" && writable then before[listFilePath := Document(SaveDocument(accounts, defaultAccount))]
      else before
    }

    constructor (files: map<string, ListFile>)
      ensures Valid()
      ensures accounts == [] && defaultAccount == None && refreshQueue == [] && currentTask == None
      ensures activityCount == 0 && listFilePath == "" && !autosave
      ensures refreshTimer == None && nextTimer == None && events == [] && disk == files
    {
      accounts := [];
      defaultAccount := None;
      refreshQueue := [];
      currentTask := None;
      activityCount := 0;
      listFilePath := "";
      autosave := false;
      refreshTimer := None;
      nextTimer := None;
      events := [];
      disk := files;
    }

    /** getAccountByXID, getAccountByProfileName and getAccountById: the first account row
        matching the key, skipping the placeholder. */
    method GetAccountBy(k: Key) returns (found: bool, account: Option<Account>, row: int)
      ensures row == FindRow(accounts, k)
      ensures found <==> row != -1
      ensures found ==> account == Some(accounts[row].account) && Matches(accounts[row].account, k)
      ensures !found ==> account == None
    {
      var i := 0;
      while i < |accounts|
        invariant 0 <= i <= |accounts|
        invariant forall j :: 0 <= j < i ==> !RowMatches(accounts, j, k)
      {
        if accounts[i].AccountEntry? && Matches(accounts[i].account, k) {
          assert RowMatches(accounts, i, k);
          return true, Some(accounts[i].account), i;
        }
        i := i + 1;
      }
      return false, None, -1;
    }

    /** The row of the default account, -1 when there is none. */
    method DefaultAccountIndex() returns (row: int)
      requires Valid()
      ensures row == RowOf(accounts, defaultAccount)
      ensures defaultAccount.None? <==> row == -1
      ensures row != -1 ==> accounts[row].AccountEntry? && Some(accounts[row].account.ref) == defaultAccount
    {
      if defaultAccount.None? {
        return -1;
      }
      RefInList(accounts, defaultAccount.value);
      var i := 0;
      while i < |accounts|
        invariant 0 <= i <= |accounts|
        invariant forall j :: 0 <= j < i ==> !RowMatches(accounts, j, ByRef(defaultAccount.value))
      {
        if accounts[i].AccountEntry? && accounts[i].account.ref == defaultAccount.value {
          return i;
        }
        i := i + 1;
      }
      return -1;
    }

    /** saveList: fails without writing for an empty path, or when the folder cannot be
        made or the file cannot be opened or committed (`writable` false); otherwise the
        file holds the version 3 document of the list. */
    method SaveList(writable: bool) returns (ok: bool)
      modifies this`disk
      ensures ok <==> listFilePath != "" && writable
      ensures disk == if ok then old(disk)[listFilePath := Document(SaveDocument(accounts, defaultAccount))] else old(disk)
    {
      if listFilePath == "" || !writable {
        return false;
      }
      disk := disk[listFilePath := Document(SaveDocument(accounts, defaultAccount))];
      return true;
    }

    method OnListChanged(writable: bool)
      modifies this`disk, this`events
      ensures disk == Autosaved(old(disk), writable) && events == old(events) + [ListChanged]
    {
      if autosave {
        var _ := SaveList(writable);
      }
      events := events + [ListChanged];
    }

    method OnDefaultAccountChanged(writable: bool)
      modifies this`disk, this`events
      ensures disk == Autosaved(old(disk), writable) && events == old(events) + [DefaultAccountChanged]
    {
      if autosave {
        var _ := SaveList(writable);
      }
      events := events + [DefaultAccountChanged];
    }

    method AddAccount(a: Account, writable: bool) returns (row: int)
      requires Valid()
      modifies this`accounts, this`disk, this`events
      ensures Valid()
      ensures accounts == AddedEntries(old(accounts), a) && row == AddedRow(old(accounts), a)
      ensures a.ref in old(Refs(accounts)) ==> disk == old(disk) && events == old(events)
      ensures a.ref !in old(Refs(accounts)) ==> disk == Autosaved(old(disk), writable)
      ensures a.ref !in old(Refs(accounts)) && FindRow(old(accounts), ByXid(a.data.xid)) != -1 ==>
        events == old(events) + [RowChanged(row), ListChanged]
      ensures a.ref !in old(Refs(accounts)) && FindRow(old(accounts), ByXid(a.data.xid)) == -1 ==>
        events == old(events) + [ListChanged]
    {
      RefInList(accounts, a.ref);
      AddKeepsListConsistent(accounts, a);
      // the presence check never advances its row counter
      var i := 0;
      var k := 0;
      while k < |accounts|
        invariant 0 <= k <= |accounts|
        invariant forall j :: 0 <= j < k ==> !RowMatches(accounts, j, ByRef(a.ref))
      {
        if accounts[k].AccountEntry? && accounts[k].account.ref == a.ref {
          return i;
        }
        k := k + 1;
      }
      var found, existing, existingRow := GetAccountBy(ByXid(a.data.xid));
      if found {
        accounts := accounts[existingRow := AccountEntry(Account(existing.value.ref, a.data))];
        events := events + [RowChanged(existingRow)];
        OnListChanged(writable);
        return existingRow;
      }
      row := |accounts|;
      accounts := accounts + [AccountEntry(a)];
      OnListChanged(writable);
    }

    method RemoveAccount(id: string, writable: bool)
      requires Valid()
      modifies this`accounts, this`defaultAccount, this`disk, this`events
      ensures Valid()
      ensures accounts == RemovedEntries(old(accounts), id)
      ensures var j := FindRow(old(accounts), ById(id));
        if j == -1 then defaultAccount == old(defaultAccount) && disk == old(disk) && events == old(events)
        else
          var wasDefault := old(defaultAccount) == Some(old(accounts)[j].account.ref);
          defaultAccount == (if wasDefault then None else old(defaultAccount)) &&
          disk == Autosaved(old(disk), writable) &&
          events == old(events) + (if wasDefault then [DefaultAccountChanged] else []) + [ListChanged]
    {
      RemoveTakesOutOneAccount(accounts, id);
      var found, account, row := GetAccountBy(ById(id));
      if !found {
        return;
      }
      ghost var saved := Document(SaveDocument(accounts, None));
      if Some(account.value.ref) == defaultAccount {
        defaultAccount := None;
        OnDefaultAccountChanged(writable);
      }
      accounts := accounts[..row] + accounts[row + 1..];
      OnListChanged(writable);
      if autosave && listFilePath != "" && writable {
        SavedTwice(old(disk), listFilePath, saved, Document(SaveDocument(accounts, defaultAccount)));
      }
    }

    method SetDefaultAccount(requested: Option<AccountRef>, writable: bool)
      requires Valid()
      modifies this`defaultAccount, this`disk, this`events
      ensures Valid()
      ensures defaultAccount == NewDefault(accounts, old(defaultAccount), requested)
      ensures defaultAccount == old(defaultAccount) ==> disk == old(disk) && events == old(events)
      ensures defaultAccount != old(defaultAccount) ==>
        disk == Autosaved(old(disk), writable) &&
        events == old(events) + RowEvents(DefaultChangeRows(accounts, old(defaultAccount), requested)) + [DefaultAccountChanged]
    {
      NewDefaultIsListed(accounts, defaultAccount, requested);
      var rows := DefaultChangeRows(accounts, defaultAccount, requested);
      var next := NewDefault(accounts, defaultAccount, requested);
      if next != defaultAccount {
        events := events + RowEvents(rows);
        defaultAccount := next;
        OnDefaultAccountChanged(writable);
      }
    }

    method BeginActivity()
      requires Valid()
      modifies this`activityCount
      ensures Valid() && activityCount == ActivityBegun(old(activityCount))
    {
      activityCount := (activityCount + 1) % ActivityModulus;
    }

    method EndActivity()
      requires Valid()
      modifies this`activityCount
      ensures Valid() && activityCount == ActivityEnded(old(activityCount))
    {
      if activityCount == 0 {
        return;
      }
      activityCount := activityCount - 1;
    }

    predicate IsActive()
      reads this
    {
      activityCount != 0
    }

    method QueueRefresh(id: string)
      modifies this`refreshQueue
      ensures refreshQueue == QueuedOnce(old(refreshQueue), id)
    {
      if id in refreshQueue {
        return;
      }
      refreshQueue := refreshQueue + [id];
    }

    /** tryNext: start the first queued account whose refresh hands out a task; when the
        queue runs dry, start the hourly refresh timer instead. */
    method TryNext(startable: set<AccountRef>)
      modifies this`refreshQueue, this`currentTask, this`refreshTimer
      ensures var s := NextTask(old(refreshQueue), accounts, startable, old(currentTask));
        refreshQueue == s.queue && currentTask == s.task &&
        refreshTimer == (if s.started then old(refreshTimer) else Some(RefreshIntervalMs))
    {
      ghost var goal := NextTask(refreshQueue, accounts, startable, currentTask);
      while |refreshQueue| > 0
        invariant NextTask(refreshQueue, accounts, startable, currentTask) == goal
        invariant refreshTimer == old(refreshTimer)
        decreases |refreshQueue|
      {
        var id := refreshQueue[0];
        ghost var q, task := refreshQueue, currentTask;
        refreshQueue := refreshQueue[1..];
        var started := StartRefreshOf(id, startable);
        if started {
          return;
        }
        NextTaskSkips(q, accounts, startable, task);
      }
      refreshTimer := Some(RefreshIntervalMs);
    }

    /** One pass of tryNext over the rows for a popped id: every account with that id
        replaces the current task with what its refresh() hands out, and the pass stops at
        the first one that hands out a task. */
    method StartRefreshOf(id: string, startable: set<AccountRef>) returns (started: bool)
      modifies this`currentTask
      ensures var r := FindRow(accounts, StartableById(id, startable));
        started <==> r != -1
      ensures var r := FindRow(accounts, StartableById(id, startable));
        r != -1 ==> currentTask == Some(accounts[r].account.ref)
      ensures !started ==> currentTask == if FindRow(accounts, ById(id)) != -1 then None else old(currentTask)
    {
      ghost var seen := false;
      var i := 0;
      while i < |accounts|
        invariant 0 <= i <= |accounts|
        invariant forall j :: 0 <= j < i ==> !RowMatches(accounts, j, StartableById(id, startable))
        invariant seen <==> exists j :: 0 <= j < i && RowMatches(accounts, j, ById(id))
        invariant currentTask == if seen then None else old(currentTask)
      {
        if accounts[i].AccountEntry? && accounts[i].account.data.internalId == id {
          seen := true;
          currentTask := if accounts[i].account.ref in startable then Some(accounts[i].account.ref) else None;
          if currentTask.Some? {
            assert RowMatches(accounts, i, StartableById(id, startable));
            return true;
          }
        }
        assert RowMatches(accounts, i, ById(id)) <==> accounts[i].AccountEntry? && accounts[i].account.data.internalId == id;
        i := i + 1;
      }
      assert seen <==> FindRow(accounts, ById(id)) != -1;
      return false;
    }

    /** requestRefresh: move the id to the front of the queue and, when nothing is busy,
        try to start it. */
    method RequestRefresh(id: string, startable: set<AccountRef>)
      modifies this`refreshQueue, this`currentTask, this`refreshTimer
      ensures var q := MovedToFront(old(refreshQueue), id);
        if old(activityCount) != 0 then
          refreshQueue == q && currentTask == old(currentTask) && refreshTimer == old(refreshTimer)
        else
          var s := NextTask(q, accounts, startable, old(currentTask));
          refreshQueue == s.queue && currentTask == s.task &&
          refreshTimer == (if s.started then old(refreshTimer) else Some(RefreshIntervalMs))
    {
      if id in refreshQueue {
        refreshQueue := RemoveFirst(refreshQueue, id);
      }
      refreshQueue := [id] + refreshQueue;
      if !IsActive() {
        TryNext(startable);
      }
    }

    /** fillQueue, run when the hourly timer fires: queue the default first when it is due,
        then every other due account once, then try to start the next refresh. */
    method FillQueue(startable: set<AccountRef>)
      modifies this`refreshQueue, this`currentTask, this`refreshTimer
      ensures var s := NextTask(FilledQueue(old(refreshQueue), accounts, defaultAccount), accounts, startable, old(currentTask));
        refreshQueue == s.queue && currentTask == s.task &&
        refreshTimer == (if s.started then old(refreshTimer) else Some(RefreshIntervalMs))
    {
      var r := RowOf(accounts, defaultAccount);
      if r != -1 && accounts[r].account.data.needsRefresh {
        refreshQueue := refreshQueue + [accounts[r].account.data.internalId];
      }
      var i := 0;
      while i < |accounts|
        invariant 0 <= i <= |accounts|
        invariant QueueOthers(refreshQueue, accounts, defaultAccount, i) == FilledQueue(old(refreshQueue), accounts, defaultAccount)
        invariant currentTask == old(currentTask) && refreshTimer == old(refreshTimer)
      {
        if accounts[i].AccountEntry? && Some(accounts[i].account.ref) != defaultAccount && accounts[i].account.data.needsRefresh {
          QueueRefresh(accounts[i].account.data.internalId);
        }
        i := i + 1;
      }
      TryNext(startable);
    }

    /** authSucceeded and authFailed: drop the finished task and schedule the next one. */
    method AuthFinished()
      modifies this`currentTask, this`nextTimer
      ensures currentTask == None && nextTimer == Some(NextRefreshDelayMs)
    {
      currentTask := None;
      nextTimer := Some(NextRefreshDelayMs);
    }

    /** setListFilePath: only records the path and the autosave flag; nothing is loaded. */
    method SetListFilePath(path: string, autosaveEnabled: bool)
      modifies this`listFilePath, this`autosave
      ensures listFilePath == path && autosave == autosaveEnabled
    {
      listFilePath := path;
      autosave := autosaveEnabled;
    }

    /** loadV3: append the array's accounts, skipping rejected ones and xids already
        listed; an account flagged active becomes the default. */
    method LoadV3(js: seq<AccountJson>, newRefs: seq<AccountRef>) returns (ok: bool)
      requires Valid() && |js| <= |newRefs| && FreshFor(newRefs, accounts)
      modifies this`accounts, this`defaultAccount, this`events
      ensures Valid() && ok
      ensures Loaded(accounts, defaultAccount) == LoadAccounts(Loaded(old(accounts), old(defaultAccount)), js, newRefs)
      ensures events == old(events) + [ModelReset]
    {
      var i := 0;
      while i < |js|
        invariant 0 <= i <= |js| && activityCount == old(activityCount)
        invariant Consistent(Loaded(accounts, defaultAccount)) && FreshFor(newRefs[i..], accounts)
        invariant LoadAccounts(Loaded(accounts, defaultAccount), js[i..], newRefs[i..]) ==
          LoadAccounts(Loaded(old(accounts), old(defaultAccount)), js, newRefs)
        invariant events == old(events)
      {
        ghost var st := Loaded(accounts, defaultAccount);
        LoadOneKeepsConsistent(st, js[i], newRefs[i]);
        assert js[i..][1..] == js[i + 1..] && newRefs[i..][1..] == newRefs[i + 1..];
        match js[i] {
          case MalformedAccount =>
          case AccountJson(d, active) =>
            var duplicate := false;
            if |d.xid| > 0 {
              var found, _, _ := GetAccountBy(ByXid(d.xid));
              duplicate := found;
            }
            if !duplicate {
              accounts := accounts + [AccountEntry(Account(newRefs[i], d))];
              if active {
                defaultAccount := Some(newRefs[i]);
              }
            }
        }
        assert Loaded(accounts, defaultAccount) == LoadOne(st, js[i], newRefs[i]);
        i := i + 1;
      }
      events := events + [ModelReset];
      return true;
    }

    /** loadList: append the placeholder row, read the file, and load a version 3
        document; a document of another version is renamed out of the way. */
    method LoadList(newRefs: seq<AccountRef>) returns (ok: bool)
      requires Valid() && FreshFor(newRefs, accounts)
      requires ListFileAt(disk, listFilePath).Document? ==> |ListFileAt(disk, listFilePath).doc.accounts| <= |newRefs|
      modifies this`accounts, this`defaultAccount, this`events, this`disk
      ensures Valid()
      ensures var f := ListFileAt(old(disk), listFilePath);
        ok <==> listFilePath != "" && f.Document? && f.doc.formatVersion == FormatVersion
      ensures listFilePath == "" ==>
        accounts == old(accounts) && defaultAccount == old(defaultAccount) && events == old(events) && disk == old(disk)
      ensures var f := ListFileAt(old(disk), listFilePath);
        listFilePath != "" && !ok ==>
          accounts == old(accounts) + [Placeholder] && defaultAccount == old(defaultAccount) && events == old(events) &&
          disk == (if f.Document? && OldListFileName !in old(disk) then (old(disk) - {listFilePath})[OldListFileName := f] else old(disk))
      ensures ok ==>
        Loaded(accounts, defaultAccount) ==
          LoadAccounts(Loaded(old(accounts) + [Placeholder], old(defaultAccount)), ListFileAt(old(disk), listFilePath).doc.accounts, newRefs) &&
        events == old(events) + [ModelReset] && disk == old(disk)
    {
      if listFilePath == "" {
        return false;
      }
      AppendPlaceholderKeepsConsistent(Loaded(accounts, defaultAccount));
      accounts := accounts + [Placeholder];
      var file := ListFileAt(disk, listFilePath);
      if !file.Document? {
        return false;
      }
      if file.doc.formatVersion == FormatVersion {
        ok := LoadV3(file.doc.accounts, newRefs);
      } else {
        if OldListFileName !in disk {
          disk := (disk - {listFilePath})[OldListFileName := file];
        }
        ok := false;
      }
    }
  }
}
