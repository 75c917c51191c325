/** The list of capes offered for an account (CapesModel): a "Nothing" row, then one row
    per cape of the account's profile, with an index from cape id to row and previews
    taken from the cape cache. */
module CapesList {
  import opened Common
  import opened Skins
  import Capes
  import AccountRegistry

  /** A cape of the account's Minecraft profile. */
  datatype ProfileCape = ProfileCape(id: string, alias: string)

  datatype CapesEvent = ModelReset | PreviewChanged(row: int)

  /** The first row: no cape. */
  function NothingRow(): (e: CapeEntry)
    ensures e.uuid == "" && e.preview == NoCapePicture
  {
    CapeEntry("", "Nothing", NoCapePicture)
  }

  /** Every uuid that occurs in `rows` is indexed, and only those, each to the last row
      that carries it (so to its only row when the uuids are distinct). */
  ghost predicate IndexesRows(rows: seq<CapeEntry>, index: map<string, int>) {
    (forall k :: k in index <==> exists i :: 0 <= i < |rows| && rows[i].uuid == k) &&
    (forall k :: k in index ==>
      0 <= index[k] < |rows| && rows[index[k]].uuid == k &&
      forall j :: index[k] < j < |rows| ==> rows[j].uuid != k)
  }

  /** Appending a row and indexing its uuid to it keeps the index exact. */
  lemma IndexAppend(rows: seq<CapeEntry>, index: map<string, int>, e: CapeEntry)
    requires IndexesRows(rows, index)
    ensures IndexesRows(rows + [e], index[e.uuid := |rows|])
  {
    var rows', index' := rows + [e], index[e.uuid := |rows|];
    forall k | k in index'
      ensures exists i :: 0 <= i < |rows'| && rows'[i].uuid == k
    {
      if k == e.uuid {
        assert rows'[|rows|].uuid == k;
      } else {
        var i :| 0 <= i < |rows| && rows[i].uuid == k;
        assert rows'[i].uuid == k;
      }
    }
    forall k | exists i :: 0 <= i < |rows'| && rows'[i].uuid == k
      ensures k in index'
    {
      var i :| 0 <= i < |rows'| && rows'[i].uuid == k;
      if i < |rows| {
        assert rows[i].uuid == k;
      }
    }
  }

  /** Rows with unique uuids are each found through the index. */
  lemma DistinctCapesIndexed(rows: seq<CapeEntry>, index: map<string, int>, i: int)
    requires IndexesRows(rows, index)
    requires forall a, b :: 0 <= a < b < |rows| ==> rows[a].uuid != rows[b].uuid
    requires 0 <= i < |rows|
    ensures rows[i].uuid in index && index[rows[i].uuid] == i
  {
    var k := rows[i].uuid;
    assert exists j :: 0 <= j < |rows| && rows[j].uuid == k;
  }

  /** The row of a profile cape, previewed from the cache. */
  function CapeRow(cape: ProfileCape, cache: Capes.CapeCache): (e: CapeEntry)
    reads cache
    ensures e.uuid == cape.id && e.alias == cape.alias
    ensures e.preview == CapeCrop(cache.GetCapeImage(cape.id))
  {
    CapeEntry(cape.id, cape.alias, CapeCrop(cache.GetCapeImage(cape.id)))
  }

  class CapesModel {
    var account: Option<AccountRegistry.AccountRef>
    var capes: seq<CapeEntry>
    var uuidIndex: map<string, int>
    var events: seq<CapesEvent>

    ghost predicate Valid()
      reads this
    {
      IndexesRows(capes, uuidIndex)
    }

    constructor ()
      ensures Valid()
      ensures account.None? && capes == [] && uuidIndex == map[] && events == []
    {
      account := None;
      capes := [];
      uuidIndex := map[];
      events := [];
    }

    /** setAccount: the same account changes nothing; another one rebuilds the rows: the
        "Nothing" row, then one row per cape of the new account's profile, in order. */
    method SetAccount(newAccount: Option<AccountRegistry.AccountRef>, profileCapes: seq<ProfileCape>,
                      cache: Capes.CapeCache)
      modifies this
      requires Valid()
      ensures Valid()
      ensures account == newAccount
      ensures newAccount == old(account) ==> capes == old(capes) && uuidIndex == old(uuidIndex) && events == old(events)
      ensures newAccount != old(account) ==>
        account == newAccount && events == old(events) + [ModelReset] &&
        |capes| == 1 + (if newAccount.Some? then |profileCapes| else 0) &&
        capes[0] == NothingRow() &&
        forall i :: 1 <= i < |capes| ==> capes[i] == CapeRow(profileCapes[i - 1], cache)
    {
      if newAccount == account {
        return;
      }
      capes := [];
      uuidIndex := map[];
      account := newAccount;
      IndexAppend([], map[], NothingRow());
      capes := capes + [NothingRow()];
      uuidIndex := uuidIndex[NothingRow().uuid := 0];
      if account.Some? {
        AppendCapeRows(profileCapes, cache);
      }
      events := events + [ModelReset];
    }

    /** The loop of setAccount over the profile's capes: each one appended as a row and
        its id indexed to that row. */
    method AppendCapeRows(profileCapes: seq<ProfileCape>, cache: Capes.CapeCache)
      modifies this`capes, this`uuidIndex
      requires Valid()
      ensures Valid()
      ensures |capes| == |old(capes)| + |profileCapes| && capes[..|old(capes)|] == old(capes)
      ensures forall i :: 0 <= i < |profileCapes| ==> capes[|old(capes)| + i] == CapeRow(profileCapes[i], cache)
    {
      ghost var start := capes;
      for n := 0 to |profileCapes|
        invariant |capes| == |start| + n && capes[..|start|] == start
        invariant forall i :: 0 <= i < n ==> capes[|start| + i] == CapeRow(profileCapes[i], cache)
        invariant Valid()
      {
        var entry := CapeRow(profileCapes[n], cache);
        IndexAppend(capes, uuidIndex, entry);
        uuidIndex := uuidIndex[entry.uuid := |capes|];
        capes := capes + [entry];
      }
    }

    /** capeImageUpdated: an unknown id is ignored; a known one refreshes only its indexed
        row's preview. */
    method CapeImageUpdated(uuid: string, cache: Capes.CapeCache)
      modifies this`capes, this`events
      requires Valid()
      ensures Valid()
      ensures uuid !in uuidIndex ==> capes == old(capes) && events == old(events)
      ensures uuid in uuidIndex ==>
        var row := uuidIndex[uuid];
        capes == old(capes)[row := old(capes)[row].(preview := CapeCrop(cache.GetCapeImage(uuid)))] &&
        events == old(events) + [PreviewChanged(row)]
    {
      if uuid !in uuidIndex {
        return;
      }
      var row := uuidIndex[uuid];
      capes := capes[row := capes[row].(preview := CapeCrop(cache.GetCapeImage(uuid)))];
      events := events + [PreviewChanged(row)];
      assert forall i :: 0 <= i < |capes| ==> capes[i].uuid == old(capes)[i].uuid;
    }

    /** at: the row's cape id, or an empty id out of range. */
    function At(row: int): (id: string)
      reads this
      ensures 0 <= row < |capes| ==> id == capes[row].uuid
      ensures !(0 <= row < |capes|) ==> id == ""
    {
      if row < 0 || row >= |capes| then "" else capes[row].uuid
    }

    /** rowCount. */
    function RowCount(): (n: nat)
      reads this
      ensures n == |capes|
    {
      |capes|
    }
  }

  /** After setAccount the no-cape id "" leads to row 0 as long as no profile cape has an
      empty id. */
  lemma NothingIndexedAtZero(rows: seq<CapeEntry>, index: map<string, int>)
    requires IndexesRows(rows, index) && |rows| > 0 && rows[0] == NothingRow()
    requires forall i :: 1 <= i < |rows| ==> rows[i].uuid != ""
    ensures "" in index && index[""] == 0
  {
    assert rows[0].uuid == "";
  }
}
