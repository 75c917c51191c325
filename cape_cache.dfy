/** The cape image cache (CapeCache): a map from cape id to its PNG bytes and decoded
    image, a FIFO queue of download requests served one at a time, and a cache file
    holding the count of entries followed by (id, bytes) pairs. */
module Capes {
  import opened Common
  import opened Imaging

  datatype CapeRequest = CapeRequest(uuid: string, url: string)

  /** One cached cape: the decoded image (null if decoding failed) and the raw bytes. */
  datatype IndexEntry = IndexEntry(image: Image, rawData: seq<byte>)

  /** The values of a QDataStream, in the order they were written. */
  datatype StreamItem = CountItem(count: int) | UuidItem(uuid: string) | DataItem(data: seq<byte>)

  /** What the cache observably does. */
  datatype CacheEvent = DownloadStarted(request: CapeRequest) | CapeReady(uuid: string)

  /** The cache file's path. */
  const CacheFileName: string := "cache/capes.dat"

  /** The save delay, in milliseconds. */
  const SaveDelayMs: int := 5000

  /** The queue once every leading request for an already cached cape is dropped. */
  function DropCached(requests: seq<CapeRequest>, index: map<string, IndexEntry>): (r: seq<CapeRequest>)
    ensures |r| <= |requests|
    ensures r != [] ==> r[0].uuid !in index
  {
    if requests == [] || requests[0].uuid !in index then requests
    else DropCached(requests[1..], index)
  }

  /** getNext only drops requests from the front, and only those for cached capes: what
      remains is a suffix of the queue and everything before it was already cached. */
  lemma {:induction false} DropCachedDropsOnlyCached(requests: seq<CapeRequest>, index: map<string, IndexEntry>)
    ensures var r := DropCached(requests, index);
      r == requests[|requests| - |r|..] &&
      forall i :: 0 <= i < |requests| - |r| ==> requests[i].uuid in index
  {
    if requests != [] && requests[0].uuid in index {
      DropCachedDropsOnlyCached(requests[1..], index);
      var r := DropCached(requests, index);
      assert requests[1..][|requests| - 1 - |r|..] == requests[|requests| - |r|..];
      forall i | 0 <= i < |requests| - |r|
        ensures requests[i].uuid in index
      {
        if i > 0 {
          assert requests[i] == requests[1..][i - 1];
        }
      }
    }
  }

  /** The stream saveNow writes for `order`, an enumeration of the index's keys. */
  function Pairs(order: seq<string>, index: map<string, IndexEntry>): (items: seq<StreamItem>)
    requires forall k :: k in order ==> k in index
    ensures |items| == 2 * |order|
  {
    if order == [] then []
    else [UuidItem(order[0]), DataItem(index[order[0]].rawData)] + Pairs(order[1..], index)
  }

  /** What `load` reads from the pairs at `pos`, `remaining` of them at most: each pair
      read is stored (the image decoded from its bytes), and the first read that fails
      ends the load, keeping what was stored so far. */
  function LoadPairs(index: map<string, IndexEntry>, items: seq<StreamItem>, pos: nat, remaining: int,
                     decode: seq<byte> -> Image): map<string, IndexEntry>
    decreases if remaining < 0 then 0 else remaining
  {
    if remaining <= 0 then index
    else if pos + 1 < |items| && items[pos].UuidItem? && items[pos + 1].DataItem? then
      var data := items[pos + 1].data;
      LoadPairs(index[items[pos].uuid := IndexEntry(decode(data), data)], items, pos + 2, remaining - 1, decode)
    else index
  }

  /** What `load` makes of the cache file: nothing without a file or a readable count,
      otherwise the pairs it could read. */
  function Loaded(index: map<string, IndexEntry>, file: Option<seq<StreamItem>>, decode: seq<byte> -> Image)
    : map<string, IndexEntry>
  {
    if file.None? || file.value == [] || !file.value[0].CountItem? then index
    else LoadPairs(index, file.value, 1, file.value[0].count, decode)
  }

  /** Every cached image is the decoding of its bytes. */
  predicate Decoded(index: map<string, IndexEntry>, decode: seq<byte> -> Image) {
    forall k :: k in index ==> index[k].image == decode(index[k].rawData)
  }

  /** Reading back the pairs of distinct keys adds exactly those entries. */
  lemma {:induction false} LoadPairsReadsBack(acc: map<string, IndexEntry>, items: seq<StreamItem>, pos: nat,
                                                order: seq<string>, index: map<string, IndexEntry>,
                                                decode: seq<byte> -> Image)
    requires forall k :: k in order ==> k in index
    requires Decoded(index, decode)
    requires forall i, j :: 0 <= i < j < |order| ==> order[i] != order[j]
    requires pos + 2 * |order| <= |items| && items[pos..pos + 2 * |order|] == Pairs(order, index)
    ensures var r := LoadPairs(acc, items, pos, |order|, decode);
      (forall k :: k in r <==> k in acc || k in order) &&
      (forall k :: k in order ==> r[k] == index[k]) &&
      (forall k :: k in acc && k !in order ==> r[k] == acc[k])
    decreases |order|
  {
    if order != [] {
      var k0 := order[0];
      assert items[pos] == UuidItem(k0);
      assert items[pos + 1] == DataItem(index[k0].rawData);
      var acc' := acc[k0 := IndexEntry(decode(index[k0].rawData), index[k0].rawData)];
      assert acc'[k0] == index[k0];
      assert items[pos + 2..pos + 2 + 2 * |order[1..]|] == Pairs(order[1..], index) by {
        assert items[pos..pos + 2 * |order|][2..] == Pairs(order[1..], index);
      }
      LoadPairsReadsBack(acc', items, pos + 2, order[1..], index, decode);
      assert k0 !in order[1..] by {
        forall j | 0 <= j < |order[1..]| ensures order[1..][j] != k0 {
          assert order[1..][j] == order[j + 1];
        }
      }
      forall k | k in order ensures k == k0 || k in order[1..] {
        var j :| 0 <= j < |order| && order[j] == k;
        if j > 0 {
          assert order[1..][j - 1] == k;
        }
      }
    }
  }

  /** Loading the file saveNow wrote, into an empty cache, gives back the saved index. */
  lemma SaveLoadRoundTrip(order: seq<string>, index: map<string, IndexEntry>, decode: seq<byte> -> Image)
    requires Enumerates(order, index.Keys) && Decoded(index, decode)
    ensures Loaded(map[], Some([CountItem(|order|)] + Pairs(order, index)), decode) == index
  {
    var items := [CountItem(|order|)] + Pairs(order, index);
    assert items[1..1 + 2 * |order|] == Pairs(order, index);
    var empty: map<string, IndexEntry> := map[];
    LoadPairsReadsBack(empty, items, 1, order, index, decode);
    var got := LoadPairs(empty, items, 1, |order|, decode);
    assert got.Keys == index.Keys;
    assert got == index;
  }

  /** Loading, however far it gets before a read fails, keeps every entry already cached
      and leaves every cached image the decoding of its bytes. */
  lemma {:induction false} LoadPairsPrefix(acc: map<string, IndexEntry>, items: seq<StreamItem>, pos: nat, remaining: int,
                                            decode: seq<byte> -> Image)
    requires Decoded(acc, decode)
    ensures Decoded(LoadPairs(acc, items, pos, remaining, decode), decode)
    ensures acc.Keys <= LoadPairs(acc, items, pos, remaining, decode).Keys
    decreases if remaining < 0 then 0 else remaining
  {
    if remaining > 0 && pos + 1 < |items| && items[pos].UuidItem? && items[pos + 1].DataItem? {
      var data := items[pos + 1].data;
      LoadPairsPrefix(acc[items[pos].uuid := IndexEntry(decode(data), data)], items, pos + 2, remaining - 1, decode);
    }
  }

  /** The order of QString keys in a QMap: character by character, a proper prefix
      before any longer string. */
  predicate KeyLess(a: string, b: string)
    decreases |a|
  {
    if a == [] then b != []
    else if b == [] then false
    else a[0] < b[0] || (a[0] == b[0] && KeyLess(a[1..], b[1..]))
  }

  lemma {:induction false} KeyLessIrreflexive(a: string)
    ensures !KeyLess(a, a)
    decreases |a|
  {
    if a != [] {
      KeyLessIrreflexive(a[1..]);
    }
  }

  lemma {:induction false} KeyLessTransitive(a: string, b: string, c: string)
    requires KeyLess(a, b) && KeyLess(b, c)
    ensures KeyLess(a, c)
    decreases |a|
  {
    if a != [] && a[0] == b[0] && b[0] == c[0] {
      KeyLessTransitive(a[1..], b[1..], c[1..]);
    }
  }

  lemma {:induction false} KeyLessTotal(a: string, b: string)
    requires a != b
    ensures KeyLess(a, b) || KeyLess(b, a)
    decreases |a|
  {
    if a != [] && b != [] && a[0] == b[0] {
      assert a == [a[0]] + a[1..] && b == [b[0]] + b[1..];
      KeyLessTotal(a[1..], b[1..]);
    }
  }

  /** Every non-empty set of keys has a smallest one. */
  lemma {:induction false} SmallestKeyExists(keys: set<string>)
    requires keys != {}
    ensures exists k :: k in keys && forall m :: m in keys ==> !KeyLess(m, k)
    decreases |keys|
  {
    var x :| x in keys;
    KeyLessIrreflexive(x);
    if keys - {x} != {} {
      SmallestKeyExists(keys - {x});
      var y :| y in keys - {x} && forall m :: m in keys - {x} ==> !KeyLess(m, y);
      if KeyLess(x, y) {
        forall m | m in keys
          ensures !KeyLess(m, x)
        {
          if m != x && KeyLess(m, x) {
            KeyLessTransitive(m, x, y);
          }
        }
      } else {
        assert forall m :: m in keys ==> !KeyLess(m, y);
      }
    } else {
      assert keys == {x};
    }
  }

  /** An enumeration of a set is as long as the set is large. */
  lemma {:induction false} EnumerationSize(order: seq<string>, keys: set<string>)
    requires Enumerates(order, keys)
    ensures |order| == |keys|
    decreases |order|
  {
    if order == [] {
      assert forall k :: k !in keys;
      assert keys == {};
    } else {
      var rest := keys - {order[0]};
      forall k
        ensures k in order[1..] <==> k in rest
      {
        if k in order[1..] {
          var i :| 1 <= i < |order| && order[i] == k;
        }
      }
      EnumerationSize(order[1..], rest);
    }
  }

  /** The keys in strictly ascending QMap order. */
  ghost predicate Ascending(order: seq<string>) {
    forall i, j :: 0 <= i < j < |order| ==> KeyLess(order[i], order[j])
  }

  /** A set of keys has one ascending enumeration, so the order saveNow writes is
      determined by the index alone. */
  lemma {:induction false} AscendingEnumerationUnique(a: seq<string>, b: seq<string>, keys: set<string>)
    requires Enumerates(a, keys) && Enumerates(b, keys) && Ascending(a) && Ascending(b)
    ensures a == b
    decreases |a|
  {
    EnumerationSize(a, keys);
    EnumerationSize(b, keys);
    if a != [] {
      assert a[0] in b;
      assert b != [];
      assert b[0] in a;
      if a[0] != b[0] {
        var i :| 0 <= i < |a| && a[i] == b[0];
        var j :| 0 <= j < |b| && b[j] == a[0];
        KeyLessTransitive(a[0], b[0], a[0]);
        KeyLessIrreflexive(a[0]);
      }
      var rest := keys - {a[0]};
      forall k
        ensures k in a[1..] <==> k in rest
      {
        if k in a[1..] {
          var i :| 1 <= i < |a| && a[i] == k;
        }
      }
      forall k
        ensures k in b[1..] <==> k in rest
      {
        if k in b[1..] {
          var i :| 1 <= i < |b| && b[i] == k;
        }
      }
      AscendingEnumerationUnique(a[1..], b[1..], rest);
      assert a == [a[0]] + a[1..] && b == [b[0]] + b[1..];
    }
  }

  class CapeCache {
    /** The PNG decoder (a failed decode gives the null image). */
    const decode: seq<byte> -> Image
    var index: map<string, IndexEntry>
    var requests: seq<CapeRequest>
    /** The request the in-flight download serves (m_downloadJob), if any. */
    var download: Option<CapeRequest>
    var saveTimerActive: bool
    var events: seq<CacheEvent>
    /** The cache file: absent, or the stream it holds. */
    var file: Option<seq<StreamItem>>

    /** At most one download is in flight, it serves the head of the queue, and that head
        is a cape not yet cached; every cached image is its bytes decoded. */
    predicate Valid()
      reads this
    {
      (download.Some? ==> requests != [] && requests[0] == download.value && download.value.uuid !in index) &&
      Decoded(index, decode)
    }

    /** Construction loads the cache file. */
    constructor (decoder: seq<byte> -> Image, cacheFile: Option<seq<StreamItem>>)
      ensures Valid()
      ensures decode == decoder && index == Loaded(map[], cacheFile, decoder)
      ensures requests == [] && download.None? && !saveTimerActive && events == [] && file == cacheFile
    {
      decode := decoder;
      index := map[];
      requests := [];
      download := None;
      saveTimerActive := false;
      events := [];
      file := cacheFile;
      new;
      Load();
    }

    /** load: reads the count, then that many pairs, stopping at the first failed read.
        Only the constructor calls it, before any request is queued or downloading, so
        of Valid it needs and keeps only that every cached image is its bytes decoded. */
    method Load()
      modifies this`index
      requires Decoded(index, decode)
      ensures index == Loaded(old(index), file, decode) && Decoded(index, decode)
    {
      if file.None? || file.value == [] || !file.value[0].CountItem? {
        return;
      }
      var items := file.value;
      var count := items[0].count;
      var i := 0;
      var pos := 1;
      while i < count
        invariant 0 <= i && (i <= count || count <= 0) && pos == 1 + 2 * i
        invariant LoadPairs(index, items, pos, count - i, decode) == Loaded(old(index), file, decode)
        invariant Decoded(index, decode)
        decreases count - i
      {
        if !(pos + 1 < |items| && items[pos].UuidItem? && items[pos + 1].DataItem?) {
          return;
        }
        var uuid, data := items[pos].uuid, items[pos + 1].data;
        index := index[uuid := IndexEntry(decode(data), data)];
        i := i + 1;
        pos := pos + 2;
      }
    }

    /** saveNow: the count, then each entry's id and bytes in ascending id order (the
        QMap's order); nothing is written when the file cannot be created or committed. */
    method SaveNow(writable: bool)
      modifies this`file
      ensures !writable ==> file == old(file)
      ensures writable ==> exists order ::
        Enumerates(order, index.Keys) && Ascending(order) && file == Some([CountItem(|index|)] + Pairs(order, index))
    {
      if !writable {
        return;
      }
      var out := [CountItem(|index|)];
      var remaining := index.Keys;
      ghost var order: seq<string> := [];
      while remaining != {}
        invariant remaining <= index.Keys
        invariant forall k :: k in order <==> k in index.Keys - remaining
        invariant forall i, j :: 0 <= i < j < |order| ==> order[i] != order[j]
        invariant Ascending(order)
        invariant forall i, m :: 0 <= i < |order| && m in remaining ==> KeyLess(order[i], m)
        invariant out == [CountItem(|index|)] + Pairs(order, index)
        decreases |remaining|
      {
        SmallestKeyExists(remaining);
        var k :| k in remaining && forall m :: m in remaining ==> !KeyLess(m, k);
        assert k !in order;
        forall m | m in remaining - {k}
          ensures KeyLess(k, m)
        {
          KeyLessTotal(k, m);
        }
        PairsAppend(order, k, index);
        out := out + [UuidItem(k), DataItem(index[k].rawData)];
        order := order + [k];
        remaining := remaining - {k};
      }
      assert Enumerates(order, index.Keys);
      file := Some(out);
      assert file == Some([CountItem(|index|)] + Pairs(order, index));
    }

    /** saveLater: (re)starts the single-shot save timer. */
    method SaveLater()
      modifies this`saveTimerActive
      ensures saveTimerActive
    {
      saveTimerActive := true;
    }

    /** The save timer fires. */
    method SaveTimerFired(writable: bool)
      modifies this`saveTimerActive, this`file
      ensures !saveTimerActive
      ensures !writable ==> file == old(file)
      ensures writable ==> exists order :: Enumerates(order, index.Keys) && Ascending(order) && file == Some([CountItem(|index|)] + Pairs(order, index))
    {
      saveTimerActive := false;
      SaveNow(writable);
    }

    /** The destructor flushes a pending save. */
    method Destroy(writable: bool)
      modifies this`saveTimerActive, this`file
      ensures !saveTimerActive
      ensures !old(saveTimerActive) || !writable ==> file == old(file)
      ensures old(saveTimerActive) && writable ==>
        exists order :: Enumerates(order, index.Keys) && Ascending(order) && file == Some([CountItem(|index|)] + Pairs(order, index))
    {
      if saveTimerActive {
        saveTimerActive := false;
        SaveNow(writable);
      }
    }

    /** getCapeImage: the cached image, or the (null) placeholder for an unknown id. */
    function GetCapeImage(uuid: string): (img: Image)
      reads this
      ensures uuid in index ==> img == index[uuid].image
      ensures uuid !in index ==> img == NullImage
    {
      if uuid in index then index[uuid].image else NullImage
    }

    /** addCapeImage: a cached id is ignored; otherwise the request joins the queue and
        the next download is considered. */
    method AddCapeImage(uuid: string, url: string)
      modifies this`requests, this`download, this`events
      requires Valid()
      ensures Valid()
      ensures uuid in index ==> requests == old(requests) && download == old(download) && events == old(events)
      ensures uuid !in index ==> NextStarted(old(requests) + [CapeRequest(uuid, url)], old(download), old(events))
    {
      if uuid in index {
        return;
      }
      requests := requests + [CapeRequest(uuid, url)];
      GetNext();
    }

    /** The state getNext leaves from `queue`, `job` and `log`: nothing changes while a
        download runs; otherwise the cached heads are dropped and, if a request remains,
        a download for the new head starts. */
    predicate NextStarted(queue: seq<CapeRequest>, job: Option<CapeRequest>, log: seq<CacheEvent>)
      reads this
    {
      if job.Some? then requests == queue && download == job && events == log
      else
        var rest := DropCached(queue, index);
        requests == rest &&
        (rest == [] ==> download.None? && events == log) &&
        (rest != [] ==> download == Some(rest[0]) && events == log + [DownloadStarted(rest[0])])
    }

    /** getNext. */
    method GetNext()
      modifies this`requests, this`download, this`events
      requires Decoded(index, decode)
      requires download.Some? ==> requests != [] && requests[0] == download.value && download.value.uuid !in index
      ensures Valid()
      ensures NextStarted(old(requests), old(download), old(events))
    {
      if download.Some? {
        return;
      }
      var queue := requests;
      while queue != [] && queue[0].uuid in index
        invariant DropCached(queue, index) == DropCached(requests, index)
        decreases |queue|
      {
        queue := queue[1..];
      }
      requests := queue;
      if queue == [] {
        return;
      }
      download := Some(queue[0]);
      events := events + [DownloadStarted(queue[0])];
    }

    /** requestFinished: the download ends, its request leaves the queue, its bytes are
        cached (even when they do not decode), a save is scheduled, capeReady is emitted
        and the next download is considered. */
    method RequestFinished(response: seq<byte>)
      modifies this`download, this`requests, this`index, this`saveTimerActive, this`events
      requires Valid() && download.Some?
      ensures Valid()
      ensures var served := old(requests[0]);
        index == old(index)[served.uuid := IndexEntry(decode(response), response)] &&
        saveTimerActive &&
        NextStarted(old(requests[1..]), None, old(events) + [CapeReady(served.uuid)])
    {
      download := None;
      var request := requests[0];
      requests := requests[1..];
      index := index[request.uuid := IndexEntry(decode(response), response)];
      SaveLater();
      events := events + [CapeReady(request.uuid)];
      ghost var queue, log := requests, events;
      GetNext();
      assert NextStarted(queue, None, log);
    }

    /** requestFailed: the download ends and its request leaves the queue; the index is
        untouched. */
    method RequestFailed()
      modifies this`requests, this`download, this`events
      requires Valid() && download.Some?
      ensures Valid()
      ensures NextStarted(old(requests[1..]), None, old(events))
    {
      requests := requests[1..];
      download := None;
      ghost var queue, log := requests, events;
      GetNext();
      assert NextStarted(queue, None, log);
    }
  }

  lemma {:induction false} PairsAppend(order: seq<string>, k: string, index: map<string, IndexEntry>)
    requires forall x :: x in order ==> x in index
    requires k in index
    ensures Pairs(order + [k], index) == Pairs(order, index) + [UuidItem(k), DataItem(index[k].rawData)]
  {
    if order != [] {
      assert (order + [k])[1..] == order[1..] + [k];
      PairsAppend(order[1..], k, index);
    } else {
      assert order + [k] == [k];
    }
  }
}
