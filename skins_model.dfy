/** The list of skins offered to the player (SkinsModel): the built-in skins, then one
    entry per valid texture file of the skins folder, with an index from skin name to
    row, a set of names whose removal is pending and the folder sync that keeps the list
    in step with the files. */
module SkinLibrary {
  import opened Common
  import opened Imaging
  import opened Skins
  import SkinUtils
  import Paths

  /** The signals the model emits itself (Qt's row notifications are not modelled). */
  datatype SkinsEvent = ListUpdated | SkinUpdated(key: string) | DataChanged(row: int)

  /** The built-in skins, in the order the constructor adds them. */
  const DefaultSkinNames: seq<string> :=
    ["Steve", "Alex", "Ari", "Efe", "Kai", "Makena", "Noor", "Sunny", "Zuri"]

  /** The resource holding one variant of a built-in skin. */
  function ResourcePath(name: string, variant: string): string {
    ":/skins/textures/" + name + "_" + variant + ".png"
  }

  /** The entry of the built-in skin `name`, from its two resources. */
  function BuiltInEntry(name: string, resources: string -> seq<byte>, codec: SkinUtils.SkinCodec): (e: SkinEntry)
    ensures e.internal && e.name == name
  {
    ResourceEntry(name, resources(ResourcePath(name, "Slim")), resources(ResourcePath(name, "Classic")), codec)
  }

  /** The entries of the built-in skins `names`, in order. */
  function BuiltIns(names: seq<string>, resources: string -> seq<byte>, codec: SkinUtils.SkinCodec): (r: seq<SkinEntry>)
    ensures |r| == |names|
    decreases |names|
  {
    if |names| == 0 then []
    else BuiltIns(names[..|names| - 1], resources, codec) + [BuiltInEntry(names[|names| - 1], resources, codec)]
  }

  lemma {:induction false} BuiltInsAt(names: seq<string>, resources: string -> seq<byte>, codec: SkinUtils.SkinCodec)
    ensures forall i :: 0 <= i < |names| ==> BuiltIns(names, resources, codec)[i] == BuiltInEntry(names[i], resources, codec)
    decreases |names|
  {
    if |names| > 0 {
      var p := names[..|names| - 1];
      BuiltInsAt(p, resources, codec);
      forall i | 0 <= i < |p|
        ensures names[i] == p[i]
      {
      }
    }
  }

  lemma FilesAfterBuiltIns(builtIn: seq<SkinEntry>, added: seq<SkinEntry>, s: seq<SkinEntry>)
    requires s == builtIn + added && forall i :: 0 <= i < |added| ==> !added[i].internal
    ensures s[..|builtIn|] == builtIn && forall i :: |builtIn| <= i < |s| ==> !s[i].internal
  {
    forall i | |builtIn| <= i < |s|
      ensures !s[i].internal
    {
      assert s[i] == added[i - |builtIn|];
    }
  }

  /** The built-in entries show no file. */
  lemma BuiltInsAreInternal(names: seq<string>, resources: string -> seq<byte>, codec: SkinUtils.SkinCodec)
    ensures ShownFiles(BuiltIns(names, resources, codec)) == {}
  {
    BuiltInsAt(names, resources, codec);
  }

  /** A path inside a directory (FS::PathCombine, joining with one '/'). */
  function Combine(dir: string, name: string): string {
    dir + "/" + name
  }

  /** The index reindex builds: each name maps to the row it was last seen at. */
  function NameIndex(s: seq<SkinEntry>): map<string, int>
    decreases |s|
  {
    if |s| == 0 then map[] else NameIndex(s[..|s| - 1])[s[|s| - 1].name := |s| - 1]
  }

  /** A name is indexed iff some entry carries it, and then it leads to the last entry
      that does. */
  lemma {:induction false} NameIndexAt(s: seq<SkinEntry>, k: string)
    ensures k in NameIndex(s) <==> exists i :: 0 <= i < |s| && s[i].name == k
    ensures k in NameIndex(s) ==>
      var r := NameIndex(s)[k];
      0 <= r < |s| && s[r].name == k && forall j :: r < j < |s| ==> s[j].name != k
    decreases |s|
  {
    if |s| > 0 {
      var p := s[..|s| - 1];
      NameIndexAt(p, k);
      if s[|s| - 1].name != k {
        if k in NameIndex(s) {
          var i :| 0 <= i < |p| && p[i].name == k;
          assert s[i].name == k;
        }
        if exists i :: 0 <= i < |s| && s[i].name == k {
          var i :| 0 <= i < |s| && s[i].name == k;
          assert p[i].name == k;
        }
      }
    }
  }

  /** With distinct names, the index leads every entry's name back to its own row. */
  lemma NameIndexFindsEveryRow(s: seq<SkinEntry>, i: int)
    requires forall a, b :: 0 <= a < b < |s| ==> s[a].name != s[b].name
    requires 0 <= i < |s|
    ensures s[i].name in NameIndex(s) && NameIndex(s)[s[i].name] == i
  {
    NameIndexAt(s, s[i].name);
  }

  /** Replacing an entry by one with the same name leaves the index as it was. */
  lemma {:induction false} NameIndexReplace(s: seq<SkinEntry>, row: int, e: SkinEntry)
    requires 0 <= row < |s| && s[row].name == e.name
    ensures NameIndex(s[row := e]) == NameIndex(s)
    decreases |s|
  {
    var t := s[row := e];
    if row == |s| - 1 {
      assert t[..|t| - 1] == s[..|s| - 1];
    } else {
      assert t[..|t| - 1] == s[..|s| - 1][row := e];
      NameIndexReplace(s[..|s| - 1], row, e);
    }
  }

  ghost predicate AllWellBuilt(s: seq<SkinEntry>) {
    forall i :: 0 <= i < |s| ==> s[i].WellBuilt()
  }

  /** `s` without the last entry named `name`, if there is one: what looking the name up
      and removing that row does while the index is current. */
  function RemoveLastNamed(s: seq<SkinEntry>, name: string): (r: seq<SkinEntry>)
    ensures |r| == |s| - (if name in NameIndex(s) then 1 else 0)
    ensures AllWellBuilt(s) ==> AllWellBuilt(r)
  {
    NameIndexAt(s, name);
    if name in NameIndex(s) then
      var row := NameIndex(s)[name];
      s[..row] + s[row + 1..]
    else s
  }

  /** Removing by name drops exactly the last entry with that name, keeping the others in
      order, and changes nothing when no entry carries it. */
  lemma RemoveLastNamedDropsLast(s: seq<SkinEntry>, name: string)
    ensures (forall i :: 0 <= i < |s| ==> s[i].name != name) ==> RemoveLastNamed(s, name) == s
    ensures (exists i :: 0 <= i < |s| && s[i].name == name) ==>
      exists k :: 0 <= k < |s| && s[k].name == name && (forall j :: k < j < |s| ==> s[j].name != name) &&
        RemoveLastNamed(s, name) == s[..k] + s[k + 1..]
  {
    NameIndexAt(s, name);
    if name in NameIndex(s) {
      var k := NameIndex(s)[name];
      assert s[k].name == name;
    }
  }

  /** The names removed one after the other, in `names` order. */
  function RemoveEach(s: seq<SkinEntry>, names: seq<string>): (r: seq<SkinEntry>)
    ensures |r| <= |s|
    ensures AllWellBuilt(s) ==> AllWellBuilt(r)
    decreases |names|
  {
    if |names| == 0 then s else RemoveLastNamed(RemoveEach(s, names[..|names| - 1]), names[|names| - 1])
  }

  lemma RemoveEachNextName(s: seq<SkinEntry>, names: seq<string>, i: int)
    requires 0 <= i < |names|
    ensures RemoveEach(s, names[..i + 1]) == RemoveLastNamed(RemoveEach(s, names[..i]), names[i])
  {
    assert names[..i + 1][..i] == names[..i];
  }

  lemma MoreUpdates(events: seq<SkinsEvent>, n: nat)
    ensures events + seq(n, _ => ListUpdated) + [ListUpdated] == events + seq(n + 1, _ => ListUpdated)
  {
  }

  /** The key an entry read from `path` carries. */
  function RemovalKeys(paths: seq<string>): (keys: seq<string>)
    ensures |keys| == |paths|
    ensures forall i :: 0 <= i < |paths| ==> keys[i] == Paths.CompleteBaseName(paths[i])
  {
    seq(|paths|, i requires 0 <= i < |paths| => Paths.CompleteBaseName(paths[i]))
  }

  /** The removal loop's step: the next file's key removed after the earlier ones. */
  lemma RemoveEachNext(s: seq<SkinEntry>, paths: seq<string>, i: int)
    requires 0 <= i < |paths|
    ensures RemoveEach(s, RemovalKeys(paths[..i + 1])) ==
      RemoveLastNamed(RemoveEach(s, RemovalKeys(paths[..i])), Paths.CompleteBaseName(paths[i]))
  {
    var keys := RemovalKeys(paths[..i + 1]);
    assert keys[..i] == RemovalKeys(paths[..i]);
  }

  /** The entry a valid texture file becomes, if it is valid. */
  function NewEntry(path: string, fs: map<string, SkinUtils.FileFacts>, codec: SkinUtils.SkinCodec): (r: seq<SkinEntry>)
    ensures |r| <= 1
    ensures |r| == 1 <==> SkinUtils.SkinFromFile(path, fs, codec).Some?
    ensures |r| == 1 ==>
      !r[0].internal && !r[0].IsNull() && r[0].WellBuilt() &&
      r[0].name == Paths.CompleteBaseName(path) && r[0].filename == path
  {
    match SkinUtils.SkinFromFile(path, fs, codec)
    case None => []
    case Some(f) => [FileEntry(Paths.CompleteBaseName(path), path, f.image, f.textureID, f.data)]
  }

  /** The entries the files in `paths` become, in order, invalid ones skipped. */
  function AddedEntries(paths: seq<string>, fs: map<string, SkinUtils.FileFacts>, codec: SkinUtils.SkinCodec)
    : (r: seq<SkinEntry>)
    ensures |r| <= |paths|
    ensures AllWellBuilt(r)
    decreases |paths|
  {
    if |paths| == 0 then []
    else AddedEntries(paths[..|paths| - 1], fs, codec) + NewEntry(paths[|paths| - 1], fs, codec)
  }

  /** The addition loop's step: one more path adds its entry, if any, at the end. */
  lemma AddedEntriesAppend(paths: seq<string>, p: string, fs: map<string, SkinUtils.FileFacts>,
                           codec: SkinUtils.SkinCodec)
    ensures AddedEntries(paths + [p], fs, codec) == AddedEntries(paths, fs, codec) + NewEntry(p, fs, codec)
  {
    assert (paths + [p])[..|paths|] == paths;
  }

  /** The addition loop's step, after the entries already in the list. */
  lemma AddedEntriesAfter(start: seq<SkinEntry>, paths: seq<string>, p: string,
                          fs: map<string, SkinUtils.FileFacts>, codec: SkinUtils.SkinCodec)
    ensures start + AddedEntries(paths + [p], fs, codec) == (start + AddedEntries(paths, fs, codec)) + NewEntry(p, fs, codec)
  {
    AddedEntriesAppend(paths, p, fs, codec);
  }

  /** No added entry is internal. */
  lemma AddedEntriesAreFiles(paths: seq<string>, fs: map<string, SkinUtils.FileFacts>, codec: SkinUtils.SkinCodec)
    ensures forall i :: 0 <= i < |AddedEntries(paths, fs, codec)| ==> !AddedEntries(paths, fs, codec)[i].internal
  {
    var added := AddedEntries(paths, fs, codec);
    forall i | 0 <= i < |added|
      ensures !added[i].internal
    {
      AddedEntriesComeFromValidFiles(paths, fs, codec, added[i]);
    }
  }

  /** Each added entry is a non-internal entry for one of the paths, read from a valid
      file and named by the file's complete base name. */
  lemma {:induction false} AddedEntriesComeFromValidFiles(paths: seq<string>, fs: map<string, SkinUtils.FileFacts>,
                                                          codec: SkinUtils.SkinCodec, e: SkinEntry)
    requires e in AddedEntries(paths, fs, codec)
    ensures !e.internal && e.filename in paths && e.name == Paths.CompleteBaseName(e.filename)
    ensures e in NewEntry(e.filename, fs, codec)
    decreases |paths|
  {
    var init, last := paths[..|paths| - 1], paths[|paths| - 1];
    var newOne := NewEntry(last, fs, codec);
    assert AddedEntries(paths, fs, codec) == AddedEntries(init, fs, codec) + newOne;
    if e in AddedEntries(init, fs, codec) {
      AddedEntriesComeFromValidFiles(init, fs, codec, e);
      var i :| 0 <= i < |init| && init[i] == e.filename;
      assert paths[i] == e.filename;
    } else {
      NewEntryFacts(last, fs, codec, e);
      assert paths[|paths| - 1] == e.filename;
    }
  }

  lemma NewEntryFacts(path: string, fs: map<string, SkinUtils.FileFacts>, codec: SkinUtils.SkinCodec, e: SkinEntry)
    requires e in NewEntry(path, fs, codec)
    ensures !e.internal && e.filename == path && e.name == Paths.CompleteBaseName(path)
  {
    assert e == NewEntry(path, fs, codec)[0];
  }

  /** Every valid file among the paths has its entry among the added ones. */
  lemma {:induction false} ValidFilesAreAdded(paths: seq<string>, fs: map<string, SkinUtils.FileFacts>,
                                              codec: SkinUtils.SkinCodec, p: string)
    requires p in paths && SkinUtils.SkinFromFile(p, fs, codec).Some?
    ensures exists e :: e in AddedEntries(paths, fs, codec) && e.filename == p && e.name == Paths.CompleteBaseName(p)
    decreases |paths|
  {
    var init, last := paths[..|paths| - 1], paths[|paths| - 1];
    var added := AddedEntries(paths, fs, codec);
    var newOne := NewEntry(last, fs, codec);
    assert added == AddedEntries(init, fs, codec) + newOne;
    var i :| 0 <= i < |paths| && paths[i] == p;
    if i == |paths| - 1 {
      assert |newOne| == 1;
      var e := newOne[0];
      assert e in added;
    } else {
      assert init[i] == p;
      ValidFilesAreAdded(init, fs, codec, p);
      var e :| e in AddedEntries(init, fs, codec) && e.filename == p && e.name == Paths.CompleteBaseName(p);
      assert e in added;
    }
  }

  /** The files of the folder listing that the sync considers: every listed file whose
      base name is not the name of a built-in skin. */
  function ListedFiles(dir: string, names: seq<string>, reserved: set<string>): set<string> {
    set n | n in names && Paths.BaseName(Combine(dir, n)) !in reserved :: Combine(dir, n)
  }

  /** The files the list currently shows: the filenames of its non-internal entries. */
  function ShownFiles(s: seq<SkinEntry>): set<string> {
    set e | e in s && !e.internal :: e.filename
  }

  /** The name installSkin tries at attempt `n`. */
  function CandidateKey(name: string, n: nat): string {
    if n == 0 then name else name + "_" + DecimalString(n)
  }

  /** Different attempts try different names. */
  lemma CandidateKeysDistinct(name: string, n: nat, m: nat)
    requires n != m
    ensures CandidateKey(name, n) != CandidateKey(name, m)
  {
    if n != 0 && m != 0 && CandidateKey(name, n) == CandidateKey(name, m) {
      var prefix := name + "_";
      assert CandidateKey(name, n)[|prefix|..] == DecimalString(n);
      assert CandidateKey(name, m)[|prefix|..] == DecimalString(m);
      DecimalStringInjective(n, m);
    }
  }

  /** The first attempt from `n` on, below 100, whose file does not exist yet. */
  function FirstFreeSlot(dir: string, name: string, fs: map<string, SkinUtils.FileFacts>, n: nat): (k: Option<nat>)
    ensures k.Some? ==> n <= k.value < 100 && Combine(dir, CandidateKey(name, k.value) + ".png") !in fs
    ensures k.Some? ==> forall m :: n <= m < k.value ==> Combine(dir, CandidateKey(name, m) + ".png") in fs
    ensures k.None? ==> forall m :: n <= m < 100 ==> Combine(dir, CandidateKey(name, m) + ".png") in fs
    decreases 100 - n
  {
    if n >= 100 then None
    else if Combine(dir, CandidateKey(name, n) + ".png") !in fs then Some(n)
    else FirstFreeSlot(dir, name, fs, n + 1)
  }

  class SkinsModel {
    var skins: seq<SkinEntry>
    var nameIndex: map<string, int>
    var toRemove: set<string>
    var reservedNames: set<string>
    var removalTimerActive: bool
    var dir: string
    var events: seq<SkinsEvent>

    /** The index is the one reindex would build, and every entry can answer the texture
        queries. */
    ghost predicate Valid()
      reads this
    {
      nameIndex == NameIndex(skins) && AllWellBuilt(skins)
    }

    /** The nine built-in skins, then whatever the folder holds. */
    constructor (path: string, files: Option<seq<string>>, fs: map<string, SkinUtils.FileFacts>,
                 codec: SkinUtils.SkinCodec, resources: string -> seq<byte>)
      ensures Valid()
      ensures reservedNames == Elems(DefaultSkinNames)
      ensures |skins| >= |DefaultSkinNames| && skins[..|DefaultSkinNames|] == BuiltIns(DefaultSkinNames, resources, codec)
      ensures forall i :: |DefaultSkinNames| <= i < |skins| ==> !skins[i].internal
      ensures toRemove == {} && !removalTimerActive && dir == path && events == (if |skins| > |DefaultSkinNames| then [ListUpdated] else [])
      ensures files.None? ==> skins == BuiltIns(DefaultSkinNames, resources, codec)
      ensures files.Some? ==> exists order ::
        Enumerates(order, ListedFiles(path, files.value, Elems(DefaultSkinNames))) &&
        skins == BuiltIns(DefaultSkinNames, resources, codec) + AddedEntries(order, fs, codec)
    {
      skins := [];
      nameIndex := map[];
      toRemove := {};
      reservedNames := {};
      removalTimerActive := false;
      dir := "";
      events := [];
      new;
      Populate(DefaultSkinNames, path, files, fs, codec, resources);
    }

    /** The constructor's work for the built-in skins `names`: they are added, then the
        folder is read as directoryChanged reads it. */
    method Populate(names: seq<string>, path: string, files: Option<seq<string>>, fs: map<string, SkinUtils.FileFacts>,
                    codec: SkinUtils.SkinCodec, resources: string -> seq<byte>)
      modifies this`skins, this`nameIndex, this`reservedNames, this`events, this`dir
      requires Valid() && skins == [] && reservedNames == {}
      ensures Valid()
      ensures reservedNames == Elems(names)
      ensures |skins| >= |names| && skins[..|names|] == BuiltIns(names, resources, codec)
      ensures forall i :: |names| <= i < |skins| ==> !skins[i].internal
      ensures dir == path && events == old(events) + (if |skins| > |names| then [ListUpdated] else [])
      ensures files.None? ==> skins == BuiltIns(names, resources, codec)
      ensures files.Some? ==> exists order ::
        Enumerates(order, ListedFiles(path, files.value, Elems(names))) &&
        skins == BuiltIns(names, resources, codec) + AddedEntries(order, fs, codec)
    {
      AddDefaultSkins(names, resources, codec);
      ghost var builtIn := skins;
      BuiltInsAreInternal(names, resources, codec);
      var removeOrder, addOrder := DirectoryChanged(path, files, fs, codec);
      ghost var added := AddedEntries(addOrder, fs, codec);
      assert skins == builtIn + added by {
        if files.Some? {
          assert ShownFiles(builtIn) - ListedFiles(path, files.value, reservedNames) == {};
          assert RemovalKeys(removeOrder) == [];
        } else {
          assert added == [];
        }
      }
      if files.Some? {
        // the built-in entries show no file, so every listed file is new
        assert ShownFiles(builtIn) == {};
        assert Enumerates(addOrder, ListedFiles(path, files.value, Elems(names)));
      }
      AddedEntriesAreFiles(addOrder, fs, codec);
      FilesAfterBuiltIns(builtIn, added, skins);
    }

    /** The constructor's first part: the built-in skins, each under its reserved name. */
    method AddDefaultSkins(names: seq<string>, resources: string -> seq<byte>, codec: SkinUtils.SkinCodec)
      modifies this`skins, this`nameIndex, this`reservedNames
      requires Valid() && skins == [] && reservedNames == {}
      ensures Valid() && skins == BuiltIns(names, resources, codec)
      ensures reservedNames == Elems(names)
    {
      for i := 0 to |names|
        invariant Valid() && skins == BuiltIns(names[..i], resources, codec)
        invariant reservedNames == Elems(names[..i])
      {
        var name := names[i];
        assert names[..i + 1][..i] == names[..i];
        AddDefaultSkin(name, ResourcePath(name, "Slim"), ResourcePath(name, "Classic"), resources, codec);
      }
      assert names[..|names|] == names;
    }

    /** addDefaultSkin: one more internal entry, its name reserved and indexed to it. */
    method AddDefaultSkin(name: string, slimPath: string, classicPath: string,
                          resources: string -> seq<byte>, codec: SkinUtils.SkinCodec)
      modifies this`skins, this`nameIndex, this`reservedNames
      requires Valid()
      ensures Valid()
      ensures skins == old(skins) + [ResourceEntry(name, resources(slimPath), resources(classicPath), codec)]
      ensures reservedNames == old(reservedNames) + {name}
      ensures nameIndex[name] == |old(skins)|
    {
      var index := |skins|;
      skins := skins + [ResourceEntry(name, resources(slimPath), resources(classicPath), codec)];
      reservedNames := reservedNames + {name};
      nameIndex := nameIndex[name := index];
      assert skins[..|skins| - 1] == old(skins);
    }

    /** at: the entry of a row, or the placeholder out of range. */
    function At(row: int): (e: SkinEntry)
      reads this
      ensures 0 <= row < |skins| ==> e == skins[row]
      ensures !(0 <= row < |skins|) ==> e == DefaultEntry() && e.IsNull()
    {
      if row < 0 || row >= |skins| then DefaultEntry() else skins[row]
    }

    /** getSkinIndex: -1 when no entry has the name, otherwise the last row that has it. */
    function GetSkinIndex(key: string): (r: int)
      reads this
      ensures Valid() ==> (r == -1 <==> forall i :: 0 <= i < |skins| ==> skins[i].name != key)
      ensures Valid() && r != -1 ==>
        0 <= r < |skins| && skins[r].name == key && forall j :: r < j < |skins| ==> skins[j].name != key
    {
      NameIndexAt(skins, key);
      if key in nameIndex then nameIndex[key] else -1
    }

    /** skinEntry: the entry with that name, or the placeholder when there is none. */
    function SkinEntryFor(key: string): (e: SkinEntry)
      reads this
      requires Valid()
      ensures e.WellBuilt()
      ensures (forall i :: 0 <= i < |skins| ==> skins[i].name != key) ==> e == DefaultEntry()
      ensures (exists i :: 0 <= i < |skins| && skins[i].name == key) ==> e.name == key && e in skins
      ensures GetSkinIndex(key) != -1 ==> e == skins[GetSkinIndex(key)]
    {
      NameIndexAt(skins, key);
      if key in nameIndex then skins[nameIndex[key]] else DefaultEntry()
    }

    /** skinEntryByTextureID: the first entry that has a variant with that texture id, or
        the placeholder. */
    method SkinEntryByTextureID(textureID: string) returns (entry: SkinEntry)
      ensures (forall i :: 0 <= i < |skins| ==> !MatchesId(skins[i], textureID)) ==> entry == DefaultEntry()
      ensures (exists i :: 0 <= i < |skins| && MatchesId(skins[i], textureID)) ==>
        exists i :: 0 <= i < |skins| && entry == skins[i] && MatchesId(skins[i], textureID) &&
          forall j :: 0 <= j < i ==> !MatchesId(skins[j], textureID)
    {
      var list := skins;
      for i := 0 to |list|
        invariant forall j :: 0 <= j < i ==> !MatchesId(list[j], textureID)
      {
        if MatchesId(list[i], textureID) {
          return list[i];
        }
      }
      return DefaultEntry();
    }

    /** reindex: rebuilds the index from the rows, later rows winning. */
    method Reindex()
      modifies this`nameIndex
      ensures nameIndex == NameIndex(skins)
    {
      nameIndex := map[];
      var list := skins;
      for i := 0 to |list|
        invariant nameIndex == NameIndex(list[..i])
      {
        assert list[..i + 1][..i] == list[..i];
        nameIndex := nameIndex[list[i].name := i];
      }
      assert list[..|list|] == list;
    }

    /** Looks a name up and removes its row, then rebuilds the index before anything
        else is looked up. */
    method RemoveNamed(name: string) returns (removed: bool)
      modifies this`skins, this`nameIndex
      requires Valid()
      ensures Valid()
      ensures skins == RemoveLastNamed(old(skins), name)
      ensures removed <==> |skins| < |old(skins)|
    {
      var row := GetSkinIndex(name);
      if row == -1 {
        return false;
      }
      skins := skins[..row] + skins[row + 1..];
      Reindex();
      removed := true;
    }

    /** scheduleRemoval: the name joins the pending set and the timer (re)starts. */
    method ScheduleRemoval(key: string)
      modifies this`toRemove, this`removalTimerActive
      ensures toRemove == old(toRemove) + {key} && removalTimerActive
    {
      toRemove := toRemove + {key};
      removalTimerActive := true;
    }

    /** cancelRemoval: reports whether the name was pending; the timer stops once nothing
        is pending. */
    method CancelRemoval(key: string) returns (wasPending: bool)
      modifies this`toRemove, this`removalTimerActive
      ensures wasPending <==> key in old(toRemove)
      ensures toRemove == old(toRemove) - {key}
      ensures removalTimerActive == (old(removalTimerActive) && toRemove != {})
    {
      wasPending := key in toRemove;
      toRemove := toRemove - {key};
      if toRemove == {} {
        removalTimerActive := false;
      }
    }

    /** removalTimerTriggered: every pending name that still has an entry loses it, with
        one list update per removal. The pending set is left as it is. */
    method RemovalTimerTriggered() returns (ghost order: seq<string>)
      modifies this`skins, this`nameIndex, this`events, this`removalTimerActive
      requires Valid()
      ensures Valid()
      ensures Enumerates(order, toRemove)
      ensures skins == RemoveEach(old(skins), order)
      ensures events == old(events) + seq(|old(skins)| - |skins|, _ => ListUpdated)
      ensures !removalTimerActive
    {
      removalTimerActive := false;
      var names := IterationOrder(toRemove);
      for i := 0 to |names|
        invariant Valid() && skins == RemoveEach(old(skins), names[..i])
        invariant events == old(events) + seq(|old(skins)| - |skins|, _ => ListUpdated)
        invariant !removalTimerActive
      {
        ghost var before := skins;
        var removed := RemoveNamed(names[i]);
        if removed {
          events := events + [ListUpdated];
          MoreUpdates(old(events), |old(skins)| - |before|);
        }
        RemoveEachNextName(old(skins), names, i);
      }
      assert names[..|names|] == names;
      order := names;
    }

    /** directoryChanged, with the removal loop corrected: the folder becomes `path`; when
        it is missing and cannot be made nothing else changes. Otherwise the shown files
        no longer listed lose their entries (looked up by complete base name and removed
        with the index rebuilt each time), then each listed file not yet shown is added
        if it is a valid skin; one list update follows any change. `files` is the
        folder's file names in name order. */
    method DirectoryChanged(path: string, files: Option<seq<string>>, fs: map<string, SkinUtils.FileFacts>,
                            codec: SkinUtils.SkinCodec)
      returns (ghost removeOrder: seq<string>, ghost addOrder: seq<string>)
      modifies this`skins, this`nameIndex, this`events, this`dir
      requires Valid()
      ensures Valid() && dir == path
      ensures files.None? ==> skins == old(skins) && events == old(events) && removeOrder == [] && addOrder == []
      ensures files.Some? ==>
        var listed := ListedFiles(path, files.value, reservedNames);
        var shown := ShownFiles(old(skins));
        Enumerates(removeOrder, shown - listed) && Enumerates(addOrder, listed - shown) &&
        |removeOrder| == |shown - listed| && |addOrder| == |listed - shown|
      ensures files.Some? ==>
        var kept := RemoveEach(old(skins), RemovalKeys(removeOrder));
        var added := AddedEntries(addOrder, fs, codec);
        skins == kept + added &&
        events == old(events) + (if |kept| < |old(skins)| || |added| > 0 then [ListUpdated] else [])
    {
      dir := path;
      removeOrder, addOrder := [], [];
      if files.None? {
        return;
      }
      var listed := ListFiles(files.value);
      var shown := CurrentFiles();
      removeOrder, addOrder := ApplyDiff(shown - listed, listed - shown, fs, codec);
    }

    /** The two loops of directoryChanged over the hash sets it computed: the files in
        `gone` lose their entries, then the files in `unseen` are added, each set in its
        iteration order; one list update follows any change. */
    method ApplyDiff(gone: set<string>, unseen: set<string>, fs: map<string, SkinUtils.FileFacts>,
                     codec: SkinUtils.SkinCodec)
      returns (ghost removeOrder: seq<string>, ghost addOrder: seq<string>)
      modifies this`skins, this`nameIndex, this`events
      requires Valid()
      ensures Valid()
      ensures Enumerates(removeOrder, gone) && Enumerates(addOrder, unseen) &&
        |removeOrder| == |gone| && |addOrder| == |unseen|
      ensures var kept := RemoveEach(old(skins), RemovalKeys(removeOrder));
        var added := AddedEntries(addOrder, fs, codec);
        skins == kept + added &&
        events == old(events) + (if |kept| < |old(skins)| || |added| > 0 then [ListUpdated] else [])
    {
      var toRemove := IterationOrder(gone);
      var removed := RemoveFiles(toRemove);
      var toAdd := IterationOrder(unseen);
      var added := AddFiles(toAdd, fs, codec);
      removeOrder, addOrder := toRemove, toAdd;
      if removed || added {
        events := events + [ListUpdated];
      }
    }

    /** The new-set loop of directoryChanged: the listed files, as paths in the folder,
        whose base name is not reserved. */
    method ListFiles(names: seq<string>) returns (listed: set<string>)
      ensures listed == ListedFiles(dir, names, reservedNames)
    {
      listed := {};
      for i := 0 to |names|
        invariant listed == ListedFiles(dir, names[..i], reservedNames)
      {
        var file := Combine(dir, names[i]);
        assert names[..i + 1] == names[..i] + [names[i]];
        if Paths.BaseName(file) !in reservedNames {
          listed := listed + {file};
        }
      }
      assert names[..|names|] == names;
    }

    /** The current-set loop of directoryChanged: the filenames of the non-internal
        entries. */
    method CurrentFiles() returns (shown: set<string>)
      ensures shown == ShownFiles(skins)
    {
      shown := {};
      var list := skins;
      for i := 0 to |list|
        invariant shown == ShownFiles(list[..i])
      {
        assert list[..i + 1] == list[..i] + [list[i]];
        if !list[i].internal {
          shown := shown + {list[i].filename};
        }
      }
      assert list[..|list|] == list;
    }

    /** The removal loop of directoryChanged, corrected: each file's key is looked up and
        its row removed, the index rebuilt each time. */
    method RemoveFiles(order: seq<string>) returns (removed: bool)
      modifies this`skins, this`nameIndex
      requires Valid()
      ensures Valid()
      ensures skins == RemoveEach(old(skins), RemovalKeys(order))
      ensures removed <==> |skins| < |old(skins)|
    {
      removed := false;
      for i := 0 to |order|
        invariant Valid() && skins == RemoveEach(old(skins), RemovalKeys(order[..i]))
        invariant removed <==> |skins| < |old(skins)|
      {
        var key := Paths.CompleteBaseName(order[i]);
        RemoveEachNext(old(skins), order, i);
        var r := RemoveNamed(key);
        removed := removed || r;
      }
      assert order[..|order|] == order;
    }

    /** The addition loop of directoryChanged: each valid file is appended as an entry
        named by its complete base name, and the name indexed to it. */
    method AddFiles(order: seq<string>, fs: map<string, SkinUtils.FileFacts>, codec: SkinUtils.SkinCodec)
      returns (added: bool)
      modifies this`skins, this`nameIndex
      requires Valid()
      ensures Valid()
      ensures skins == old(skins) + AddedEntries(order, fs, codec)
      ensures added <==> |AddedEntries(order, fs, codec)| > 0
    {
      added := false;
      ghost var start := skins;
      for i := 0 to |order|
        invariant Valid() && skins == start + AddedEntries(order[..i], fs, codec)
        invariant added <==> |skins| > |start|
      {
        assert order[..i + 1] == order[..i] + [order[i]];
        AddedEntriesAfter(start, order[..i], order[i], fs, codec);
        var ok := AddFile(order[i], fs, codec);
        added := added || ok;
      }
      assert order[..|order|] == order;
    }

    /** One step of the addition loop: the file's entry, if it is valid, at the end. */
    method AddFile(file: string, fs: map<string, SkinUtils.FileFacts>, codec: SkinUtils.SkinCodec)
      returns (ok: bool)
      modifies this`skins, this`nameIndex
      requires Valid()
      ensures Valid() && skins == old(skins) + NewEntry(file, fs, codec)
      ensures ok <==> |NewEntry(file, fs, codec)| > 0
    {
      var entries := NewEntry(file, fs, codec);
      ok := |entries| > 0;
      if ok {
        AppendEntry(entries[0]);
        assert entries == [entries[0]];
      } else {
        assert entries == [];
      }
    }

    /** One more entry at the end, its name indexed to it. */
    method AppendEntry(entry: SkinEntry)
      modifies this`skins, this`nameIndex
      requires Valid() && entry.WellBuilt()
      ensures Valid()
      ensures skins == old(skins) + [entry]
      ensures nameIndex == old(nameIndex)[entry.name := |old(skins)|]
    {
      ghost var before := skins;
      nameIndex := nameIndex[entry.name := |skins|];
      skins := skins + [entry];
      assert skins[..|skins| - 1] == before;
    }

    /** fileChanged: a valid file cancels the pending removal of its key and replaces the
        entry with that name in place (or is appended when there is none); an invalid one
        schedules the removal of its key's entry, if there is one. */
    method FileChanged(path: string, fs: map<string, SkinUtils.FileFacts>, codec: SkinUtils.SkinCodec)
      modifies this`skins, this`nameIndex, this`events, this`toRemove, this`removalTimerActive
      requires Valid()
      ensures Valid()
      ensures var key := Paths.CompleteBaseName(path);
        match SkinUtils.SkinFromFile(path, fs, codec)
        case Some(f) =>
          var entry := FileEntry(key, path, f.image, f.textureID, f.data);
          toRemove == old(toRemove) - {key} &&
          removalTimerActive == (old(removalTimerActive) && toRemove != {}) &&
          (if key in old(nameIndex) then
             var row := old(nameIndex)[key];
             0 <= row < |old(skins)| && skins == old(skins)[row := entry] &&
             events == old(events) + [DataChanged(row), SkinUpdated(key), ListUpdated]
           else
             skins == old(skins) + [entry] && events == old(events) + [ListUpdated])
        case None =>
          skins == old(skins) && events == old(events) &&
          toRemove == (if key in old(nameIndex) then old(toRemove) + {key} else old(toRemove)) &&
          (key in old(nameIndex) ==> removalTimerActive) &&
          (key !in old(nameIndex) ==> removalTimerActive == old(removalTimerActive))
    {
      var key, result := SkinUtils.ReadSkinFromFile(path, fs, codec);
      if result.Some? {
        var _ := CancelRemoval(key);
        var entry := FileEntry(key, path, result.value.image, result.value.textureID, result.value.data);
        PutEntry(entry);
      } else {
        var row := GetSkinIndex(key);
        NameIndexAt(skins, key);
        if row != -1 {
          ScheduleRemoval(key);
        }
      }
    }

    /** The valid-file half of fileChanged: the entry replaces the row its name is indexed
        to, or is appended and indexed when the name is new. */
    method PutEntry(entry: SkinEntry)
      modifies this`skins, this`nameIndex, this`events
      requires Valid() && entry.WellBuilt()
      ensures Valid()
      ensures entry.name in old(nameIndex) ==>
        var row := old(nameIndex)[entry.name];
        0 <= row < |old(skins)| && skins == old(skins)[row := entry] &&
        events == old(events) + [DataChanged(row), SkinUpdated(entry.name), ListUpdated]
      ensures entry.name !in old(nameIndex) ==>
        skins == old(skins) + [entry] && events == old(events) + [ListUpdated]
    {
      var key := entry.name;
      NameIndexAt(skins, key);
      var row := GetSkinIndex(key);
      ghost var before := skins;
      if row != -1 {
        NameIndexReplace(before, row, entry);
        skins := skins[row := entry];
        assert AllWellBuilt(skins) by {
          forall i | 0 <= i < |skins|
            ensures skins[i].WellBuilt()
          {
            if i != row {
              assert skins[i] == before[i];
            }
          }
        }
        events := events + [DataChanged(row), SkinUpdated(key), ListUpdated];
      } else {
        row := |skins|;
        AppendEntry(entry);
        events := events + [ListUpdated];
      }
    }

    /** The name search of installSkin: `name`, then `name_1` up to `name_99`, until one
        whose file in the directory does not exist; none when all hundred exist. */
    method FindFreeSlot(playerName: string, fs: map<string, SkinUtils.FileFacts>)
      returns (slot: Option<nat>, key: string, path: string)
      ensures slot == FirstFreeSlot(dir, playerName, fs, 0)
      ensures slot.Some? ==> key == CandidateKey(playerName, slot.value) && path == Combine(dir, key + ".png")
    {
      var num := 0;
      path, key := "", "";
      var found := false;
      while !found
        invariant 0 <= num <= 100
        invariant !found ==> FirstFreeSlot(dir, playerName, fs, 0) == FirstFreeSlot(dir, playerName, fs, num)
        invariant found ==>
          num >= 1 && FirstFreeSlot(dir, playerName, fs, 0) == Some(num - 1) &&
          key == CandidateKey(playerName, num - 1) && path == Combine(dir, key + ".png")
        decreases 100 - num, if found then 0 else 1
      {
        key := if num == 0 then playerName else playerName + "_" + DecimalString(num);
        if num >= 100 {
          return None, key, path;
        }
        num := num + 1;
        path := Combine(dir, key + ".png");
        found := path !in fs;
      }
      slot := Some(num - 1);
    }

    /** installSkin(data, playerName): the first of `name`, `name_1`, ..., `name_99`
        whose file does not exist yet names the skin; with all taken, or data that does
        not validate, or a write that does not commit, nothing changes and no row is
        given. Otherwise the new entry is appended and its row returned. */
    method InstallSkin(data: seq<byte>, playerName: string, fs: map<string, SkinUtils.FileFacts>,
                       codec: SkinUtils.SkinCodec, commitOk: bool)
      returns (row: Option<int>)
      modifies this`skins, this`nameIndex, this`events
      requires Valid()
      ensures Valid()
      ensures var slot := FirstFreeSlot(dir, playerName, fs, 0);
        if slot.Some? && SkinUtils.SkinFromData(data, codec).Some? && commitOk then
          var key := CandidateKey(playerName, slot.value);
          var read := SkinUtils.SkinFromData(data, codec).value;
          row == Some(|old(skins)|) &&
          skins == old(skins) + [FileEntry(key, Combine(dir, key + ".png"), read.image, read.textureID, data)] &&
          events == old(events) + [ListUpdated]
        else
          row.None? && skins == old(skins) && events == old(events)
    {
      var slot, key, path := FindFreeSlot(playerName, fs);
      if slot.None? {
        return None;
      }
      var read := SkinUtils.ReadSkinFromData(data, codec);
      if read.Some? && commitOk {
        var r := |skins|;
        AppendEntry(FileEntry(key, path, read.value.image, read.value.textureID, data));
        events := events + [ListUpdated];
        return Some(r);
      }
      return None;
    }
  }

  // The removal loops as written: directoryChanged and removalTimerTriggered look every
  // row up in the index built before the loop and rebuild it only afterwards, and
  // directoryChanged looks files up by base name (up to the first '.') while entries are
  // named by complete base name (up to the last '.').

  /** The removal loops as written: each key's row is taken from `index`, which is not
      updated while rows are removed. A row the list no longer has (QVector::remove out of
      range) leaves the list unchanged. */
  function StaleRemoval(s: seq<SkinEntry>, index: map<string, int>, keys: seq<string>): (r: seq<SkinEntry>)
    ensures |r| <= |s|
    decreases |keys|
  {
    if |keys| == 0 then s
    else
      var prev := StaleRemoval(s, index, keys[..|keys| - 1]);
      var k := keys[|keys| - 1];
      if k in index && 0 <= index[k] < |prev| then prev[..index[k]] + prev[index[k] + 1..] else prev
  }

  /** The keys directoryChanged as written looks removed files up by. */
  function BaseNameKeys(paths: seq<string>): (keys: seq<string>)
    ensures |keys| == |paths|
    ensures forall i :: 0 <= i < |paths| ==> keys[i] == Paths.BaseName(paths[i]) && '.' !in keys[i]
  {
    seq(|paths|, i requires 0 <= i < |paths| => Paths.BaseName(paths[i]))
  }

  function Entry(name: string, filename: string): SkinEntry {
    SkinEntry(false, name, filename, None, None, None)
  }

  /** The index of three entries named "a", "b" and "c". */
  lemma IndexOfThree(s: seq<SkinEntry>)
    requires |s| == 3 && s[0].name == "a" && s[1].name == "b" && s[2].name == "c"
    ensures NameIndex(s) == map["a" := 0, "b" := 1, "c" := 2]
  {
    var s1, s2 := s[..1], s[..2];
    assert s1[..0] == [];
    assert NameIndex(s1) == map["a" := 0];
    assert s2[..1] == s1;
    assert NameIndex(s2) == map["a" := 0, "b" := 1];
    assert s[..2] == s2;
  }

  /** Removing "a" then "b" from [a, b, c] through the stale index removes a and c and
      keeps b; rebuilding the index after each removal keeps only c. */
  lemma StaleIndexRemovesWrongEntry()
    ensures var s := [Entry("a", "d/a.png"), Entry("b", "d/b.png"), Entry("c", "d/c.png")];
      StaleRemoval(s, NameIndex(s), ["a", "b"]) == [s[1]] &&
      RemoveEach(s, ["a", "b"]) == [s[2]]
  {
    var s := [Entry("a", "d/a.png"), Entry("b", "d/b.png"), Entry("c", "d/c.png")];
    IndexOfThree(s);
    StaleRemovalOfThree(s);
    RemoveEachOfThree(s);
  }

  lemma StaleRemovalOfThree(s: seq<SkinEntry>)
    requires |s| == 3
    ensures StaleRemoval(s, map["a" := 0, "b" := 1, "c" := 2], ["a", "b"]) == [s[1]]
  {
    var index := map["a" := 0, "b" := 1, "c" := 2];
    assert ["a", "b"][..1] == ["a"];
    assert ["a"][..0] == [];
    var t := StaleRemoval(s, index, ["a"]);
    assert t == s[..0] + s[1..];
    assert t == [s[1], s[2]];
  }

  lemma RemoveEachOfThree(s: seq<SkinEntry>)
    requires |s| == 3 && s[0].name == "a" && s[1].name == "b" && s[2].name == "c"
    ensures RemoveEach(s, ["a", "b"]) == [s[2]]
  {
    RemoveEachOfTwo(s, "a", "b");
    var t := [s[1], s[2]];
    assert RemoveLastNamed(s, "a") == t by {
      RemoveNamedOfDistinct(s, 0);
      assert s[..0] + s[1..] == t;
    }
    assert RemoveLastNamed(t, "b") == [s[2]] by {
      RemoveNamedOfDistinct(t, 0);
      assert t[..0] + t[1..] == [s[2]];
    }
  }

  lemma RemoveEachOfTwo(s: seq<SkinEntry>, a: string, b: string)
    ensures RemoveEach(s, [a, b]) == RemoveLastNamed(RemoveLastNamed(s, a), b)
  {
    assert [a, b][..1] == [a];
    assert [a][..0] == [];
    assert RemoveEach(s, [a]) == RemoveLastNamed(s, a);
  }

  /** With distinct names, removing an entry's name removes that entry. */
  lemma RemoveNamedOfDistinct(s: seq<SkinEntry>, k: int)
    requires DistinctNames(s) && 0 <= k < |s|
    ensures RemoveLastNamed(s, s[k].name) == s[..k] + s[k + 1..]
  {
    RemoveLastNamedIsKeep(s, s[k].name);
    KeepDropsOnlyRow(s, s[k].name, k);
  }

  /** The names Qt derives from the path "d/my.skin.png". */
  lemma DottedPathNames()
    ensures Paths.CompleteBaseName("d/my.skin.png") == "my.skin"
    ensures Paths.BaseName("d/my.skin.png") == "my"
  {
    DottedFileName();
    DottedFileBaseNames();
  }

  lemma DottedFileName()
    ensures Paths.FileName("d/my.skin.png") == "my.skin.png"
  {
    var path := "d/my.skin.png";
    Paths.LastIndexAt(path, '/', 1);
    assert path[2..] == "my.skin.png";
  }

  lemma DottedFileBaseNames()
    ensures var f := "my.skin.png";
      f[..Paths.LastIndexOf(f, '.')] == "my.skin" && f[..Paths.FirstIndexOf(f, '.')] == "my"
  {
    var f := "my.skin.png";
    Paths.LastIndexAt(f, '.', 7);
    Paths.FirstIndexAt(f, '.', 2);
    assert f[..7] == "my.skin";
    assert f[..2] == "my";
  }

  /** A file whose base name differs from its complete base name keeps its entry through
      the removal as written; the complete base name removes it. */
  lemma BaseNameKeyMisses(path: string)
    requires Paths.BaseName(path) != Paths.CompleteBaseName(path)
    ensures var s := [Entry(Paths.CompleteBaseName(path), path)];
      StaleRemoval(s, NameIndex(s), BaseNameKeys([path])) == s &&
      RemoveEach(s, RemovalKeys([path])) == []
  {
    KeysOfOne(path);
    OneEntryRemoval(Entry(Paths.CompleteBaseName(path), path), Paths.BaseName(path));
  }

  lemma KeysOfOne(path: string)
    ensures BaseNameKeys([path]) == [Paths.BaseName(path)]
    ensures RemovalKeys([path]) == [Paths.CompleteBaseName(path)]
  {
  }

  /** The file "d/my.skin.png" is listed as "my.skin", but its removal looks up "my": the
      entry stays although its file is gone. */
  lemma BaseNameKeyMissesDottedName()
    ensures var path := "d/my.skin.png";
      var s := [Entry("my.skin", path)];
      Paths.CompleteBaseName(path) == "my.skin" &&
      StaleRemoval(s, NameIndex(s), BaseNameKeys([path])) == s &&
      RemoveEach(s, RemovalKeys([path])) == []
  {
    DottedPathNames();
    assert "my" != "my.skin" by {
      assert |"my"| != |"my.skin"|;
    }
    BaseNameKeyMisses("d/my.skin.png");
  }

  /** One entry: a key other than its name misses it, its name removes it. */
  lemma OneEntryRemoval(e: SkinEntry, other: string)
    requires other != e.name
    ensures StaleRemoval([e], NameIndex([e]), [other]) == [e]
    ensures RemoveEach([e], [e.name]) == []
  {
    assert [e][..0] == [];
    assert NameIndex([e]) == map[e.name := 0];
    assert [other][..0] == [];
    assert [e.name][..0] == [];
    RemoveNamedOfDistinct([e], 0);
  }

  /** No two entries share a name. */
  ghost predicate DistinctNames(s: seq<SkinEntry>) {
    forall a, b :: 0 <= a < b < |s| ==> s[a].name != s[b].name
  }

  /** The entries whose names are not in `names`, in order. */
  function Keep(s: seq<SkinEntry>, names: set<string>): (r: seq<SkinEntry>)
    ensures |r| <= |s|
    decreases |s|
  {
    if |s| == 0 then []
    else Keep(s[..|s| - 1], names) + (if s[|s| - 1].name in names then [] else [s[|s| - 1]])
  }

  /** The kept entries are the entries whose names are not in `names`. */
  lemma {:induction false} KeepMembers(s: seq<SkinEntry>, names: set<string>, e: SkinEntry)
    ensures e in Keep(s, names) <==> e in s && e.name !in names
    decreases |s|
  {
    if |s| > 0 {
      var p := s[..|s| - 1];
      KeepMembers(p, names, e);
      assert s == p + [s[|s| - 1]];
    }
  }

  /** Keeping everything when nothing carries one of the names. */
  lemma {:induction false} KeepNothingNamed(s: seq<SkinEntry>, names: set<string>)
    requires forall i :: 0 <= i < |s| ==> s[i].name !in names
    ensures Keep(s, names) == s
    decreases |s|
  {
    if |s| > 0 {
      KeepNothingNamed(s[..|s| - 1], names);
    }
  }

  /** With the only entry named `name` at `k`, keeping the others drops row `k`. */
  lemma {:induction false} KeepDropsOnlyRow(s: seq<SkinEntry>, name: string, k: int)
    requires 0 <= k < |s| && s[k].name == name
    requires forall j :: 0 <= j < |s| && j != k ==> s[j].name != name
    ensures Keep(s, {name}) == s[..k] + s[k + 1..]
    decreases |s|
  {
    var p := s[..|s| - 1];
    if k == |s| - 1 {
      KeepNothingNamed(p, {name});
    } else {
      KeepDropsOnlyRow(p, name, k);
      assert p[..k] + p[k + 1..] + [s[|s| - 1]] == s[..k] + s[k + 1..];
    }
  }

  /** Keeping twice is keeping once with both sets of names. */
  lemma {:induction false} KeepKeep(s: seq<SkinEntry>, a: set<string>, b: set<string>)
    ensures Keep(Keep(s, a), b) == Keep(s, a + b)
    decreases |s|
  {
    if |s| > 0 {
      var p, last := s[..|s| - 1], s[|s| - 1];
      KeepKeep(p, a, b);
      var tail := if last.name in a then [] else [last];
      var k := Keep(p, a) + tail;
      assert Keep(s, a) == k;
      if tail == [] {
        assert Keep(k, b) == Keep(Keep(p, a), b) by {
          assert k == Keep(p, a);
        }
      } else {
        assert k[..|k| - 1] == Keep(p, a);
      }
    }
  }

  /** Keeping preserves distinct names. */
  lemma {:induction false} KeepDistinct(s: seq<SkinEntry>, names: set<string>)
    requires DistinctNames(s)
    ensures DistinctNames(Keep(s, names))
    decreases |s|
  {
    if |s| > 0 {
      var p, last := s[..|s| - 1], s[|s| - 1];
      KeepDistinct(p, names);
      var k := Keep(p, names);
      if last.name !in names {
        forall i | 0 <= i < |k|
          ensures k[i].name != last.name
        {
          KeepMembers(p, names, k[i]);
          var j :| 0 <= j < |p| && p[j] == k[i];
        }
      }
    }
  }

  /** Removing by name, with the index rebuilt, removes exactly the entry with that name
      when names are distinct. */
  lemma RemoveLastNamedIsKeep(s: seq<SkinEntry>, name: string)
    requires DistinctNames(s)
    ensures RemoveLastNamed(s, name) == Keep(s, {name})
  {
    RemoveLastNamedDropsLast(s, name);
    if exists i :: 0 <= i < |s| && s[i].name == name {
      var k :| 0 <= k < |s| && s[k].name == name && (forall j :: k < j < |s| ==> s[j].name != name) &&
        RemoveLastNamed(s, name) == s[..k] + s[k + 1..];
      KeepDropsOnlyRow(s, name, k);
    } else {
      KeepNothingNamed(s, {name});
    }
  }

  /** The corrected removal loops: with distinct names, removing the keys one after the
      other in any order removes exactly the entries carrying one of them and keeps the
      others in order. */
  lemma {:induction false} RemoveEachIsKeep(s: seq<SkinEntry>, keys: seq<string>)
    requires DistinctNames(s)
    ensures RemoveEach(s, keys) == Keep(s, set k | k in keys)
    decreases |keys|
  {
    if |keys| == 0 {
      assert (set k | k in keys) == {};
      KeepNothingNamed(s, {});
    } else {
      var init, last := keys[..|keys| - 1], keys[|keys| - 1];
      RemoveEachIsKeep(s, init);
      var a := set k | k in init;
      KeepDistinct(s, a);
      RemoveLastNamedIsKeep(Keep(s, a), last);
      KeepKeep(s, a, {last});
      assert (set k | k in keys) == a + {last} by {
        forall k | k in keys
          ensures k in a + {last}
        {
          var i :| 0 <= i < |keys| && keys[i] == k;
          if i < |keys| - 1 {
            assert init[i] == k;
          }
        }
      }
    }
  }
}
