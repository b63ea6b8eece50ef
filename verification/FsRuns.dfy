/** Every run of AurionFS refines a map from path to bytes. */
module FsRuns {
  import opened CText
  import opened FsModel
  import opened Wrappers

  // ---- searching ----

  lemma {:induction false} EntryFound(table: seq<Entry>, path: string)
    ensures var i := FindEntry(table, path);
      && (i < |table| ==> Upper(table[i].name) == Upper(path))
      && (forall j | 0 <= j < i :: Upper(table[j].name) != Upper(path))
  {
    hide Upper;
    if table != [] && Upper(table[0].name) != Upper(path) {
      EntryFound(table[1..], path);
      assert forall j | 0 < j < |table| :: table[j] == table[1..][j - 1];
    }
  }

  lemma {:induction false} ContentFound(contents: seq<Content>, idx: nat)
    ensures var c := FindContent(contents, idx);
      && (c < |contents| ==> contents[c].idx == idx)
      && (forall d | 0 <= d < c :: contents[d].idx != idx)
  {
    if contents != [] && contents[0].idx != idx {
      ContentFound(contents[1..], idx);
      assert forall d | 0 < d < |contents| :: contents[d] == contents[1..][d - 1];
    }
  }

  /** Names of used entries do not change and none is added. */
  ghost predicate SameNames(a: Fs, b: Fs) {
    && |a.slots| == |b.slots| && a.count == b.count <= |a.slots| && a.dir == b.dir
    && forall i | 0 <= i < a.count :: a.slots[i].name == b.slots[i].name
  }

  // ---- one step of each kind ----

  lemma StoreKeeps(fs: Fs, i: nat, bytes: string)
    requires Sound(fs) && i < fs.count && |bytes| <= MAX_FILE_SIZE
    ensures var (rc, fs') := Store(fs, i, bytes);
      && Sound(fs') && SameNames(fs, fs')
      && (rc == 0 || rc == -1)
      && (rc == -1 <==> |fs.contents| >= MAX_CONTENTS && FindContent(fs.contents, i) == |fs.contents|)
  {
    hide FindContent;
    ContentFound(fs.contents, i);
  }

  lemma CreateKeeps(fs: Fs, e: Entry)
    requires Sound(fs) && fs.count < MAX_FILES && |e.name| <= NAME_MAX
    ensures Sound(Create(fs, e))
  {
  }

  // ---- the view ----

  lemma ViewEntries(fs: Fs, path: string)
    requires Sound(fs) && Unique(fs)
    ensures var i := FindEntry(Table(fs), path);
      && (i < fs.count <==> Upper(path) in ViewOf(fs).names)
      && (i < fs.count ==> Names(fs)[i] == Upper(path))
  {
    hide Upper, FindEntry, Names;
    EntryFound(Table(fs), path);
    assert forall j | 0 <= j < fs.count :: Table(fs)[j] == fs.slots[j];
    assert forall j | 0 <= j < fs.count :: Upper(Table(fs)[j].name) == Names(fs)[j];
  }

  lemma {:induction false} DistinctCounted(s: seq<string>)
    requires forall i, j | 0 <= i < j < |s| :: s[i] != s[j]
    ensures |set u | u in s| == |s|
  {
    if s != [] {
      var n := |s| - 1;
      DistinctCounted(s[..n]);
      var before := set u | u in s[..n];
      assert s[n] !in before;
      assert (set u | u in s) == before + {s[n]};
    }
  }

  /** The names that have bytes, in slot order. */
  ghost function Owners(fs: Fs): (names: seq<string>)
    requires Sound(fs)
    ensures |names| == |fs.contents|
    ensures forall c | 0 <= c < |names| :: names[c] == Names(fs)[fs.contents[c].idx]
  {
    seq(|fs.contents|, c requires 0 <= c < |fs.contents| => Names(fs)[fs.contents[c].idx])
  }

  lemma ViewCounts(fs: Fs)
    requires Sound(fs) && Unique(fs)
    ensures |ViewOf(fs).names| == fs.count && |ViewOf(fs).files| == |fs.contents|
    ensures ViewOf(fs).files.Keys <= ViewOf(fs).names
  {
    hide Names, Owners;
    DistinctCounted(Names(fs));
    forall c, d | 0 <= c < d < |fs.contents|
      ensures Owners(fs)[c] != Owners(fs)[d]
    {
      OwnersDiffer(fs, c, d);
    }
    DistinctCounted(Owners(fs));
    OwnersAreKeys(fs);
  }

  lemma OwnersDiffer(fs: Fs, c: nat, d: nat)
    requires Sound(fs) && Unique(fs) && c < d < |fs.contents|
    ensures Owners(fs)[c] != Owners(fs)[d]
  {
    hide Names, Owners;
    OneEntryOfName(fs, fs.contents[c].idx, fs.contents[d].idx);
  }

  lemma OneEntryOfName(fs: Fs, i: nat, j: nat)
    requires fs.count <= |fs.slots| && Unique(fs) && i < fs.count && j < fs.count
    ensures Names(fs)[i] == Names(fs)[j] ==> i == j
  {
    hide Names;
    if i < j {
      assert Names(fs)[i] != Names(fs)[j];
    } else if j < i {
      assert Names(fs)[j] != Names(fs)[i];
    }
  }

  lemma OwnersAreKeys(fs: Fs)
    requires Sound(fs) && Unique(fs)
    ensures ViewOf(fs).files.Keys == set u | u in Owners(fs)
    ensures ViewOf(fs).files.Keys <= ViewOf(fs).names
  {
    hide Names, Owners;
    var files := ViewOf(fs).files;
    forall u | u in Owners(fs)
      ensures u in files
    {
      var c :| 0 <= c < |Owners(fs)| && Owners(fs)[c] == u;
      assert Names(fs)[fs.contents[c].idx] in files;
    }
    forall u | u in files
      ensures u in Owners(fs) && u in ViewOf(fs).names
    {
      var c :| 0 <= c < |fs.contents| && Names(fs)[fs.contents[c].idx] == u;
      assert Owners(fs)[c] == u;
    }
  }

  lemma ViewFile(fs: Fs, c: nat)
    requires Sound(fs) && Unique(fs) && c < |fs.contents|
    ensures Owners(fs)[c] in ViewOf(fs).files && ViewOf(fs).files[Owners(fs)[c]] == fs.contents[c].data
  {
    hide Names, Owners;
    var u := Names(fs)[fs.contents[c].idx];
    assert u in ViewOf(fs).files;
    forall d | 0 <= d < |fs.contents| && Names(fs)[fs.contents[d].idx] == u
      ensures d == c
    {
      OneEntryOfName(fs, fs.contents[c].idx, fs.contents[d].idx);
    }
  }

  /** Loading a path is looking its name up in the view. */
  lemma ReadIsView(fs: Fs, path: string)
    requires Sound(fs) && Unique(fs)
    ensures ReadPath(fs, path) == ViewRead(ViewOf(fs), path)
  {
    hide Upper, FindEntry, FindContent, Names, Owners, ViewOf;
    ViewEntries(fs, path);
    OwnersAreKeys(fs);
    var i := FindEntry(Table(fs), path);
    ContentFound(fs.contents, i);
    var c := FindContent(fs.contents, i);
    if i < fs.count && c < |fs.contents| {
      assert Owners(fs)[c] == Upper(path);
      ViewFile(fs, c);
    } else {
      NoOwner(fs, path, i);
    }
  }

  /** The stored size of a path is that of its bytes in the view, 0 for a name without bytes, -1 for no name. */
  lemma StoredIsView(fs: Fs, name: string)
    requires Sound(fs) && Unique(fs)
    ensures var v, path := ViewOf(fs), Resolve(name, fs.dir);
      StoredBytes(fs, name) == if Upper(path) !in v.names then -1
                               else match ViewRead(v, path) case None => 0 case Some(data) => |data|
  {
    hide Upper, FindEntry, FindContent, Names, Owners, ViewOf, Resolve;
    var path := Resolve(name, fs.dir);
    ReadIsView(fs, path);
    ViewEntries(fs, path);
    ContentFound(fs.contents, FindEntry(Table(fs), path));
  }

  lemma NoOwner(fs: Fs, path: string, i: nat)
    requires Sound(fs) && Unique(fs) && i <= fs.count
    requires i < fs.count ==> Names(fs)[i] == Upper(path)
    requires i == fs.count ==> Upper(path) !in ViewOf(fs).names
    requires i < fs.count ==> forall d | 0 <= d < |fs.contents| :: fs.contents[d].idx != i
    ensures Upper(path) !in ViewOf(fs).files
  {
    hide Upper, Names, Owners, ViewOf;
    OwnersAreKeys(fs);
    forall d | 0 <= d < |fs.contents|
      ensures i < fs.count ==> Owners(fs)[d] != Upper(path)
    {
      if i < fs.count {
        OneEntryOfName(fs, fs.contents[d].idx, i);
      }
    }
  }

  // ---- how a step changes the view ----

  lemma CreateNames(fs: Fs, e: Entry)
    requires Sound(fs) && fs.count < MAX_FILES
    ensures Names(Create(fs, e)) == Names(fs) + [Upper(e.name)]
  {
    hide Upper;
  }

  lemma CreateView(fs: Fs, e: Entry, path: string)
    requires Sound(fs) && Unique(fs) && fs.count < MAX_FILES && |e.name| <= NAME_MAX && Upper(e.name) == Upper(path)
    requires Upper(path) !in ViewOf(fs).names
    ensures Sound(Create(fs, e)) && Unique(Create(fs, e))
    ensures ViewOf(Create(fs, e)) == ViewOf(fs).(names := ViewOf(fs).names + {Upper(path)})
  {
    hide Upper, Names;
    var fs' := Create(fs, e);
    CreateKeeps(fs, e);
    CreateNames(fs, e);
    assert Unique(fs') by {
      assert forall i | 0 <= i < fs.count :: Names(fs)[i] in ViewOf(fs).names;
    }
    SameOwnersSameFiles(fs, fs');
    assert ViewOf(fs').names == ViewOf(fs).names + {Upper(path)};
  }

  /** Slots that name the same owners with the same bytes give the same files. */
  lemma SameOwnersSameFiles(fs: Fs, fs': Fs)
    requires Sound(fs) && Unique(fs) && Sound(fs') && Unique(fs') && fs.contents == fs'.contents
    requires fs.count <= fs'.count && forall i | 0 <= i < fs.count :: Names(fs)[i] == Names(fs')[i]
    ensures ViewOf(fs).files == ViewOf(fs').files
  {
    hide Upper, Names, Owners, ViewOf;
    OwnersAreKeys(fs);
    OwnersAreKeys(fs');
    assert Owners(fs) == Owners(fs');
    forall u | u in ViewOf(fs).files
      ensures ViewOf(fs).files[u] == ViewOf(fs').files[u]
    {
      var c :| 0 <= c < |Owners(fs)| && Owners(fs)[c] == u;
      ViewFile(fs, c);
      ViewFile(fs', c);
    }
  }

  lemma SameNamesSameView(fs: Fs, fs': Fs)
    requires Sound(fs) && Unique(fs) && Sound(fs') && SameNames(fs, fs')
    ensures Unique(fs') && Names(fs) == Names(fs') && ViewOf(fs).names == ViewOf(fs').names
  {
    hide Upper, Names;
    assert forall i | 0 <= i < fs.count :: Names(fs)[i] == Names(fs')[i];
    assert Names(fs) == Names(fs');
  }

  lemma InRange(fs: Fs)
    requires Sound(fs)
    ensures fs.count <= |fs.slots| == MAX_FILES && |fs.contents| <= MAX_CONTENTS
  {
  }

  lemma DirIsFree(fs: Fs, dir: string)
    requires Sound(fs)
    ensures Sound(fs.(dir := dir))
  {
  }

  lemma StoreView(fs: Fs, i: nat, bytes: string)
    requires Sound(fs) && Unique(fs) && i < fs.count && |bytes| <= MAX_FILE_SIZE
    ensures var (rc, fs') := Store(fs, i, bytes);
      var u := Names(fs)[i];
      && Sound(fs') && Unique(fs') && SameNames(fs, fs')
      && ViewOf(fs') == (if rc == 0 then ViewOf(fs).(files := ViewOf(fs).files[u := bytes]) else ViewOf(fs))
      && rc == (if u !in ViewOf(fs).files && |ViewOf(fs).files| >= MAX_CONTENTS then -1 else 0)
  {
    hide Upper, Names, Owners, FindContent, Sound, Unique, ViewOf, Store;
    InRange(fs);
    var (rc, fs') := Store(fs, i, bytes);
    StoreKeeps(fs, i, bytes);
    SameNamesSameView(fs, fs');
    ContentFound(fs.contents, i);
    ViewCounts(fs);
    StoreCode(fs, i);
    StoreSlots(fs, i, bytes);
    if rc == 0 {
      StoreFiles(fs, i, bytes);
    } else {
      SameOwnersSameFiles(fs, fs');
    }
  }

  /** Whether entry i has a slot is whether its name has bytes. */
  lemma StoreCode(fs: Fs, i: nat)
    requires Sound(fs) && Unique(fs) && i < fs.count
    ensures FindContent(fs.contents, i) < |fs.contents| <==> Names(fs)[i] in ViewOf(fs).files
  {
    hide Upper, Names, Owners, FindContent, Unique, ViewOf;
    ContentFound(fs.contents, i);
    OwnersAreKeys(fs);
    var c := FindContent(fs.contents, i);
    if c < |fs.contents| {
      assert Owners(fs)[c] == Names(fs)[i];
    } else {
      forall d | 0 <= d < |fs.contents|
        ensures Owners(fs)[d] != Names(fs)[i]
      {
        OneEntryOfName(fs, fs.contents[d].idx, i);
      }
    }
  }

  lemma StoreSlots(fs: Fs, i: nat, bytes: string)
    requires Sound(fs) && i < fs.count
    ensures var (rc, fs') := Store(fs, i, bytes);
      var c := FindContent(fs.contents, i);
      && (rc == -1 ==> fs'.contents == fs.contents)
      && (rc == 0 ==> c < |fs'.contents| && |fs.contents| <= |fs'.contents| && fs'.contents[c] == Content(i, bytes))
      && (rc == 0 ==> |fs'.contents| <= if c < |fs.contents| then |fs.contents| else c + 1)
      && (forall d | 0 <= d < |fs.contents| && d != c :: fs'.contents[d] == fs.contents[d])
  {
    hide FindContent;
  }

  lemma StoreFiles(fs: Fs, i: nat, bytes: string)
    requires Sound(fs) && Unique(fs) && i < fs.count && |bytes| <= MAX_FILE_SIZE && Store(fs, i, bytes).0 == 0
    requires var fs' := Store(fs, i, bytes).1; Sound(fs') && Unique(fs') && Names(fs) == Names(fs')
    ensures ViewOf(Store(fs, i, bytes).1).files == ViewOf(fs).files[Names(fs)[i] := bytes]
  {
    hide Upper, Names, Owners, FindContent, Sound, Unique, ViewOf, Store;
    InRange(fs);
    var fs' := Store(fs, i, bytes).1;
    var c := FindContent(fs.contents, i);
    StoreSlots(fs, i, bytes);
    ContentFound(fs.contents, i);
    OwnersAreKeys(fs);
    OwnersAreKeys(fs');
    var u := Names(fs)[i];
    assert Owners(fs')[c] == u;
    ViewFile(fs', c);
    forall d | 0 <= d < |fs.contents| && d != c
      ensures Owners(fs')[d] == Owners(fs)[d] && ViewOf(fs').files[Owners(fs)[d]] == ViewOf(fs).files[Owners(fs)[d]]
    {
      ViewFile(fs, d);
      ViewFile(fs', d);
    }
    StoreKeys(fs, fs', c, u);
    forall v | v in ViewOf(fs').files && v != u
      ensures ViewOf(fs').files[v] == ViewOf(fs).files[v]
    {
      var d :| 0 <= d < |Owners(fs')| && Owners(fs')[d] == v;
    }
  }

  lemma StoreKeys(fs: Fs, fs': Fs, c: nat, u: string)
    requires Sound(fs) && Sound(fs') && c < |fs'.contents| && Owners(fs')[c] == u
    requires |fs.contents| <= |fs'.contents| <= if c < |fs.contents| then |fs.contents| else c + 1
    requires forall d | 0 <= d < |fs.contents| && d != c :: Owners(fs')[d] == Owners(fs)[d]
    requires c < |fs.contents| ==> Owners(fs)[c] == u
    requires c <= |fs.contents|
    ensures (set v | v in Owners(fs')) == (set v | v in Owners(fs)) + {u}
  {
    hide Owners, Sound;
    forall v | v in Owners(fs)
      ensures v in Owners(fs')
    {
      var d :| 0 <= d < |Owners(fs)| && Owners(fs)[d] == v;
      assert d == c || Owners(fs')[d] == v;
    }
    forall v | v in Owners(fs')
      ensures v in Owners(fs) || v == u
    {
      var d :| 0 <= d < |Owners(fs')| && Owners(fs')[d] == v;
      assert d == c || Owners(fs)[d] == v;
    }
  }

  // ---- runs ----

  datatype Op = SaveOp(name: string, data: string) | MkdirOp(name: string) | MkdirAbsOp(path: string) | TouchOp(name: string)

  function PathOf(op: Op, dir: string): string {
    match op
    case SaveOp(name, _) => Resolve(name, dir)
    case MkdirOp(name) => FullPath(name, dir)
    case MkdirAbsOp(path) => path
    case TouchOp(name) => FullPath(name, dir)
  }

  function Step(fs: Fs, op: Op): (int, Fs)
    requires Sound(fs)
  {
    match op
    case SaveOp(name, data) => Save(fs, name, data)
    case MkdirOp(name) => Mkdir(fs, name)
    case MkdirAbsOp(path) => MkdirAbs(fs, path)
    case TouchOp(name) => Touch(fs, name)
  }

  /** Arguments that are turned away before the table is looked at. */
  predicate Refused(op: Op) {
    match op
    case SaveOp(_, _) => false
    case MkdirOp(name) => name == ""
    case MkdirAbsOp(path) => !("/" <= path)
    case TouchOp(name) => name == ""
  }

  /** The same step on the abstract file system. */
  function ViewStep(v: View, op: Op, dir: string): (int, View) {
    var path := PathOf(op, dir);
    if Refused(op) then (-1, v)
    else match op
      case SaveOp(_, data) => ViewSave(v, path, data)
      case MkdirOp(_) => ViewAdd(v, path, -1, -1)
      case MkdirAbsOp(_) => ViewAdd(v, path, -2, -3)
      case TouchOp(_) => ViewAdd(v, path, -1, 0)
  }

  // ---- the names a step leaves ----

  predicate AddsEntry(fs: Fs, op: Op)
    requires Sound(fs)
  {
    !Refused(op) && fs.count < MAX_FILES && FindEntry(Table(fs), PathOf(op, fs.dir)) == fs.count
  }

  lemma StoreNames(fs: Fs, i: nat, bytes: string)
    requires Sound(fs) && i < fs.count && |bytes| <= MAX_FILE_SIZE
    ensures var fs' := Store(fs, i, bytes).1; Sound(fs') && fs'.dir == fs.dir && Names(fs') == Names(fs)
  {
    hide Upper, Store, Sound;
    InRange(fs);
    StoreKeeps(fs, i, bytes);
    assert Names(Store(fs, i, bytes).1) == Names(fs);
  }

  lemma SaveNames(fs: Fs, path: string, data: string)
    requires Sound(fs)
    ensures var fs' := SavePath(fs, path, data).1;
      && Sound(fs') && fs'.dir == fs.dir
      && Names(fs') == Names(fs) + if FindEntry(Table(fs), path) == fs.count < MAX_FILES then [StoredAs(path)] else []
  {
    hide Upper, Names, FindEntry, Sound, Store, Create, Take;
    InRange(fs);
    var i := FindEntry(Table(fs), path);
    var bytes := Take(data, MAX_FILE_SIZE);
    if i < fs.count {
      StoreNames(fs, i, bytes);
    } else if fs.count < MAX_FILES {
      var e := Entry(Take(path, NAME_MAX), 0, 0, 0, 0xFFFF);
      CreateKeeps(fs, e);
      CreateShape(fs, e);
      StoreNames(Create(fs, e), i, bytes);
    }
  }

  lemma MakeNames(fs: Fs, path: string, kind: nat, attr: nat)
    requires Sound(fs) && fs.count < MAX_FILES
    ensures var fs' := MakeEntry(fs, path, kind, attr);
      Sound(fs') && fs'.dir == fs.dir && Names(fs') == Names(fs) + [StoredAs(path)]
  {
    hide Upper, Names, Sound, Create, Take;
    InRange(fs);
    var e := Entry(Take(path, NAME_MAX), 0, kind, attr, fs.slots[fs.count].parent);
    CreateKeeps(fs, e);
    CreateShape(fs, e);
  }

  /** Every operation, on any path, keeps the tables sound and the names that were there, and adds at most the
      cut name of its path. */
  lemma StepNames(fs: Fs, op: Op)
    requires Sound(fs)
    ensures var fs' := Step(fs, op).1;
      && Sound(fs') && fs'.dir == fs.dir
      && Names(fs') == Names(fs) + if AddsEntry(fs, op) then [StoredAs(PathOf(op, fs.dir))] else []
  {
    hide Upper, Names, FindEntry, Sound, MakeEntry, SavePath, StoredAs, FullPath, Resolve;
    var path := PathOf(op, fs.dir);
    InRange(fs);
    if op.SaveOp? {
      SaveNames(fs, path, op.data);
    } else if AddsEntry(fs, op) {
      match op
      case TouchOp(_) => MakeNames(fs, path, 0, 0x20);
      case MkdirOp(_) => MakeNames(fs, path, 1, 0x10);
      case MkdirAbsOp(_) => MakeNames(fs, path, 1, 0x10);
      case SaveOp(_, _) =>
    }
  }

  /** One step keeps names unique exactly when it does not store its path, cut to the field, under a name in use. */
  lemma StepUnique(fs: Fs, op: Op)
    requires Sound(fs)
    ensures Sound(Step(fs, op).1)
    ensures Unique(Step(fs, op).1)
       <==> Unique(fs) && !(AddsEntry(fs, op) && StoredAs(PathOf(op, fs.dir)) in Names(fs))
  {
    hide Upper, Names, FindEntry, Sound, StoredAs, Step;
    InRange(fs);
    StepNames(fs, op);
    InRange(Step(fs, op).1);
    NamesGrow(fs, Step(fs, op).1);
  }

  lemma NamesGrow(fs: Fs, fs': Fs)
    requires fs.count <= |fs.slots| && fs'.count <= |fs'.slots| && fs.count <= fs'.count <= fs.count + 1
    requires Names(fs')[..fs.count] == Names(fs)
    ensures Unique(fs') <==> Unique(fs) && (fs'.count == fs.count || Names(fs')[fs.count] !in Names(fs))
  {
    hide Names;
    assert forall i | 0 <= i < fs.count :: Names(fs')[i] == Names(fs')[..fs.count][i];
  }

  /** A path that does not fit its field, with room in the table, keeps names unique exactly when its first 55
      characters are no name in use. */
  lemma LongPathUnique(fs: Fs, op: Op)
    requires Sound(fs) && Unique(fs) && |PathOf(op, fs.dir)| > NAME_MAX && fs.count < MAX_FILES && !Refused(op)
    ensures Sound(Step(fs, op).1)
    ensures Unique(Step(fs, op).1) <==> Upper(Take(PathOf(op, fs.dir), NAME_MAX)) !in Names(fs)
  {
    hide Upper, Names, FindEntry, Step, PathOf;
    LongNotFound(Table(fs), PathOf(op, fs.dir));
    StepUnique(fs, op);
  }

  lemma ViewNames(fs: Fs)
    requires Sound(fs) && Unique(fs)
    ensures forall u :: u in ViewOf(fs).names <==> u in Names(fs)
  {
    hide Names;
  }

  lemma TakeShort(path: string, n: nat)
    requires |path| <= n
    ensures Take(path, n) == path
  {
  }

  /** Saving the same long path twice leaves two entries of one name. */
  lemma LongPathBreaksUniqueness(fs: Fs, name: string, data: string)
    requires Sound(fs) && |Resolve(name, fs.dir)| > NAME_MAX && fs.count + 2 <= MAX_FILES
    ensures var fs1 := Save(fs, name, data).1; Sound(fs1) && Sound(Save(fs1, name, data).1) && !Unique(Save(fs1, name, data).1)
  {
    hide Upper, Names, FindEntry, Resolve, Sound, StoredAs, Save;
    var path := Resolve(name, fs.dir);
    var op := SaveOp(name, data);
    InRange(fs);
    AlwaysNew(fs, path);
    StepNames(fs, op);
    var fs1 := Save(fs, name, data).1;
    InRange(fs1);
    AlwaysNew(fs1, path);
    StepUnique(fs1, op);
    assert StoredAs(path) in Names(fs1);
  }

  lemma AlwaysNew(fs: Fs, path: string)
    requires Sound(fs) && |path| > NAME_MAX
    ensures FindEntry(Table(fs), path) == fs.count
  {
    hide FindEntry;
    LongNotFound(Table(fs), path);
  }

  // ---- refinement ----

  /** The step would store a cut path under a name in use. */
  predicate Collides(v: View, op: Op, dir: string) {
    var path := PathOf(op, dir);
    !Refused(op) && |v.names| < MAX_FILES && Upper(path) !in v.names && StoredAs(path) in v.names
  }

  /** Found paths fit their field. */
  lemma FoundIsStored(fs: Fs, path: string)
    requires Sound(fs) && FindEntry(Table(fs), path) < fs.count
    ensures |path| <= NAME_MAX && StoredAs(path) == Upper(path)
  {
    hide Upper, FindEntry;
    EntryIsShort(fs, path);
    TakeShort(path, NAME_MAX);
  }

  lemma SaveRefines(fs: Fs, path: string, data: string)
    requires Sound(fs) && Unique(fs)
    requires FindEntry(Table(fs), path) == fs.count < MAX_FILES ==> StoredAs(path) !in Names(fs)
    ensures var (rc, fs') := SavePath(fs, path, data);
      && Sound(fs') && Unique(fs') && (rc, ViewOf(fs')) == ViewSave(ViewOf(fs), path, data)
  {
    hide Upper, Names, FindEntry, Sound, Unique, ViewOf, Store, Create, Take, StoredAs;
    InRange(fs);
    ViewEntries(fs, path);
    ViewNames(fs);
    ViewCounts(fs);
    var i := FindEntry(Table(fs), path);
    var bytes := Take(data, MAX_FILE_SIZE);
    if i < fs.count {
      FoundIsStored(fs, path);
      StoreView(fs, i, bytes);
      assert ViewOf(fs).names + {Upper(path)} == ViewOf(fs).names;
    } else if fs.count < MAX_FILES {
      var e := Entry(Take(path, NAME_MAX), 0, 0, 0, 0xFFFF);
      assert StoredAs(path) == Upper(Take(path, NAME_MAX)) by { CutName(path); }
      CreateView(fs, e, Take(path, NAME_MAX));
      CreateShape(fs, e);
      StoreView(Create(fs, e), i, bytes);
    } else {
      FullTable(fs, path, i);
    }
  }

  lemma CutName(path: string)
    ensures StoredAs(path) == Upper(Take(path, NAME_MAX))
  {
  }

  lemma CreateShape(fs: Fs, e: Entry)
    requires Sound(fs) && fs.count < MAX_FILES
    ensures var fs' := Create(fs, e);
      && fs'.count == fs.count + 1 && fs'.dir == fs.dir && fs'.contents == fs.contents
      && Names(fs') == Names(fs) + [Upper(e.name)]
  {
    CreateNames(fs, e);
  }

  lemma FullTable(fs: Fs, path: string, i: nat)
    requires Sound(fs) && i == fs.count >= MAX_FILES
    ensures FindEntry(Table(fs), path) == i ==> forall data: string :: SavePath(fs, path, data) == (-1, fs)
  {
    hide FindEntry, Take, Store;
  }

  lemma AddRefines(fs: Fs, path: string, kind: nat, attr: nat)
    requires Sound(fs) && Unique(fs) && fs.count < MAX_FILES && StoredAs(path) !in Names(fs)
    ensures var fs' := MakeEntry(fs, path, kind, attr);
      && Sound(fs') && Unique(fs')
      && ViewOf(fs') == ViewOf(fs).(names := ViewOf(fs).names + {StoredAs(path)})
  {
    hide Upper, Names, Unique, ViewOf, Take;
    ViewNames(fs);
    CreateView(fs, Entry(Take(path, NAME_MAX), 0, kind, attr, fs.slots[fs.count].parent), Take(path, NAME_MAX));
  }

  lemma CollidesIff(fs: Fs, op: Op)
    requires Sound(fs) && Unique(fs)
    ensures Collides(ViewOf(fs), op, fs.dir) <==> AddsEntry(fs, op) && StoredAs(PathOf(op, fs.dir)) in Names(fs)
  {
    hide Upper, Names, FindEntry, Unique, ViewOf, PathOf, StoredAs, Sound;
    InRange(fs);
    ViewEntries(fs, PathOf(op, fs.dir));
    ViewNames(fs);
    ViewCounts(fs);
  }

  /** Every operation, on any path, keeps names unique exactly when it does not collide, and is then the abstract
      one with the same return code. */
  lemma StepRefines(fs: Fs, op: Op)
    requires Sound(fs) && Unique(fs)
    ensures var (rc, fs') := Step(fs, op);
      && Sound(fs') && fs'.dir == fs.dir && (Unique(fs') <==> !Collides(ViewOf(fs), op, fs.dir))
      && (Unique(fs') ==> (rc, ViewOf(fs')) == ViewStep(ViewOf(fs), op, fs.dir))
  {
    hide Upper, Names, FindEntry, Unique, ViewOf, FullPath, Resolve, MakeEntry, SavePath, Sound, StoredAs, Collides;
    InRange(fs);
    var path := PathOf(op, fs.dir);
    StepNames(fs, op);
    StepUnique(fs, op);
    CollidesIff(fs, op);
    ViewEntries(fs, path);
    ViewCounts(fs);
    InRange(Step(fs, op).1);
    if Unique(Step(fs, op).1) {
      if op.SaveOp? {
        SaveRefines(fs, path, op.data);
      } else if AddsEntry(fs, op) {
        match op
        case TouchOp(_) => AddRefines(fs, path, 0, 0x20);
        case MkdirOp(_) => AddRefines(fs, path, 1, 0x10);
        case MkdirAbsOp(_) => AddRefines(fs, path, 1, 0x10);
        case SaveOp(_, _) =>
      }
    }
  }

  /** A run of the concrete and of the abstract file system, with all return codes. */
  ghost function Run(fs: Fs, ops: seq<Op>): (seq<int>, Fs)
    requires Sound(fs)
    decreases |ops|
  {
    if ops == [] then ([], fs)
    else
      StepNames(fs, ops[0]);
      var (rc, fs1) := Step(fs, ops[0]);
      var (rcs, fs2) := Run(fs1, ops[1..]);
      ([rc] + rcs, fs2)
  }

  function ViewRun(v: View, ops: seq<Op>, dir: string): (seq<int>, View)
    decreases |ops|
  {
    if ops == [] then ([], v)
    else
      var (rc, v1) := ViewStep(v, ops[0], dir);
      var (rcs, v2) := ViewRun(v1, ops[1..], dir);
      ([rc] + rcs, v2)
  }

  /** No step of the abstract run collides. */
  predicate Clear(v: View, ops: seq<Op>, dir: string)
    decreases |ops|
  {
    ops == [] || (!Collides(v, ops[0], dir) && Clear(ViewStep(v, ops[0], dir).1, ops[1..], dir))
  }

  /** Over any run slots stay one-to-one; names end unique exactly when no step collides, and then the map and all
      return codes are those of the abstract run. */
  lemma {:induction false} RunRefines(fs: Fs, ops: seq<Op>)
    requires Sound(fs) && Unique(fs)
    ensures var (rcs, fs') := Run(fs, ops);
      && Sound(fs') && fs'.dir == fs.dir && (Unique(fs') <==> Clear(ViewOf(fs), ops, fs.dir))
      && (Unique(fs') ==> (rcs, ViewOf(fs')) == ViewRun(ViewOf(fs), ops, fs.dir))
    decreases |ops|
  {
    hide Sound, Unique, ViewOf, Step, ViewStep, Collides;
    if ops != [] {
      StepRefines(fs, ops[0]);
      var fs1 := Step(fs, ops[0]).1;
      InRange(fs1);
      if Unique(fs1) {
        RunRefines(fs1, ops[1..]);
      } else {
        StaysBroken(fs1, ops[1..]);
      }
    }
  }

  lemma {:induction false} StaysBroken(fs: Fs, ops: seq<Op>)
    requires Sound(fs) && !Unique(fs)
    ensures var fs' := Run(fs, ops).1; Sound(fs') && fs'.dir == fs.dir && !Unique(fs')
    decreases |ops|
  {
    hide Sound, Unique, Step;
    if ops != [] {
      StepNames(fs, ops[0]);
      StepUnique(fs, ops[0]);
      StaysBroken(Step(fs, ops[0]).1, ops[1..]);
    }
  }

  /** Paths of at most 55 characters never collide. */
  lemma {:induction false} ShortPathsClear(v: View, ops: seq<Op>, dir: string)
    requires forall k | 0 <= k < |ops| :: |PathOf(ops[k], dir)| <= NAME_MAX
    ensures Clear(v, ops, dir)
    decreases |ops|
  {
    hide Upper, PathOf, ViewStep;
    if ops != [] {
      TakeShort(PathOf(ops[0], dir), NAME_MAX);
      ShortPathsClear(ViewStep(v, ops[0], dir).1, ops[1..], dir);
    }
  }

  // ---- saving and loading ----

  lemma {:induction false} FirstEntryOnly(table: seq<Entry>, table': seq<Entry>, path: string)
    requires |table| == |table'| && forall j | 0 <= j < |table| :: table[j].name == table'[j].name
    ensures FindEntry(table, path) == FindEntry(table', path)
  {
    if table != [] {
      FirstEntryOnly(table[1..], table'[1..], path);
    }
  }

  lemma {:induction false} LongNotFound(table: seq<Entry>, path: string)
    requires |path| > NAME_MAX && forall j | 0 <= j < |table| :: |table[j].name| <= NAME_MAX
    ensures FindEntry(table, path) == |table|
  {
    if table != [] {
      assert |Upper(table[0].name)| < |Upper(path)|;
      LongNotFound(table[1..], path);
    }
  }

  lemma {:induction false} StoredFound(contents: seq<Content>, idx: nat, bytes: string)
    ensures var c := FindContent(contents, idx);
      var after := if c < |contents| then contents[c := Content(idx, bytes)] else contents + [Content(idx, bytes)];
      FindContent(after, idx) == c && c < |after| && after[c].data == bytes
  {
    var c := FindContent(contents, idx);
    var after := if c < |contents| then contents[c := Content(idx, bytes)] else contents + [Content(idx, bytes)];
    if contents != [] && contents[0].idx != idx {
      StoredFound(contents[1..], idx, bytes);
      assert after[1..] == if c < |contents| then contents[1..][c - 1 := Content(idx, bytes)] else contents[1..] + [Content(idx, bytes)];
    }
  }

  lemma {:induction false} AppendedFound(table: seq<Entry>, e: Entry, path: string)
    requires FindEntry(table, path) == |table| && Upper(e.name) == Upper(path)
    ensures FindEntry(table + [e], path) == |table|
  {
    if table != [] {
      assert (table + [e])[1..] == table[1..] + [e];
      AppendedFound(table[1..], e, path);
    }
  }

  /** A saved file reads back exactly when its path fits a table name. A longer path is stored cut, so
      no later lookup of the full path can find it. */
  lemma SaveThenLoad(fs: Fs, name: string, data: string)
    requires Sound(fs) && Save(fs, name, data).0 == 0
    ensures var fs' := Save(fs, name, data).1;
      && Sound(fs')
      && (ReadPath(fs', Resolve(name, fs.dir)) == Some(Take(data, MAX_FILE_SIZE)) <==> |Resolve(name, fs.dir)| <= NAME_MAX)
  {
    hide Upper, FindEntry, FindContent, Resolve, Sound, Take, Store, Create;
    var path := Resolve(name, fs.dir);
    var bytes := Take(data, MAX_FILE_SIZE);
    InRange(fs);
    var i := FindEntry(Table(fs), path);
    if i < fs.count {
      StoreKeeps(fs, i, bytes);
      StoreReads(fs, i, path, bytes);
      EntryIsShort(fs, path);
    } else {
      var e := Entry(Take(path, NAME_MAX), 0, 0, 0, 0xFFFF);
      CreateKeeps(fs, e);
      CreateTable(fs, e);
      StoreKeeps(Create(fs, e), i, bytes);
      if |path| <= NAME_MAX {
        TakeShort(path, NAME_MAX);
        AppendedFound(Table(fs), e, path);
        StoreReads(Create(fs, e), i, path, bytes);
      } else {
        NotReadable(Store(Create(fs, e), i, bytes).1, path);
      }
    }
  }

  lemma NotReadable(fs: Fs, path: string)
    requires Sound(fs) && |path| > NAME_MAX
    ensures ReadPath(fs, path) == None
  {
    LongNotFound(Table(fs), path);
  }

  lemma EntryIsShort(fs: Fs, path: string)
    requires Sound(fs) && FindEntry(Table(fs), path) < fs.count
    ensures |path| <= NAME_MAX
  {
    if |path| > NAME_MAX {
      LongNotFound(Table(fs), path);
    }
  }

  lemma CreateTable(fs: Fs, e: Entry)
    requires Sound(fs) && fs.count < MAX_FILES
    ensures Table(Create(fs, e)) == Table(fs) + [e] && Create(fs, e).count == fs.count + 1
  {
  }

  lemma StoreReads(fs: Fs, i: nat, path: string, bytes: string)
    requires Sound(fs) && FindEntry(Table(fs), path) == i < fs.count && Store(fs, i, bytes).0 == 0
    requires Sound(Store(fs, i, bytes).1)
    ensures ReadPath(Store(fs, i, bytes).1, path) == Some(bytes)
  {
    hide Upper, FindEntry, FindContent, Sound;
    InRange(fs);
    var fs' := Store(fs, i, bytes).1;
    InRange(fs');
    FirstEntryOnly(Table(fs), Table(fs'), path);
    StoredFound(fs.contents, i, bytes);
  }

  // ---- reading in chunks ----

  /** Reads from offset on, `room` bytes a time, until nothing is left. */
  function ReadChunks(fs: Fs, name: string, offset: nat, room: nat, chunks: nat): string
    requires fs.count <= |fs.slots|
    decreases chunks
  {
    if chunks == 0 then ""
    else match LoadRange(fs, name, offset, room)
      case None => ""
      case Some(part) => part + ReadChunks(fs, name, offset + |part|, room, chunks - 1)
  }

  /** Enough chunks of any size put the file together again. */
  lemma {:induction false} ChunksConcatenate(fs: Fs, name: string, data: string, offset: nat, room: nat, chunks: nat)
    requires fs.count <= |fs.slots| && ReadPath(fs, Resolve(name, fs.dir)) == Some(data)
    requires offset <= |data| && room > 0 && chunks * room >= |data| - offset
    ensures ReadChunks(fs, name, offset, room, chunks) == data[offset..]
    decreases chunks
  {
    hide ReadPath, Resolve;
    if offset < |data| {
      assert chunks > 0;
      var part := Take(data[offset..], room);
      assert (chunks - 1) * room == chunks * room - room;
      ChunksConcatenate(fs, name, data, offset + |part|, room, chunks - 1);
      assert data[offset..] == part + data[offset + |part|..];
    }
  }
}
