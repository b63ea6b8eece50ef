/** Which entry a name stands for: the current directory, drive prefixes, backslashes and letter case, and what the
    operations leave under the path. */
module FsPaths {
  import opened CText
  import opened TextFacts
  import opened FsModel
  import opened FsRuns
  import opened Wrappers

  // ---- names to paths ----

  /** Position by position the same, but for backslashes, which become slashes. */
  predicate Slashed(t: string, r: string) {
    |r| == |t| && forall i | 0 <= i < |t| :: r[i] == if t[i] == '\\' then '/' else t[i]
  }

  lemma {:induction false} SlashesIs(t: string)
    ensures Slashed(t, Slashes(t))
  {
    if t != "" {
      SlashesIs(t[1..]);
      var r := Slashes(t);
      assert r[1..] == Slashes(t[1..]);
      assert forall i | 0 < i < |t| :: t[i] == t[1..][i - 1] && r[i] == r[1..][i - 1];
    }
  }

  lemma SlashedPlain(t: string, r: string)
    requires Slashed(t, r) && '\\' !in t
    ensures r == t
  {
  }

  predicate IsAbsolute(name: string) {
    name != "" && name[0] == '/'
  }

  /** A colon after the first character and a slash or backslash behind it. */
  predicate OnDrive(name: string) {
    |name| > 2 && name[1] == ':' && (name[2] == '/' || name[2] == '\\')
  }

  /** A relative name is put behind the current directory, an absolute one stands for itself up to 255 characters. */
  lemma FullPathIs(name: string, dir: string)
    ensures !IsAbsolute(name) ==> Slashed(dir + name, FullPath(name, dir))
    ensures IsAbsolute(name) && |name| <= 255 ==> Slashed(name, FullPath(name, dir))
    ensures IsAbsolute(name) && |name| > 255 ==> Slashed(name[..255], FullPath(name, dir))
  {
    hide Slashes, Slashed;
    SlashesIs(if "/" <= name then Take(name, PATH_MAX) else dir + name);
  }

  /** Saving and loading drop a drive prefix first. */
  lemma ResolveIs(name: string, dir: string)
    ensures Resolve(name, dir) == FullPath(if OnDrive(name) then name[2..] else name, dir)
  {
  }

  /** Without backslashes: the directory followed by a relative name, an absolute name whatever the directory, and
      what is behind a drive prefix. */
  lemma PlainPaths(name: string, dir: string)
    requires '\\' !in dir && '\\' !in name && |name| <= 255
    ensures FullPath(name, dir) == if IsAbsolute(name) then name else dir + name
    ensures Resolve(name, dir) == if OnDrive(name) then name[2..] else if IsAbsolute(name) then name else dir + name
  {
    hide FullPath, Resolve, Slashed;
    var bare := if OnDrive(name) then name[2..] else name;
    assert forall c :: c in bare ==> c in name;
    FullPathIs(name, dir);
    FullPathIs(bare, dir);
    ResolveIs(name, dir);
    PlainParts(name, dir);
    PlainParts(bare, dir);
  }

  lemma PlainParts(name: string, dir: string)
    requires '\\' !in dir && '\\' !in name && |name| <= 255
    requires !IsAbsolute(name) ==> Slashed(dir + name, FullPath(name, dir))
    requires IsAbsolute(name) ==> Slashed(name, FullPath(name, dir))
    ensures FullPath(name, dir) == if IsAbsolute(name) then name else dir + name
  {
    hide FullPath;
    SlashedPlain(if IsAbsolute(name) then name else dir + name, FullPath(name, dir));
  }

  // ---- paths to entries ----

  /** A path finds the first entry whose name agrees with it up to letter case, and none exactly when none does. */
  lemma FoundIs(table: seq<Entry>, path: string)
    ensures var i := FindEntry(table, path);
      && (i < |table| ==> Agree(table[i].name, path))
      && (forall j | 0 <= j < i :: !Agree(table[j].name, path))
  {
    hide Upper, Agree;
    EntryFound(table, path);
    forall j | 0 <= j < |table|
      ensures Upper(table[j].name) == Upper(path) <==> Agree(table[j].name, path)
    {
      UpperIff(table[j].name, path);
    }
  }

  /** Paths that agree up to letter case find the same entry and read the same bytes. */
  lemma SameCase(fs: Fs, p: string, q: string)
    requires fs.count <= |fs.slots| && Agree(p, q)
    ensures FindEntry(Table(fs), p) == FindEntry(Table(fs), q) && ReadPath(fs, p) == ReadPath(fs, q)
  {
    hide FindEntry, FindContent, Upper, Agree;
    UpperIff(p, q);
    SameKey(Table(fs), p, q);
  }

  lemma {:induction false} SameKey(table: seq<Entry>, p: string, q: string)
    requires Upper(p) == Upper(q)
    ensures FindEntry(table, p) == FindEntry(table, q)
  {
    hide Upper;
    if table != [] {
      SameKey(table[1..], p, q);
    }
  }

  /** Paths that do not agree never find the same entry. */
  lemma OtherCase(fs: Fs, p: string, q: string)
    requires fs.count <= |fs.slots| && !Agree(p, q)
    ensures FindEntry(Table(fs), p) == FindEntry(Table(fs), q) ==> FindEntry(Table(fs), p) == fs.count
  {
    hide FindEntry, Upper, Agree;
    var i := FindEntry(Table(fs), p);
    FoundIs(Table(fs), p);
    FoundIs(Table(fs), q);
    if i == FindEntry(Table(fs), q) && i < fs.count {
      UpperIff(Table(fs)[i].name, p);
      UpperIff(Table(fs)[i].name, q);
      UpperIff(p, q);
    }
  }

  // ---- the operations in a directory ----

  /** A relative name without drive prefix and backslashes, in a directory without backslashes. */
  predicate Relative(name: string, dir: string) {
    name != "" && !IsAbsolute(name) && !OnDrive(name) && '\\' !in dir && '\\' !in name && |name| <= 255
  }

  /** Saving a name in a directory leaves the bytes under directory and name. */
  lemma SavedInDirectory(fs: Fs, name: string, data: string)
    requires Sound(fs) && Relative(name, fs.dir) && |fs.dir + name| <= 55 && Save(fs, name, data).0 == 0
    ensures var fs' := Save(fs, name, data).1;
      Sound(fs') && ReadPath(fs', fs.dir + name) == Some(if |data| <= 8192 then data else data[..8192])
  {
    hide Resolve, Save, ReadPath, Sound;
    PlainPaths(name, fs.dir);
    SaveThenLoad(fs, name, data);
  }

  /** It is read back by the same name in that directory, in either case, and the name means another entry in a
      directory that does not agree with it. */
  lemma ReadInDirectory(fs: Fs, name: string, data: string, again: string, dir: string, room: nat)
    requires Sound(fs) && Relative(name, fs.dir) && |fs.dir + name| <= 55 && Save(fs, name, data).0 == 0
    requires Relative(again, dir) && room >= 8192
    ensures var fs' := Save(fs, name, data).1;
      && Sound(fs')
      && (Agree(fs.dir + name, dir + again) ==>
            Load(fs'.(dir := dir), again, room) == Some(if |data| <= 8192 then data else data[..8192]))
      && (!Agree(fs.dir + name, dir + again) ==>
            FindEntry(Table(fs'), dir + again) != FindEntry(Table(fs'), fs.dir + name))
      && Load(fs'.(dir := dir), again, room) == CutTo(ReadPath(fs', dir + again), room)
  {
    hide Resolve, Save, ReadPath, FindEntry, Agree, Sound;
    SavedInDirectory(fs, name, data);
    var fs' := Save(fs, name, data).1;
    InRange(fs');
    PlainPaths(again, dir);
    LoadIs(fs', again, dir, room);
    if Agree(fs.dir + name, dir + again) {
      SameCase(fs', fs.dir + name, dir + again);
    } else {
      OtherCase(fs', fs.dir + name, dir + again);
      ReadIsFound(fs', fs.dir + name);
    }
  }

  function CutTo(r: Option<string>, room: nat): Option<string> {
    match r case None => None case Some(data) => Some(if |data| <= room then data else data[..room])
  }

  lemma LoadIs(fs: Fs, name: string, dir: string, room: nat)
    requires fs.count <= |fs.slots| && room > 0
    ensures Load(fs.(dir := dir), name, room) == CutTo(ReadPath(fs, Resolve(name, dir)), room)
  {
    hide Resolve, FindEntry, FindContent;
  }

  /** A buffer without room gets nothing; a read from an offset gets the bytes from there on, and nothing at the end or
      behind it. */
  lemma LoadEdges(fs: Fs, name: string, offset: nat, room: int)
    requires fs.count <= |fs.slots|
    ensures room <= 0 ==> Load(fs, name, room) == None && LoadRange(fs, name, offset, room) == None
    ensures room > 0 ==> LoadRange(fs, name, offset, room) == CutTo(Behind(ReadPath(fs, Resolve(name, fs.dir)), offset), room)
  {
    hide Resolve, ReadPath;
  }

  function Behind(r: Option<string>, offset: nat): Option<string> {
    match r case None => None case Some(data) => if offset < |data| then Some(data[offset..]) else None
  }

  lemma ReadIsFound(fs: Fs, path: string)
    requires fs.count <= |fs.slots| && ReadPath(fs, path).Some?
    ensures FindEntry(Table(fs), path) < fs.count
  {
    hide FindEntry, FindContent;
  }

  // ---- what the new entries are ----

  /** The entry that a path finds. */
  predicate HoldsEntry(fs: Fs, path: string, e: Entry)
    requires fs.count <= |fs.slots|
  {
    var i := FindEntry(Table(fs), path);
    i < fs.count && fs.slots[i] == e
  }

  lemma MadeIs(fs: Fs, path: string, kind: nat, attr: nat)
    requires Sound(fs) && fs.count < MAX_FILES && |path| <= 55 && FindEntry(Table(fs), path) == fs.count
    ensures var fs' := MakeEntry(fs, path, kind, attr);
      fs'.count <= |fs'.slots| && HoldsEntry(fs', path, Entry(path, 0, kind, attr, fs.slots[fs.count].parent))
      && ReadPath(fs', path) == None
  {
    hide FindEntry, FindContent, Upper;
    var e := Entry(path, 0, kind, attr, fs.slots[fs.count].parent);
    CreateTable(fs, e);
    AppendedFound(Table(fs), e, path);
    ContentFound(fs.contents, fs.count);
  }

  /** mkdir makes an empty directory under directory and name: type 1 and attribute 0x10. It refuses an empty name, a full
      table and a path that is known. */
  lemma MkdirMakes(fs: Fs, name: string)
    requires Sound(fs) && Relative(name, fs.dir) && |fs.dir + name| <= 55
    ensures var (rc, fs') := Mkdir(fs, name);
      && fs.count <= |fs.slots| && fs'.count <= |fs'.slots|
      && (rc == 0 <==> fs.count < 512 && FindEntry(Table(fs), fs.dir + name) == fs.count)
      && (rc == 0 ==> HoldsEntry(fs', fs.dir + name, Entry(fs.dir + name, 0, 1, 0x10, fs.slots[fs.count].parent)))
      && (rc != 0 ==> rc == -1 && fs' == fs)
  {
    hide FullPath, FindEntry, MakeEntry, Sound, HoldsEntry;
    InRange(fs);
    PlainPaths(name, fs.dir);
    if fs.count < MAX_FILES && FindEntry(Table(fs), fs.dir + name) == fs.count {
      MadeIs(fs, fs.dir + name, 1, 0x10);
    }
  }

  /** Its absolute form does so under the path, with a code of its own for each refusal. */
  lemma MkdirAbsMakes(fs: Fs, path: string)
    requires Sound(fs) && |path| <= 55
    ensures var (rc, fs') := MkdirAbs(fs, path);
      && fs.count <= |fs.slots| && fs'.count <= |fs'.slots|
      && rc == (if !IsAbsolute(path) then -1 else if fs.count >= 512 then -2
                else if FindEntry(Table(fs), path) < fs.count then -3 else 0)
      && (rc == 0 ==> HoldsEntry(fs', path, Entry(path, 0, 1, 0x10, fs.slots[fs.count].parent)))
      && (rc != 0 ==> fs' == fs)
  {
    hide FindEntry, MakeEntry, Sound, HoldsEntry;
    InRange(fs);
    if IsAbsolute(path) && fs.count < MAX_FILES && FindEntry(Table(fs), path) == fs.count {
      MadeIs(fs, path, 1, 0x10);
    }
  }

  /** touch makes an empty plain file, type 0 and attribute 0x20, and leaves a known path alone. */
  lemma TouchMakes(fs: Fs, name: string)
    requires Sound(fs) && Relative(name, fs.dir) && |fs.dir + name| <= 55
    ensures var (rc, fs') := Touch(fs, name);
      && fs.count <= |fs.slots| && fs'.count <= |fs'.slots|
      && (rc == 0 <==> fs.count < 512)
      && (rc == 0 && FindEntry(Table(fs), fs.dir + name) == fs.count ==>
            HoldsEntry(fs', fs.dir + name, Entry(fs.dir + name, 0, 0, 0x20, fs.slots[fs.count].parent)))
      && (rc != 0 || FindEntry(Table(fs), fs.dir + name) < fs.count ==> fs' == fs)
  {
    hide FullPath, FindEntry, MakeEntry, Sound, HoldsEntry;
    InRange(fs);
    PlainPaths(name, fs.dir);
    if fs.count < MAX_FILES && FindEntry(Table(fs), fs.dir + name) == fs.count {
      MadeIs(fs, fs.dir + name, 0, 0x20);
    }
  }

  /** An empty name is refused by both. */
  lemma EmptyNames(fs: Fs)
    requires Sound(fs)
    ensures Mkdir(fs, "") == (-1, fs) && Touch(fs, "") == (-1, fs)
  {
  }

  /** A successful save of a new path makes a plain file of the size of its bytes; of a known one it changes the size
      alone. */
  lemma SaveMakes(fs: Fs, path: string, data: string)
    requires Sound(fs) && |path| <= 55 && SavePath(fs, path, data).0 == 0
    ensures var fs' := SavePath(fs, path, data).1;
      var i := FindEntry(Table(fs), path);
      var size := if |data| <= 8192 then |data| else 8192;
      && fs.count <= |fs.slots| && i <= fs.count && fs'.count <= |fs'.slots| && (i == fs.count ==> fs.count < 512)
      && HoldsEntry(fs', path, if i < fs.count then fs.slots[i].(size := size) else Entry(path, size, 0, 0, 0xFFFF))
      && (forall j | 0 <= j < fs.count && j != i :: fs'.slots[j] == fs.slots[j])
  {
    hide FindEntry, FindContent, Upper;
    var i := FindEntry(Table(fs), path);
    InRange(fs);
    if i < fs.count {
      var fs' := SavePath(fs, path, data).1;
      FirstEntryOnly(Table(fs), Table(fs'), path);
    } else {
      var size := if |data| <= 8192 then |data| else 8192;
      var e := Entry(path, size, 0, 0, 0xFFFF);
      CreateTable(fs, e);
      AppendedFound(Table(fs), e, path);
      assert Table(SavePath(fs, path, data).1) == Table(Create(fs, e));
    }
  }
}
