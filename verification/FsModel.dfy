/** AurionFS in memory: a flat entry table and a separate content table, as functions on their values.
    A byte is a char; a name is what its buffer holds before the NUL. */
module FsModel {
  import opened CText
  import opened Wrappers

  const MAX_FILES := 512
  const MAX_CONTENTS := 256
  const MAX_FILE_SIZE := 8192
  const NAME_MAX := 55
  const PATH_MAX := 255

  datatype Entry = Entry(name: string, size: nat, kind: nat, attr: nat, parent: nat)

  /** One content slot: the entry it belongs to and its bytes. */
  datatype Content = Content(idx: nat, data: string)

  /** All table slots, of which the first `count` are in use; a freed or fresh slot keeps old fields. */
  datatype Fs = Fs(slots: seq<Entry>, count: nat, contents: seq<Content>, dir: string)

  /** Backslashes become slashes. */
  function Slashes(t: string): (r: string)
    ensures |r| == |t|
  {
    if t == "" then "" else [if t[0] == '\\' then '/' else t[0]] + Slashes(t[1..])
  }

  predicate HasDrive(t: string) {
    |t| > 2 && t[1] == ':' && (t[2] == '\\' || t[2] == '/')
  }

  function FullPath(name: string, dir: string): string {
    Slashes(if "/" <= name then Take(name, PATH_MAX) else dir + name)
  }

  /** Save and load drop a drive prefix first. */
  function Resolve(name: string, dir: string): string {
    FullPath(if HasDrive(name) then name[2..] else name, dir)
  }

  /** The first entry of that name up to letter case, or the length of the table. */
  function FindEntry(table: seq<Entry>, path: string): (i: nat)
    ensures i <= |table|
  {
    if table == [] || Upper(table[0].name) == Upper(path) then 0 else 1 + FindEntry(table[1..], path)
  }

  function FindContent(contents: seq<Content>, idx: nat): (c: nat)
    ensures c <= |contents|
  {
    if contents == [] || contents[0].idx == idx then 0 else 1 + FindContent(contents[1..], idx)
  }

  /** Sizes and counts fit the tables; content slots belong to distinct used entries and agree with
      their sizes. */
  ghost predicate Sound(fs: Fs) {
    && |fs.slots| == MAX_FILES && fs.count <= MAX_FILES && |fs.contents| <= MAX_CONTENTS
    && (forall i | 0 <= i < fs.count :: |fs.slots[i].name| <= NAME_MAX)
    && (forall c | 0 <= c < |fs.contents| :: fs.contents[c].idx < fs.count)
    && (forall c | 0 <= c < |fs.contents| :: |fs.contents[c].data| <= MAX_FILE_SIZE)
    && (forall c | 0 <= c < |fs.contents| :: fs.slots[fs.contents[c].idx].size == |fs.contents[c].data|)
    && (forall c, d | 0 <= c < d < |fs.contents| :: fs.contents[c].idx != fs.contents[d].idx)
  }

  /** No two used entries have the same name up to letter case. */
  ghost predicate Unique(fs: Fs)
    requires fs.count <= |fs.slots|
  {
    forall i, j | 0 <= i < j < fs.count :: Names(fs)[i] != Names(fs)[j]
  }

  // ---- operations ----

  function Table(fs: Fs): seq<Entry>
    requires fs.count <= |fs.slots|
  {
    fs.slots[..fs.count]
  }

  /** Writes the bytes of entry i: its size first, then its content slot, taking a new one if needed. */
  function Store(fs: Fs, i: nat, bytes: string): (int, Fs)
    requires i < |fs.slots|
  {
    var fs1 := fs.(slots := fs.slots[i := fs.slots[i].(size := |bytes|)]);
    var c := FindContent(fs.contents, i);
    if c < |fs.contents| then (0, fs1.(contents := fs.contents[c := Content(i, bytes)]))
    else if |fs.contents| >= MAX_CONTENTS then (-1, fs1)
    else (0, fs1.(contents := fs.contents + [Content(i, bytes)]))
  }

  /** A new last entry over whatever its slot held. */
  function Create(fs: Fs, e: Entry): Fs
    requires fs.count < |fs.slots|
  {
    fs.(slots := fs.slots[fs.count := e], count := fs.count + 1)
  }

  function SavePath(fs: Fs, path: string, data: string): (int, Fs)
    requires Sound(fs)
  {
    var i := FindEntry(Table(fs), path);
    var bytes := Take(data, MAX_FILE_SIZE);
    if i < fs.count then Store(fs, i, bytes)
    else if fs.count >= MAX_FILES then (-1, fs)
    else Store(Create(fs, Entry(Take(path, NAME_MAX), 0, 0, 0, 0xFFFF)), i, bytes)
  }

  function Save(fs: Fs, name: string, data: string): (int, Fs)
    requires Sound(fs)
  {
    SavePath(fs, Resolve(name, fs.dir), data)
  }

  /** A directory or an empty file, keeping the parent field its slot held. */
  function MakeEntry(fs: Fs, path: string, kind: nat, attr: nat): Fs
    requires fs.count < |fs.slots|
  {
    Create(fs, Entry(Take(path, NAME_MAX), 0, kind, attr, fs.slots[fs.count].parent))
  }

  function Mkdir(fs: Fs, name: string): (int, Fs)
    requires Sound(fs)
  {
    var path := FullPath(name, fs.dir);
    if name == "" || fs.count >= MAX_FILES || FindEntry(Table(fs), path) < fs.count then (-1, fs)
    else (0, MakeEntry(fs, path, 1, 0x10))
  }

  function MkdirAbs(fs: Fs, path: string): (int, Fs)
    requires Sound(fs)
  {
    if !("/" <= path) then (-1, fs)
    else if fs.count >= MAX_FILES then (-2, fs)
    else if FindEntry(Table(fs), path) < fs.count then (-3, fs)
    else (0, MakeEntry(fs, path, 1, 0x10))
  }

  function Touch(fs: Fs, name: string): (int, Fs)
    requires Sound(fs)
  {
    var path := FullPath(name, fs.dir);
    if name == "" || fs.count >= MAX_FILES then (-1, fs)
    else if FindEntry(Table(fs), path) < fs.count then (0, fs)
    else (0, MakeEntry(fs, path, 0, 0x20))
  }

  /** The bytes a path reads as: those of the content slot of the first entry of that name. */
  function ReadPath(fs: Fs, path: string): Option<string>
    requires fs.count <= |fs.slots|
  {
    var i := FindEntry(Table(fs), path);
    if i == fs.count then None
    else
      var c := FindContent(fs.contents, i);
      if c == |fs.contents| then None else Some(fs.contents[c].data)
  }

  /** At most `room` bytes of a file; None for a missing one, and for a buffer without room. */
  function Load(fs: Fs, name: string, room: int): Option<string>
    requires fs.count <= |fs.slots|
  {
    if room <= 0 then None
    else match ReadPath(fs, Resolve(name, fs.dir))
      case None => None
      case Some(data) => Some(Take(data, room))
  }

  /** At most `room` bytes from `offset` on; None at or past the end. */
  function LoadRange(fs: Fs, name: string, offset: nat, room: int): Option<string>
    requires fs.count <= |fs.slots|
  {
    if room <= 0 then None
    else match ReadPath(fs, Resolve(name, fs.dir))
      case None => None
      case Some(data) => if offset >= |data| then None else Some(Take(data[offset..], room))
  }

  /** -1 for an unknown path, 0 for an entry without content. */
  function StoredBytes(fs: Fs, name: string): int
    requires fs.count <= |fs.slots|
  {
    var i := FindEntry(Table(fs), Resolve(name, fs.dir));
    if i == fs.count then -1
    else
      var c := FindContent(fs.contents, i);
      if c == |fs.contents| then 0 else |fs.contents[c].data|
  }

  // ---- what a file system means ----

  /** The abstract file system: the known names and, for some of them, their bytes; all names up to
      letter case. */
  datatype View = View(names: set<string>, files: map<string, string>)

  ghost function ViewOf(fs: Fs): View
    requires Sound(fs) && Unique(fs)
  {
    View(set u | u in Names(fs),
         map c | 0 <= c < |fs.contents| :: Names(fs)[fs.contents[c].idx] := fs.contents[c].data)
  }

  /** The used names, upper-cased, in table order. */
  function Names(fs: Fs): (names: seq<string>)
    requires fs.count <= |fs.slots|
    ensures |names| == fs.count
    ensures forall i | 0 <= i < fs.count :: names[i] == Upper(fs.slots[i].name)
  {
    seq(fs.count, i requires 0 <= i < fs.count => Upper(fs.slots[i].name))
  }

  /** The name a path's entry is stored under: what its field holds of it. */
  function StoredAs(path: string): string {
    Upper(Take(path, NAME_MAX))
  }

  /** A path is looked up whole; a new one is stored cut. */
  function ViewSave(v: View, path: string, data: string): (int, View) {
    var u := Upper(path);
    if u !in v.names && |v.names| >= MAX_FILES then (-1, v)
    else if u !in v.files && |v.files| >= MAX_CONTENTS then (-1, v.(names := v.names + {StoredAs(path)}))
    else (0, View(v.names + {StoredAs(path)}, v.files[StoredAs(path) := Take(data, MAX_FILE_SIZE)]))
  }

  function ViewRead(v: View, path: string): Option<string> {
    if Upper(path) in v.files then Some(v.files[Upper(path)]) else None
  }

  /** A new name without bytes; full and taken are the codes for the two ways this fails. */
  function ViewAdd(v: View, path: string, full: int, taken: int): (int, View) {
    if |v.names| >= MAX_FILES then (full, v)
    else if Upper(path) in v.names then (taken, v)
    else (0, v.(names := v.names + {StoredAs(path)}))
  }
}
