/** What a path reads as after a save and a boot, for every labelled volume, with or without a content slot for
    each file: the loader takes the first 256 non-empty files and reads their sectors, written or not. */
module FsReload {
  import opened CText
  import opened FsModel
  import opened FsDisk
  import opened FsRuns
  import opened FsRoundTrip
  import opened Wrappers

  /** How many non-empty plain files stand in the table from entry i on, before entry j. */
  function Ahead(table: seq<Entry>, i: nat, j: nat): nat
    requires j <= |table|
    decreases j - i
  {
    if i >= j then 0 else (if NonEmptyFile(table[i]) then 1 else 0) + Ahead(table, i + 1, j)
  }

  /** The loader gives a slot to this entry. */
  predicate Loaded(table: seq<Entry>, i: nat)
    requires i < |table|
  {
    NonEmptyFile(table[i]) && Ahead(table, 0, i) < MAX_CONTENTS
  }

  predicate HasSlot(fs: Fs, i: nat) {
    FindContent(fs.contents, i) < |fs.contents|
  }

  // ---- the loader's slots ----

  lemma {:induction false} LoadedFrom(disk: Disk, table: seq<Entry>, i: nat, room: nat)
    requires IsDisk(disk) && |table| <= MAX_FILES
    ensures forall c | 0 <= c < |LoadContents(disk, table, i, room)| :: LoadContents(disk, table, i, room)[c].idx >= i
    decreases |table| - i
  {
    hide LoadData;
    if i < |table| && room > 0 {
      LoadedFrom(disk, table, i + 1, room - 1);
      LoadedFrom(disk, table, i + 1, room);
    }
  }

  /** The first `room` non-empty plain files get a slot with what their sectors hold, the others none. */
  lemma {:induction false} LoadedContents(disk: Disk, table: seq<Entry>, i: nat, room: nat, j: nat)
    requires IsDisk(disk) && |table| <= MAX_FILES && i <= j < |table|
    ensures var cs := LoadContents(disk, table, i, room);
      var c := FindContent(cs, j);
      if NonEmptyFile(table[j]) && Ahead(table, i, j) < room
      then c < |cs| && cs[c].data == LoadData(disk, j, 0, table[j].size) else c == |cs|
    decreases j - i
  {
    hide LoadData, NonEmptyFile;
    if room > 0 {
      var rest := LoadContents(disk, table, i + 1, if NonEmptyFile(table[i]) then room - 1 else room);
      LoadStep(disk, table, i, room);
      if i < j {
        LoadedContents(disk, table, i + 1, if NonEmptyFile(table[i]) then room - 1 else room, j);
        SlotBehind(Content(i, LoadData(disk, i, 0, table[i].size)), rest, j);
      } else if NonEmptyFile(table[i]) {
        SlotFirst(Content(i, LoadData(disk, i, 0, table[i].size)), rest);
      } else {
        LoadedFrom(disk, table, i + 1, room);
        ContentFound(rest, j);
      }
    }
  }

  lemma LoadStep(disk: Disk, table: seq<Entry>, i: nat, room: nat)
    requires IsDisk(disk) && |table| <= MAX_FILES && i < |table| && room > 0
    ensures LoadContents(disk, table, i, room)
         == if NonEmptyFile(table[i])
            then [Content(i, LoadData(disk, i, 0, table[i].size))] + LoadContents(disk, table, i + 1, room - 1)
            else LoadContents(disk, table, i + 1, room)
  {
    hide LoadData;
  }

  lemma SlotFirst(c: Content, rest: seq<Content>)
    ensures FindContent([c] + rest, c.idx) == 0
  {
  }

  lemma SlotBehind(c: Content, rest: seq<Content>, j: nat)
    requires c.idx != j
    ensures FindContent([c] + rest, j) == 1 + FindContent(rest, j)
  {
    assert ([c] + rest)[1..] == rest;
  }

  // ---- the sectors ----

  /** Saving does not touch the sectors of an entry without a slot. */
  lemma {:induction false} OldSectors(v: Volume, disk: Disk, i: nat, k: nat, size: nat)
    requires IsDisk(disk) && Sound(v.fs) && i < MAX_FILES && !HasSlot(v.fs, i)
    ensures LoadData(SaveDisk(v, disk), i, k, size) == LoadData(disk, i, k, size)
    decreases FILE_SECTORS - k
  {
    hide SaveDisk, FindContent, Take, Sound;
    if k < FILE_SECTORS && size != 0 {
      OldSector(v, disk, i, k);
      OldSectors(v, disk, i, k + 1, if size > SECTOR then size - SECTOR else 0);
    }
  }

  lemma OldSector(v: Volume, disk: Disk, i: nat, k: nat)
    requires IsDisk(disk) && Sound(v.fs) && i < MAX_FILES && k < FILE_SECTORS && !HasSlot(v.fs, i)
    ensures SaveDisk(v, disk)[CONTENT_LBA + i * FILE_SECTORS + k] == disk[CONTENT_LBA + i * FILE_SECTORS + k]
  {
    hide SaveDisk, FindContent, DataSector;
    FileAddress(i, k);
    FoundAtMost(v.fs.contents, i);
    var lba := CONTENT_LBA + i * FILE_SECTORS + k;
    assert SaveDisk(v, disk)[lba] == SavedSector(v, disk, lba);
  }

  lemma FoundAtMost(contents: seq<Content>, i: nat)
    ensures FindContent(contents, i) <= |contents|
  {
  }

  /** And the sectors of an entry with a slot then hold its bytes. */
  lemma NewSectors(v: Volume, disk: Disk, i: nat)
    requires IsDisk(disk) && Sound(v.fs) && i < v.fs.count && HasSlot(v.fs, i)
    ensures LoadData(SaveDisk(v, disk), i, 0, v.fs.slots[i].size) == DataOf(v.fs, i)
    ensures |DataOf(v.fs, i)| == v.fs.slots[i].size
  {
    hide SaveDisk, FindContent, DataSector, LoadData;
    ContentFound(v.fs.contents, i);
    var data := DataOf(v.fs, i);
    forall k | 0 <= k < FILE_SECTORS
      ensures SaveDisk(v, disk)[CONTENT_LBA + i * FILE_SECTORS + k] == DataSector(data, k)
    {
      FileAddress(i, k);
      SavedFileSector(v, disk, i, k);
    }
    DataRead(SaveDisk(v, disk), i, data, 0);
    assert data[0..] == data;
  }

  // ---- the exact result ----

  /** The bytes that stand in entry i's sectors once the volume is saved. */
  function OnDisk(v: Volume, disk: Disk, i: nat): string
    requires IsDisk(disk) && i < v.fs.count <= |v.fs.slots| == MAX_FILES
  {
    if HasSlot(v.fs, i) then DataOf(v.fs, i) else LoadData(disk, i, 0, v.fs.slots[i].size)
  }

  /** The file system after the volume is saved over a disk and loaded again. */
  ghost function AfterBoot(v: Volume, disk: Disk, before: Volume, serial: nat): (fs: Fs)
    requires Keepable(v) && v.tag != "" && IsDisk(disk) && Sound(before.fs)
    ensures fs.count <= |fs.slots|
  {
    KeepableParts(v);
    TablesReload(v, disk, before, serial);
    LoadDisk(SaveDisk(v, disk), before, serial).0.fs
  }

  /** Save any labelled volume over any disk and boot: a path reads exactly when its entry is among the first 256
      non-empty plain files, and then as its bytes, or, without a slot, as what its sectors held before. */
  lemma ReloadReads(v: Volume, disk: Disk, before: Volume, serial: nat, path: string)
    requires Keepable(v) && v.tag != "" && IsDisk(disk) && Sound(before.fs)
    ensures var i := FindEntry(Table(v.fs), path);
      |v.fs.slots| == MAX_FILES && i <= v.fs.count
      && ReadPath(AfterBoot(v, disk, before, serial), path)
      == if i < v.fs.count && Loaded(Table(v.fs), i) then Some(OnDisk(v, disk, i)) else None
  {
    hide SaveDisk, LoadDisk, LoadContents, LoadData, FindEntry, FindContent, Keepable, Loaded, LoadDir, Sound;
    KeepableParts(v);
    InRange(v.fs);
    TablesReload(v, disk, before, serial);
    var i := FindEntry(Table(v.fs), path);
    var table := Table(v.fs);
    var d := SaveDisk(v, disk);
    if i < v.fs.count {
      LoadedContents(d, table, 0, MAX_CONTENTS, i);
      LoadedIs(table, i);
      assert table[i] == v.fs.slots[i];
      if HasSlot(v.fs, i) {
        NewSectors(v, disk, i);
      } else {
        OldSectors(v, disk, i, 0, v.fs.slots[i].size);
      }
    }
  }

  lemma LoadedIs(table: seq<Entry>, i: nat)
    requires i < |table|
    ensures Loaded(table, i) <==> NonEmptyFile(table[i]) && Ahead(table, 0, i) < MAX_CONTENTS
  {
  }

  lemma KeepableParts(v: Volume)
    requires Keepable(v)
    ensures Sound(v.fs)
  {
  }

  // ---- when a reboot reads as before ----

  predicate IsDirectory(fs: Fs, path: string)
    requires fs.count <= |fs.slots|
  {
    var i := FindEntry(Table(fs), path);
    i < fs.count && fs.slots[i].kind != 0
  }

  /** What lasts of what a path reads as: empty files and the bytes of directories are not loaded. */
  function Lasting(read: Option<string>, directory: bool): Option<string> {
    if read.Some? && read.value != "" && !directory then read else None
  }

  /** The entry has a slot exactly when the loader gives it one. */
  predicate Lasts(fs: Fs, i: nat)
    requires i < fs.count <= |fs.slots|
  {
    NonEmptyFile(fs.slots[i]) ==> (HasSlot(fs, i) <==> Loaded(Table(fs), i))
  }

  /** A path reads after a reboot as it did before, as far as that lasts, exactly when its entry is no non-empty
      file, or one with a slot among the first 256, or one without behind them. */
  lemma RebootReads(v: Volume, disk: Disk, before: Volume, serial: nat, path: string)
    requires Keepable(v) && v.tag != "" && IsDisk(disk) && Sound(before.fs)
    ensures var i := FindEntry(Table(v.fs), path);
      && i <= v.fs.count <= |v.fs.slots|
      && (ReadPath(AfterBoot(v, disk, before, serial), path)
            == Lasting(ReadPath(v.fs, path), IsDirectory(v.fs, path))
          <==> (i < v.fs.count ==> Lasts(v.fs, i)))
  {
    hide AfterBoot, LoadData, FindEntry, FindContent, Keepable, Ahead, Sound;
    KeepableParts(v);
    InRange(v.fs);
    ReloadReads(v, disk, before, serial, path);
    SlotSizes(v.fs, FindEntry(Table(v.fs), path));
  }

  lemma SlotSizes(fs: Fs, i: nat)
    requires Sound(fs)
    ensures i < fs.count && HasSlot(fs, i) ==> |fs.contents[FindContent(fs.contents, i)].data| == fs.slots[i].size
    ensures FindContent(fs.contents, i) <= |fs.contents|
  {
    hide FindContent;
    ContentFound(fs.contents, i);
  }

  ghost predicate AllLast(fs: Fs)
    requires fs.count <= |fs.slots|
  {
    forall i | 0 <= i < fs.count :: Lasts(fs, i)
  }

  /** All paths do so exactly when every entry lasts. */
  lemma RebootIsView(v: Volume, disk: Disk, before: Volume, serial: nat)
    requires Keepable(v) && v.tag != "" && IsDisk(disk) && Sound(before.fs) && v.fs.count <= |v.fs.slots| && Unique(v.fs)
    ensures (forall path :: ReadPath(AfterBoot(v, disk, before, serial), path)
                         == Lasting(ViewRead(ViewOf(v.fs), path), IsDirectory(v.fs, path)))
       <==> AllLast(v.fs)
  {
    hide AfterBoot, ReadPath, FindEntry, Keepable, Lasts, Lasting, Sound, Unique, ViewOf, ViewRead, Names;
    KeepableParts(v);
    forall path: string
      ensures ReadPath(v.fs, path) == ViewRead(ViewOf(v.fs), path)
    {
      ReadIsView(v.fs, path);
    }
    InRange(v.fs);
    var w := AfterBoot(v, disk, before, serial);
    if AllLast(v.fs) {
      forall path: string
        ensures ReadPath(w, path) == Lasting(ViewRead(ViewOf(v.fs), path), IsDirectory(v.fs, path))
      {
        RebootReads(v, disk, before, serial, path);
      }
    } else {
      var i :| 0 <= i < v.fs.count && !Lasts(v.fs, i);
      var path := v.fs.slots[i].name;
      OwnName(v.fs, i);
      RebootReads(v, disk, before, serial, path);
      assert ReadPath(w, path) != Lasting(ViewRead(ViewOf(v.fs), path), IsDirectory(v.fs, path));
    }
  }

  /** With unique names an entry is found under its own. */
  lemma OwnName(fs: Fs, i: nat)
    requires fs.count <= |fs.slots| && Unique(fs) && i < fs.count
    ensures FindEntry(Table(fs), fs.slots[i].name) == i
  {
    hide FindEntry, Upper;
    EntryFound(Table(fs), fs.slots[i].name);
    assert Table(fs)[i] == fs.slots[i];
    forall j | 0 <= j < i
      ensures Upper(Table(fs)[j].name) != Upper(fs.slots[i].name)
    {
      assert Names(fs)[j] != Names(fs)[i];
    }
  }

  /** A slot for every non-empty file is enough. */
  lemma AllHaveLast(fs: Fs)
    requires Sound(fs) && HasContents(fs)
    ensures AllLast(fs)
  {
    hide FindContent, NonEmptyFile, Sound;
    InRange(fs);
    FilesFit(fs);
    forall i | 0 <= i < fs.count && NonEmptyFile(fs.slots[i])
      ensures Lasts(fs, i)
    {
      AheadFits(Table(fs), 0, i);
    }
  }

  lemma {:induction false} AheadFits(table: seq<Entry>, i: nat, j: nat)
    requires i <= j < |table| && NonEmptyFile(table[j])
    ensures Ahead(table, i, j) < |NonEmpty(table, i)|
    decreases j - i
  {
    hide NonEmptyFile;
    if i < j {
      AheadFits(table, i + 1, j);
    }
  }
}
