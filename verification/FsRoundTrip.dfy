/** Loading a saved volume at boot restores it. */
module FsRoundTrip {
  import opened CText
  import opened FsModel
  import opened FsDisk
  import opened FsRuns
  import opened Wrappers

  // ---- names ----

  lemma {:induction false} SlashesAt(t: string, i: nat)
    requires i < |t|
    ensures Slashes(t)[i] == if t[i] == '\\' then '/' else t[i]
  {
    if i > 0 {
      SlashesAt(t[1..], i - 1);
    }
  }

  /** The loader keeps a name exactly when it has no drive prefix, no backslash and, the root aside, no
      trailing slash. */
  lemma NormalIff(name: string)
    ensures Normalize(name) == name <==>
      !HasDrive(name) && '\\' !in name && !(|name| > 1 && name[|name| - 1] == '/')
  {
    hide Slashes;
    forall i | 0 <= i < |name|
      ensures Slashes(name)[i] == if name[i] == '\\' then '/' else name[i]
    {
      SlashesAt(name, i);
    }
    if HasDrive(name) {
      assert |Slashes(name[2..])| == |name| - 2;
    } else if '\\' in name {
      var i :| 0 <= i < |name| && name[i] == '\\';
      assert Slashes(name)[i] == '/';
    } else {
      assert Slashes(name) == name;
    }
  }

  // ---- entries ----

  ghost predicate Storable(e: Entry) {
    && e.name != "" && '\0' !in e.name && |e.name| <= NAME_MAX
    && e.size < 0x1_0000_0000 && e.kind < 256 && e.attr < 256 && e.parent < 65536
  }

  lemma FieldFront(t: string, n: nat)
    requires |t| <= n
    ensures Field(t, n)[..|t|] == t
  {
  }

  lemma EntryParts(e: Entry)
    ensures var s := EntrySector(e);
      && s[..NAME_FIELD] == Field(e.name, NAME_FIELD) && s[56..60] == Word(e.size, 4) && s[60..61] == Word(e.kind, 1)
      && s[61..62] == Word(e.attr, 1) && s[62..64] == Word(e.parent, 2)
  {
    hide Word;
    var s, r := EntrySector(e), EntryRecord(e);
    FieldFront(r, SECTOR);
    assert s[..64] == r;
    hide EntrySector, Field;
    assert s[..NAME_FIELD] == r[..NAME_FIELD] == Field(e.name, NAME_FIELD);
    assert s[56..60] == r[56..60] == Word(e.size, 4);
    assert s[60..61] == r[60..61] == Word(e.kind, 1);
    assert s[61..62] == r[61..62] == Word(e.attr, 1);
    assert s[62..64] == r[62..64] == Word(e.parent, 2);
  }

  /** An entry comes back with its name cleaned up and everything else as it was. */
  lemma EntryRead(e: Entry)
    requires Storable(e)
    ensures LoadEntry(EntrySector(e)) == e.(name := Normalize(e.name)) && EntrySector(e)[0] != '\0'
  {
    hide EntrySector, Word, WordValue, Field, CStr, Normalize;
    EntryParts(e);
    FieldRead(e.name, NAME_FIELD);
    Limits();
    WordRead(e.size, 4);
    WordRead(e.kind, 1);
    WordRead(e.attr, 1);
    WordRead(e.parent, 2);
    var s := EntrySector(e);
    FieldHead(e.name, NAME_FIELD);
    assert s[0] == s[..NAME_FIELD][0];
  }

  lemma FieldHead(t: string, n: nat)
    requires t != "" && '\0' !in t && |t| < n
    ensures Field(t, n)[0] == t[0] != '\0'
  {
  }

  lemma Limits()
    ensures Limit(1) == 256 && Limit(2) == 65536 && Limit(4) == 0x1_0000_0000
  {
    assert Limit(3) == 256 * Limit(2);
  }

  ghost predicate StorableTable(fs: Fs)
    requires fs.count <= |fs.slots|
  {
    forall i | 0 <= i < fs.count :: Storable(fs.slots[i]) && Normalize(fs.slots[i].name) == fs.slots[i].name
  }

  /** The saved table is at its addresses. */
  ghost predicate TableOnDisk(disk: Disk, table: seq<Entry>)
    requires IsDisk(disk) && |table| <= MAX_FILES
  {
    && (forall i | 0 <= i < |table| :: disk[TABLE_LBA + i] == EntrySector(table[i]))
    && (|table| < MAX_FILES ==> disk[TABLE_LBA + |table|] == Zeros(SECTOR))
  }

  lemma {:induction false} TableRead(disk: Disk, table: seq<Entry>, i: nat)
    requires IsDisk(disk) && i <= |table| <= MAX_FILES && TableOnDisk(disk, table)
    requires forall j | 0 <= j < |table| :: Storable(table[j]) && Normalize(table[j].name) == table[j].name
    ensures LoadTable(disk, i) == table[i..]
    decreases |table| - i
  {
    hide EntrySector, LoadEntry, Storable, Normalize;
    if i < |table| {
      assert disk[TABLE_LBA + i] == EntrySector(table[i]);
      EntryRead(table[i]);
      TableRead(disk, table, i + 1);
    }
  }

  // ---- users ----

  ghost predicate StorableUsers(users: seq<string>) {
    |users| <= MAX_USERS && forall i | 0 <= i < |users| :: |users[i]| == 64 && users[i][0] != '\0'
  }

  ghost predicate UsersOnDisk(disk: Disk, users: seq<string>)
    requires IsDisk(disk) && |users| <= MAX_USERS
  {
    && (forall i | 0 <= i < |users| :: disk[USERS_LBA + i] == UserSector(users[i]))
    && (forall lba | USERS_LBA + |users| <= lba < USERS_LBA + MAX_USERS :: disk[lba] == Zeros(SECTOR))
  }

  lemma UserRead(user: string)
    requires |user| == 64
    ensures UserSector(user)[..64] == user && UserSector(user)[0] == user[0]
  {
    FieldFront(user, SECTOR);
    assert UserSector(user)[0] == UserSector(user)[..64][0];
  }

  lemma {:induction false} UsersRead(disk: Disk, users: seq<string>, i: nat)
    requires IsDisk(disk) && StorableUsers(users) && UsersOnDisk(disk, users) && i <= MAX_USERS
    ensures LoadUsers(disk, i) == if i <= |users| then users[i..] else []
    decreases MAX_USERS - i
  {
    hide UserSector;
    if i < MAX_USERS {
      UsersRead(disk, users, i + 1);
      if i < |users| {
        assert disk[USERS_LBA + i] == UserSector(users[i]);
        UserRead(users[i]);
      } else {
        assert disk[USERS_LBA + i] == Zeros(SECTOR);
      }
    }
  }

  // ---- contents ----

  ghost predicate DataOnDisk(disk: Disk, i: nat, data: string)
    requires IsDisk(disk) && i < MAX_FILES
  {
    forall k | 0 <= k < FILE_SECTORS :: disk[CONTENT_LBA + i * FILE_SECTORS + k] == DataSector(data, k)
  }

  lemma SectorRead(data: string, k: nat)
    requires k * SECTOR <= |data|
    ensures var rest := data[k * SECTOR..]; Take(DataSector(data, k), |rest|) == Take(rest, SECTOR)
  {
    var part := Take(data[k * SECTOR..], SECTOR);
    FieldFront(part, SECTOR);
  }

  lemma {:induction false} DataRead(disk: Disk, i: nat, data: string, k: nat)
    requires IsDisk(disk) && i < MAX_FILES && DataOnDisk(disk, i, data) && |data| <= MAX_FILE_SIZE
    requires k <= FILE_SECTORS && k * SECTOR <= |data|
    ensures LoadData(disk, i, k, |data| - k * SECTOR) == data[k * SECTOR..]
    decreases FILE_SECTORS - k
  {
    hide DataSector;
    var rest := data[k * SECTOR..];
    if k < FILE_SECTORS && rest != "" {
      assert disk[CONTENT_LBA + i * FILE_SECTORS + k] == DataSector(data, k);
      SectorRead(data, k);
      if |rest| > SECTOR {
        DataRead(disk, i, data, k + 1);
        assert rest == rest[..SECTOR] + data[(k + 1) * SECTOR..];
      } else {
        NothingLeft(disk, i, k + 1);
        assert rest + "" == rest;
      }
    }
  }

  lemma NothingLeft(disk: Disk, i: nat, k: nat)
    requires IsDisk(disk) && i < MAX_FILES
    ensures LoadData(disk, i, k, 0) == ""
  {
  }

  predicate NonEmptyFile(e: Entry) {
    e.size > 0 && e.kind == 0
  }

  /** The non-empty files from entry i on. */
  function NonEmpty(table: seq<Entry>, i: nat): seq<nat>
    decreases |table| - i
  {
    if i >= |table| then []
    else if NonEmptyFile(table[i]) then [i] + NonEmpty(table, i + 1)
    else NonEmpty(table, i + 1)
  }

  /** Indices of non-empty files, increasing, none below i. */
  predicate Ordered(table: seq<Entry>, i: nat, s: seq<nat>) {
    && (forall a | 0 <= a < |s| :: i <= s[a] < |table| && NonEmptyFile(table[s[a]]))
    && (forall a, b | 0 <= a < b < |s| :: s[a] < s[b])
  }

  lemma {:induction false} NonEmptyOrdered(table: seq<Entry>, i: nat)
    ensures Ordered(table, i, NonEmpty(table, i))
    decreases |table| - i
  {
    hide NonEmptyFile, Ordered;
    if i < |table| {
      NonEmptyOrdered(table, i + 1);
      OrderedMore(table, i, NonEmpty(table, i + 1));
    } else {
      OrderedNone(table, i);
    }
  }

  lemma OrderedNone(table: seq<Entry>, i: nat)
    ensures Ordered(table, i, [])
  {
  }

  lemma OrderedMore(table: seq<Entry>, i: nat, rest: seq<nat>)
    requires i < |table| && Ordered(table, i + 1, rest)
    ensures Ordered(table, i, if NonEmptyFile(table[i]) then [i] + rest else rest)
  {
    hide NonEmptyFile;
    var s := [i] + rest;
    assert s[0] == i;
    assert forall a | 0 < a < |s| :: s[a] == rest[a - 1];
  }

  lemma {:induction false} IncreasingFits(s: seq<nat>, r: set<nat>)
    requires forall a | 0 <= a < |s| :: s[a] in r
    requires forall a, b | 0 <= a < b < |s| :: s[a] < s[b]
    ensures |s| <= |r|
  {
    if s != [] {
      var last := s[|s| - 1];
      IncreasingFits(s[..|s| - 1], r - {last});
    }
  }

  ghost function Indices(contents: seq<Content>): set<nat> {
    if contents == [] then {} else {contents[0].idx} + Indices(contents[1..])
  }

  lemma {:induction false} IndicesCounted(contents: seq<Content>)
    ensures |Indices(contents)| <= |contents|
    ensures forall c | 0 <= c < |contents| :: contents[c].idx in Indices(contents)
  {
    if contents != [] {
      IndicesCounted(contents[1..]);
      assert forall c | 0 < c < |contents| :: contents[c] == contents[1..][c - 1];
    }
  }

  /** Every non-empty file has a content slot. */
  ghost predicate HasContents(fs: Fs)
    requires fs.count <= |fs.slots|
  {
    forall i | 0 <= i < fs.count && NonEmptyFile(fs.slots[i]) :: FindContent(fs.contents, i) < |fs.contents|
  }

  lemma FilesFit(fs: Fs)
    requires Sound(fs) && HasContents(fs)
    ensures |NonEmpty(Table(fs), 0)| <= MAX_CONTENTS
  {
    hide NonEmptyFile, FindContent;
    var s := NonEmpty(Table(fs), 0);
    NonEmptyOrdered(Table(fs), 0);
    IndicesCounted(fs.contents);
    forall a | 0 <= a < |s|
      ensures s[a] in Indices(fs.contents)
    {
      var i := s[a];
      assert NonEmptyFile(Table(fs)[i]) && Table(fs)[i] == fs.slots[i];
      ContentFound(fs.contents, s[a]);
    }
    IncreasingFits(s, Indices(fs.contents));
  }

  /** What the loader's slots hold: one for each non-empty file from i on, with its bytes. */
  ghost predicate Restores(fs: Fs, contents: seq<Content>, i: nat)
    requires fs.count <= |fs.slots|
  {
    forall j | i <= j < fs.count ::
      var c := FindContent(contents, j);
      if NonEmptyFile(fs.slots[j]) then c < |contents| && contents[c].data == DataOf(fs, j) else c == |contents|
  }

  function DataOf(fs: Fs, i: nat): string {
    var c := FindContent(fs.contents, i);
    if c < |fs.contents| then fs.contents[c].data else ""
  }

  ghost predicate ContentsOnDisk(disk: Disk, fs: Fs)
    requires IsDisk(disk) && fs.count <= |fs.slots| && fs.count <= MAX_FILES
  {
    forall i | 0 <= i < fs.count && NonEmptyFile(fs.slots[i]) :: DataOnDisk(disk, i, DataOf(fs, i))
  }

  lemma DataFits(fs: Fs, i: nat)
    requires Sound(fs) && HasContents(fs) && i < fs.count && NonEmptyFile(fs.slots[i])
    ensures |DataOf(fs, i)| == fs.slots[i].size <= MAX_FILE_SIZE
  {
    hide FindContent, NonEmptyFile;
    ContentFound(fs.contents, i);
  }

  lemma {:induction false} ContentsRead(disk: Disk, fs: Fs, i: nat, room: nat)
    requires IsDisk(disk) && Sound(fs) && HasContents(fs) && ContentsOnDisk(disk, fs)
    requires i <= fs.count && room >= |NonEmpty(Table(fs), i)|
    ensures var cs := LoadContents(disk, Table(fs), i, room);
      && Restores(fs, cs, i) && (forall c | 0 <= c < |cs| :: i <= cs[c].idx < fs.count)
    decreases fs.count - i
  {
    hide NonEmptyFile, DataOnDisk, LoadData, FindContent, Sound, HasContents, DataOf;
    InRange(fs);
    if i < fs.count {
      var e := fs.slots[i];
      assert Table(fs)[i] == e;
      StepContents(disk, fs, i, room);
      if NonEmptyFile(e) {
        ContentsRead(disk, fs, i + 1, room - 1);
        var cs := LoadContents(disk, Table(fs), i + 1, room - 1);
        FileRead(disk, fs, i);
        RestoresMore(fs, cs, i, Content(i, DataOf(fs, i)));
      } else {
        ContentsRead(disk, fs, i + 1, room);
        RestoresSkip(fs, LoadContents(disk, Table(fs), i + 1, room), i);
      }
    }
  }

  lemma StepContents(disk: Disk, fs: Fs, i: nat, room: nat)
    requires IsDisk(disk) && Sound(fs) && i < fs.count && room >= |NonEmpty(Table(fs), i)|
    ensures var table := Table(fs);
      if NonEmptyFile(fs.slots[i]) then
        && room > 0 && room - 1 >= |NonEmpty(table, i + 1)|
        && LoadContents(disk, table, i, room) == [Content(i, LoadData(disk, i, 0, fs.slots[i].size))] + LoadContents(disk, table, i + 1, room - 1)
      else
        && room >= |NonEmpty(table, i + 1)|
        && (LoadContents(disk, table, i, room) == LoadContents(disk, table, i + 1, room))
  {
    hide LoadData;
    assert Table(fs)[i] == fs.slots[i];
  }

  lemma FileRead(disk: Disk, fs: Fs, i: nat)
    requires IsDisk(disk) && Sound(fs) && HasContents(fs) && ContentsOnDisk(disk, fs) && i < fs.count && NonEmptyFile(fs.slots[i])
    ensures LoadData(disk, i, 0, fs.slots[i].size) == DataOf(fs, i)
  {
    hide NonEmptyFile, DataOnDisk, LoadData, FindContent, DataOf, HasContents;
    DataFits(fs, i);
    DataRead(disk, i, DataOf(fs, i), 0);
  }

  lemma RestoresMore(fs: Fs, cs: seq<Content>, i: nat, c: Content)
    requires fs.count <= |fs.slots| && i < fs.count && NonEmptyFile(fs.slots[i])
    requires Restores(fs, cs, i + 1) && c == Content(i, DataOf(fs, i))
    ensures Restores(fs, [c] + cs, i)
  {
    hide NonEmptyFile, DataOf;
    assert ([c] + cs)[1..] == cs;
    forall j | i < j < fs.count
      ensures FindContent([c] + cs, j) == 1 + FindContent(cs, j)
    {
    }
  }

  lemma RestoresSkip(fs: Fs, cs: seq<Content>, i: nat)
    requires fs.count <= |fs.slots| && i < fs.count && !NonEmptyFile(fs.slots[i])
    requires Restores(fs, cs, i + 1) && forall c | 0 <= c < |cs| :: i + 1 <= cs[c].idx
    ensures Restores(fs, cs, i)
  {
    hide NonEmptyFile, DataOf, FindContent;
    ContentFound(cs, i);
    forall j | i <= j < fs.count
      ensures var c := FindContent(cs, j);
        if NonEmptyFile(fs.slots[j]) then c < |cs| && cs[c].data == DataOf(fs, j) else c == |cs|
    {
    }
  }

  // ---- addresses ----

  lemma FileAddress(i: nat, k: nat)
    requires i < MAX_FILES && k < FILE_SECTORS
    ensures var lba := CONTENT_LBA + i * FILE_SECTORS + k;
      CONTENT_LBA <= lba < DISK_SECTORS && (lba - CONTENT_LBA) / FILE_SECTORS == i && (lba - CONTENT_LBA) % FILE_SECTORS == k
  {
  }

  lemma SavedContents(v: Volume, disk: Disk)
    requires IsDisk(disk) && Sound(v.fs) && HasContents(v.fs)
    ensures ContentsOnDisk(SaveDisk(v, disk), v.fs)
  {
    hide NonEmptyFile, DataSector, FindContent, SaveDisk;
    forall i | 0 <= i < v.fs.count && NonEmptyFile(v.fs.slots[i])
      ensures DataOnDisk(SaveDisk(v, disk), i, DataOf(v.fs, i))
    {
      forall k | 0 <= k < FILE_SECTORS
        ensures SaveDisk(v, disk)[CONTENT_LBA + i * FILE_SECTORS + k] == DataSector(DataOf(v.fs, i), k)
      {
        FileAddress(i, k);
        SavedFileSector(v, disk, i, k);
      }
    }
  }

  lemma SavedFileSector(v: Volume, disk: Disk, i: nat, k: nat)
    requires IsDisk(disk) && Sound(v.fs) && i < v.fs.count && k < FILE_SECTORS && FindContent(v.fs.contents, i) < |v.fs.contents|
    ensures SaveDisk(v, disk)[CONTENT_LBA + i * FILE_SECTORS + k] == DataSector(DataOf(v.fs, i), k)
  {
    hide DataSector, FindContent, SaveDisk;
    FileAddress(i, k);
    var lba := CONTENT_LBA + i * FILE_SECTORS + k;
    assert SaveDisk(v, disk)[lba] == SavedSector(v, disk, lba);
  }

  lemma SavedTables(v: Volume, disk: Disk)
    requires IsDisk(disk) && Sound(v.fs) && |v.users| <= MAX_USERS
    ensures var d := SaveDisk(v, disk);
      && TableOnDisk(d, Table(v.fs)) && UsersOnDisk(d, v.users)
      && d[CURDIR_LBA] == DirSector(v.fs.dir) && d[VOLUME_LBA] == VolumeSector(v.tag, v.serial)
  {
    hide EntrySector, UserSector, DirSector, VolumeSector, DataSector, FindContent, SaveDisk;
    var d := SaveDisk(v, disk);
    forall i | 0 <= i < v.fs.count
      ensures d[TABLE_LBA + i] == EntrySector(v.fs.slots[i])
    {
      assert d[TABLE_LBA + i] == SavedSector(v, disk, TABLE_LBA + i);
    }
    forall i | 0 <= i < MAX_USERS
      ensures d[USERS_LBA + i] == if i < |v.users| then UserSector(v.users[i]) else Zeros(SECTOR)
    {
      assert d[USERS_LBA + i] == SavedSector(v, disk, USERS_LBA + i);
    }
    assert v.fs.count < MAX_FILES ==> d[TABLE_LBA + v.fs.count] == SavedSector(v, disk, TABLE_LBA + v.fs.count);
    assert d[CURDIR_LBA] == SavedSector(v, disk, CURDIR_LBA);
    assert d[VOLUME_LBA] == SavedSector(v, disk, VOLUME_LBA);
  }

  // ---- identity and directory ----

  lemma TagRead(tag: string, serial: nat)
    requires |tag| <= LABEL_MAX && '\0' !in tag && serial < 0x1_0000_0000
    ensures var s := VolumeSector(tag, serial);
      CStr(Take(s, LABEL_MAX)) == tag && WordValue(s[16..20]) == serial
  {
    hide WordValue, CStr, Word;
    var r := Field(tag, 16) + Word(serial, 4);
    var s := VolumeSector(tag, serial);
    assert s == Field(r, SECTOR);
    FieldFront(r, SECTOR);
    assert s[..20] == r;
    assert s[16..20] == r[16..20] == Word(serial, 4);
    Limits();
    WordRead(serial, 4);
    assert Take(s, LABEL_MAX) == r[..LABEL_MAX] == Field(tag, LABEL_MAX);
    TagField(tag);
  }

  lemma {:induction false} WholeRead(t: string)
    requires '\0' !in t
    ensures CStr(t) == t
  {
    if t != "" {
      WholeRead(t[1..]);
    }
  }

  lemma TagField(tag: string)
    requires |tag| <= LABEL_MAX && '\0' !in tag
    ensures CStr(Field(tag, LABEL_MAX)) == tag
  {
    if |tag| == LABEL_MAX {
      assert Field(tag, LABEL_MAX) == tag;
      WholeRead(tag);
    } else {
      FieldRead(tag, LABEL_MAX);
    }
  }

  /** A directory of at most 255 bytes comes back over the boot directory exactly when it is absolute. */
  lemma DirRead(dir: string)
    requires '\0' !in dir && |dir| <= 255 && dir != "/"
    ensures LoadDir(DirSector(dir), "/") == dir <==> "/" <= dir
  {
    hide CStr;
    var s := DirSector(dir);
    assert Take(s, 256) == Field(dir, 256);
    FieldRead(dir, 256);
  }

  // ---- the main results ----

  /** What a volume must satisfy for its tables to come back whole. */
  ghost predicate Keepable(v: Volume) {
    && Sound(v.fs) && StorableTable(v.fs) && StorableUsers(v.users)
    && '\0' !in v.fs.dir && |v.fs.dir| <= 255 && "/" <= v.fs.dir
    && Labelled(v)
  }

  predicate Labelled(v: Volume) {
    '\0' !in v.tag && |v.tag| <= LABEL_MAX && v.serial < 0x1_0000_0000
  }

  /** And for its bytes to do so too. */
  ghost predicate Saveable(v: Volume) {
    Keepable(v) && HasContents(v.fs)
  }

  /** The state at boot: root directory, no entries. */
  ghost predicate Boot(v: Volume) {
    Sound(v.fs) && v.fs.dir == "/" && v.fs.count == 0 && v.users == []
  }

  ghost predicate Restored(v: Volume, w: Volume) {
    && Sound(v.fs) && |w.fs.slots| == MAX_FILES && w.fs.count == v.fs.count && Table(w.fs) == Table(v.fs)
    && w.fs.dir == v.fs.dir && w.users == v.users && w.tag == v.tag && w.serial == v.serial
    && Restores(v.fs, w.fs.contents, 0)
  }

  /** Loading at boot what was saved over any disk restores entries, users, identity, directory and the
      bytes of every non-empty file, and leaves the disk alone. */
  lemma SaveThenBoot(v: Volume, disk: Disk, before: Volume, serial: nat)
    requires Saveable(v) && v.tag != "" && IsDisk(disk) && Boot(before)
    ensures var (w, d) := LoadDisk(SaveDisk(v, disk), before, serial);
      Restored(v, w) && d == SaveDisk(v, disk)
  {
    hide SaveDisk, LoadDisk, LoadContents, ContentsOnDisk, Restores, HasContents, StorableTable, StorableUsers, LoadDir;
    TablesReload(v, disk, before, serial);
    DirBack(v.fs.dir);
    SavedContents(v, disk);
    FilesFit(v.fs);
    ContentsRead(SaveDisk(v, disk), v.fs, 0, MAX_CONTENTS);
  }

  /** Whatever the content slots are, the tables of a labelled volume come back, and the loader builds its slots
      for them from the sectors that are there. */
  lemma TablesReload(v: Volume, disk: Disk, before: Volume, serial: nat)
    requires Keepable(v) && v.tag != "" && IsDisk(disk) && Sound(before.fs)
    ensures var (w, d) := LoadDisk(SaveDisk(v, disk), before, serial);
      && d == SaveDisk(v, disk) && |w.fs.slots| == MAX_FILES && w.fs.count == v.fs.count && Table(w.fs) == Table(v.fs)
      && w.fs.dir == LoadDir(DirSector(v.fs.dir), before.fs.dir) && w.users == v.users && w.tag == v.tag && w.serial == v.serial
      && w.fs.contents == LoadContents(d, Table(v.fs), 0, MAX_CONTENTS)
  {
    hide EntrySector, UserSector, DirSector, VolumeSector, SaveDisk, CStr, WordValue, LoadTable, LoadUsers, LoadContents;
    hide TableOnDisk, UsersOnDisk, LoadDir;
    var d := SaveDisk(v, disk);
    SavedTables(v, disk);
    TagRead(v.tag, v.serial);
    TableRead(d, Table(v.fs), 0);
    UsersRead(d, v.users, 0);
    assert Table(v.fs)[0..] == Table(v.fs) && v.users[0..] == v.users;
  }

  lemma DirBack(dir: string)
    requires '\0' !in dir && |dir| <= 255 && "/" <= dir
    ensures LoadDir(DirSector(dir), "/") == dir
  {
    hide CStr;
    var s := DirSector(dir);
    assert Take(s, 256) == Field(dir, 256);
    FieldRead(dir, 256);
  }

  /** Seen through paths: a non-empty plain file reads the same after a reboot, anything else does not
      read at all. */
  lemma PathsAfterBoot(v: Volume, w: Volume, path: string)
    requires Restored(v, w)
    ensures var i := FindEntry(Table(v.fs), path);
      ReadPath(w.fs, path)
      == if i < v.fs.count && NonEmptyFile(v.fs.slots[i]) then Some(DataOf(v.fs, i)) else None
  {
    hide FindEntry, FindContent, DataOf, NonEmptyFile;
  }

  /** A volume saved with an empty label loses every entry at the next boot: the loader saves its own
      empty table first. So the label decides. */
  lemma LabelDecides(v: Volume, disk: Disk, before: Volume, serial: nat)
    requires Keepable(v) && IsDisk(disk) && Boot(before) && serial < 0x1_0000_0000
    ensures LoadDisk(SaveDisk(v, disk), before, serial).0.fs.count == (if v.tag == "" then 0 else v.fs.count)
  {
    hide EntrySector, UserSector, DirSector, VolumeSector, SaveDisk, CStr, WordValue, LoadTable, LoadUsers, LoadContents, LoadDir;
    hide HasContents, StorableTable, StorableUsers;
    if v.tag != "" {
      TablesReload(v, disk, before, serial);
    } else {
      var d := SaveDisk(v, disk);
      SavedTables(v, disk) by { UsersFit(v); }
      TagRead(v.tag, v.serial);
      var dir := LoadDir(d[CURDIR_LBA], before.fs.dir);
      var renamed := Volume(before.fs.(dir := dir), before.users, DEFAULT_TAG, serial);
      SavedTables(renamed, d);
      EmptyTableRead(SaveDisk(renamed, d), Table(renamed.fs));
    }
  }

  lemma UsersFit(v: Volume)
    requires Keepable(v)
    ensures |v.users| <= MAX_USERS
  {
  }

  lemma EmptyTableRead(disk: Disk, table: seq<Entry>)
    requires IsDisk(disk) && table == [] && TableOnDisk(disk, table)
    ensures LoadTable(disk, 0) == []
  {
    assert disk[TABLE_LBA + 0] == Zeros(SECTOR);
  }
}
