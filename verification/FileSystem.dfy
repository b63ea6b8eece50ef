/** AurionFS itself: fixed tables updated in place and saved to the disk after every change. */
module FileSystem {
  import opened CText
  import opened FsModel
  import opened FsDisk
  import opened FsRuns
  import opened Wrappers

  class AurionFs {
    const slots: array<Entry>
    const contents: array<Content>
    const disk: array<string>
    var count: nat
    var contentCount: nat
    var dir: string
    var users: seq<string>
    var tag: string
    var serial: nat

    ghost predicate Shaped()
      reads this, slots, contents, disk
    {
      && slots.Length == MAX_FILES && contents.Length == MAX_CONTENTS
      && count <= MAX_FILES && contentCount <= MAX_CONTENTS && |users| <= MAX_USERS && IsDisk(disk[..])
    }

    ghost function Now(): Fs
      requires contentCount <= contents.Length
      reads this, slots, contents
    {
      Fs(slots[..], count, contents[..contentCount], dir)
    }

    ghost predicate Valid()
      reads this, slots, contents, disk
    {
      Shaped() && Sound(Now())
    }

    ghost function Vol(): Volume
      requires contentCount <= contents.Length
      reads this, slots, contents
    {
      Volume(Now(), users, tag, serial)
    }

    /** The boot state over a given disk. */
    constructor (sectors: seq<string>)
      requires IsDisk(sectors)
      ensures Valid() && disk[..] == sectors && Now().count == 0 && dir == "/" && users == []
      ensures fresh(slots) && fresh(contents) && fresh(disk)
    {
      slots := new Entry[MAX_FILES](_ => Entry("", 0, 0, 0, 0));
      contents := new Content[MAX_CONTENTS](_ => Content(0, ""));
      disk := new string[|sectors|](i requires 0 <= i < |sectors| => sectors[i]);
      count, contentCount, dir, users, tag, serial := 0, 0, "/", [], "SYSTEM", 0;
      new;
      assert disk[..] == sectors;
    }

    // ---- searching ----

    method SearchEntry(path: string) returns (i: nat)
      requires Shaped()
      ensures i == FindEntry(Table(Now()), path)
    {
      hide Upper, IsDisk;
      i := 0;
      while i < count
        invariant i <= count
        invariant FindEntry(slots[..count], path) == i + FindEntry(slots[i..count], path)
      {
        var d := StrCmp(slots[i].name, path);
        assert slots[i..count][0] == slots[i] && slots[i..count][1..] == slots[i + 1..count];
        if d == 0 {
          break;
        }
        i := i + 1;
      }
      assert Table(Now()) == slots[..count];
    }

    method SearchContent(idx: nat) returns (c: nat)
      requires Shaped()
      ensures c == FindContent(Now().contents, idx)
    {
      hide IsDisk;
      c := 0;
      while c < contentCount
        invariant c <= contentCount
        invariant FindContent(contents[..contentCount], idx) == c + FindContent(contents[c..contentCount], idx)
      {
        assert contents[c..contentCount][0] == contents[c] && contents[c..contentCount][1..] == contents[c + 1..contentCount];
        if contents[c].idx == idx {
          break;
        }
        c := c + 1;
      }
    }

    // ---- operations ----

    /** Writes the bytes of entry i in memory. */
    method StoreBytes(i: nat, bytes: string) returns (rc: int)
      requires Shaped() && i < count
      modifies slots, contents, this`contentCount
      ensures Shaped() && (rc, Now()) == Store(old(Now()), i, bytes)
    {
      hide IsDisk, FindContent;
      slots[i] := slots[i].(size := |bytes|);
      assert slots[..] == old(slots[..])[i := slots[i]];
      var c := SearchContent(i);
      FoundInRange(Now().contents, i);
      if c == contentCount {
        if contentCount >= MAX_CONTENTS {
          return -1;
        }
        contentCount := contentCount + 1;
      }
      contents[c] := Content(i, bytes);
      assert contents[..contentCount] ==
        if c < old(contentCount) then old(Now().contents)[c := Content(i, bytes)] else old(Now().contents) + [Content(i, bytes)];
      rc := 0;
    }

    method AddEntry(e: Entry)
      requires Shaped() && count < MAX_FILES
      modifies slots, this`count
      ensures Shaped() && Now() == Create(old(Now()), e)
    {
      hide IsDisk;
      slots[count] := e;
      count := count + 1;
      assert slots[..] == old(slots[..])[old(count) := e];
    }

    method SaveFile(name: string, data: string, len: int) returns (rc: int)
      requires Valid() && len <= |data|
      modifies slots, contents, disk, this`count, this`contentCount
      ensures Valid()
      ensures if len < 0 then rc == -1 && Now() == old(Now()) && disk[..] == old(disk[..])
              else (rc, Now()) == Save(old(Now()), name, data[..len])
      ensures rc == 0 ==> disk[..] == SaveDisk(Vol(), old(disk[..]))
      ensures rc != 0 ==> disk[..] == old(disk[..])
    {
      hide IsDisk, Sound, FindEntry, Store, Create, Resolve, Take;
      if len < 0 {
        return -1;
      }
      SaveNames(Now(), Resolve(name, dir), data[..len]);
      InRange(Now());
      var path := Resolve(name, dir);
      var idx := SearchEntry(path);
      if idx == count {
        if count >= MAX_FILES {
          return -1;
        }
        AddEntry(Entry(Take(path, NAME_MAX), 0, 0, 0, 0xFFFF));
        CreateCounts(old(Now()), Entry(Take(path, NAME_MAX), 0, 0, 0, 0xFFFF));
      }
      rc := StoreBytes(idx, Take(data[..len], MAX_FILE_SIZE));
      if rc == 0 {
        SaveToDisk();
      }
    }

    method LoadFile(name: string, room: int) returns (r: Option<string>)
      requires Valid()
      ensures r == Load(Now(), name, room)
    {
      hide IsDisk, Sound, FindEntry, FindContent, Resolve, Take;
      InRange(Now());
      if room <= 0 {
        return None;
      }
      var idx := SearchEntry(Resolve(name, dir));
      if idx == count {
        return None;
      }
      var c := SearchContent(idx);
      FoundInRange(Now().contents, idx);
      if c == contentCount {
        return None;
      }
      r := Some(Take(contents[c].data, room));
    }

    method LoadFileRange(name: string, offset: nat, room: int) returns (r: Option<string>)
      requires Valid()
      ensures r == LoadRange(Now(), name, offset, room)
    {
      hide IsDisk, Sound, FindEntry, FindContent, Resolve, Take;
      InRange(Now());
      if room <= 0 {
        return None;
      }
      var idx := SearchEntry(Resolve(name, dir));
      if idx == count {
        return None;
      }
      var c := SearchContent(idx);
      FoundInRange(Now().contents, idx);
      if c == contentCount || offset >= |contents[c].data| {
        return None;
      }
      r := Some(Take(contents[c].data[offset..], room));
    }

    method StoredContentBytes(name: string) returns (n: int)
      requires Valid()
      ensures n == StoredBytes(Now(), name)
    {
      hide IsDisk, Sound, FindEntry, FindContent, Resolve;
      InRange(Now());
      var idx := SearchEntry(Resolve(name, dir));
      if idx == count {
        return -1;
      }
      var c := SearchContent(idx);
      FoundInRange(Now().contents, idx);
      if c == contentCount {
        return 0;
      }
      n := |contents[c].data|;
    }

    method MakeDir(name: string) returns (rc: int)
      requires Valid()
      modifies slots, disk, this`count
      ensures Valid() && (rc, Now()) == Mkdir(old(Now()), name)
      ensures disk[..] == if rc == 0 then SaveDisk(Vol(), old(disk[..])) else old(disk[..])
    {
      hide IsDisk, Sound, FindEntry, Create, FullPath, Take;
      InRange(Now());
      if name == "" || count >= MAX_FILES {
        return -1;
      }
      var path := FullPath(name, dir);
      var i := SearchEntry(path);
      if i < count {
        return -1;
      }
      AddMade(path, 1, 0x10);
      rc := 0;
    }

    method MakeDirAbs(path: string) returns (rc: int)
      requires Valid()
      modifies slots, disk, this`count
      ensures Valid() && (rc, Now()) == MkdirAbs(old(Now()), path)
      ensures disk[..] == if rc == 0 then SaveDisk(Vol(), old(disk[..])) else old(disk[..])
    {
      hide IsDisk, Sound, FindEntry, Create, Take;
      InRange(Now());
      if !("/" <= path) {
        return -1;
      }
      if count >= MAX_FILES {
        return -2;
      }
      var i := SearchEntry(path);
      if i < count {
        return -3;
      }
      AddMade(path, 1, 0x10);
      rc := 0;
    }

    method TouchFile(name: string) returns (rc: int)
      requires Valid()
      modifies slots, disk, this`count
      ensures Valid() && (rc, Now()) == Touch(old(Now()), name)
      ensures disk[..] == if Now().count > old(count) then SaveDisk(Vol(), old(disk[..])) else old(disk[..])
    {
      hide IsDisk, Sound, FindEntry, FullPath, Take;
      InRange(Now());
      if name == "" || count >= MAX_FILES {
        return -1;
      }
      var path := FullPath(name, dir);
      var i := SearchEntry(path);
      if i < count {
        return 0;
      }
      AddMade(path, 0, 0x20);
      rc := 0;
    }

    method AddMade(path: string, kind: nat, attr: nat)
      requires Valid() && count < MAX_FILES
      modifies slots, disk, this`count
      ensures Valid() && Now() == MakeEntry(old(Now()), path, kind, attr) && count == old(count) + 1
      ensures disk[..] == SaveDisk(Vol(), old(disk[..]))
    {
      hide IsDisk, Sound, Take;
      InRange(Now());
      var e := Entry(Take(path, NAME_MAX), 0, kind, attr, slots[count].parent);
      CreateKeeps(Now(), e);
      AddEntry(e);
      SaveToDisk();
    }

    // ---- saving ----

    method SaveToDisk()
      requires Valid()
      modifies disk
      ensures Valid() && disk[..] == SaveDisk(Vol(), old(disk[..]))
    {
      hide Sound, DirSector, VolumeSector, EntrySector, UserSector, DataSector, FindContent;
      ghost var before := disk[..];
      InRange(Now());
      disk[CURDIR_LBA] := DirSector(dir);
      disk[VOLUME_LBA] := VolumeSector(tag, serial);
      SaveTable();
      SaveUsers();
      ghost var middle := disk[..];
      SaveContents();
      assert forall lba | 0 <= lba < |before| :: disk[lba] == SavedSector(Vol(), before, lba);
      assert disk[..] == SaveDisk(Vol(), before);
    }

    method SaveTable()
      requires Shaped()
      modifies disk
      ensures Shaped()
      ensures forall lba | TABLE_LBA <= lba < USERS_LBA ::
        disk[lba] == (if lba - TABLE_LBA < count then EntrySector(slots[lba - TABLE_LBA]) else Zeros(SECTOR))
      ensures forall lba | 0 <= lba < disk.Length && !(TABLE_LBA <= lba < USERS_LBA) :: disk[lba] == old(disk[lba])
    {
      hide EntrySector;
      for i := 0 to MAX_FILES
        invariant Shaped()
        invariant forall lba | TABLE_LBA <= lba < TABLE_LBA + i ::
          disk[lba] == (if lba - TABLE_LBA < count then EntrySector(slots[lba - TABLE_LBA]) else Zeros(SECTOR))
        invariant forall lba | 0 <= lba < disk.Length && !(TABLE_LBA <= lba < TABLE_LBA + i) :: disk[lba] == old(disk[lba])
      {
        disk[TABLE_LBA + i] := if i < count then EntrySector(slots[i]) else Zeros(SECTOR);
      }
    }

    method SaveUsers()
      requires Shaped()
      modifies disk
      ensures Shaped()
      ensures forall lba | USERS_LBA <= lba < USERS_LBA + MAX_USERS ::
        disk[lba] == (if lba - USERS_LBA < |users| then UserSector(users[lba - USERS_LBA]) else Zeros(SECTOR))
      ensures forall lba | 0 <= lba < disk.Length && !(USERS_LBA <= lba < USERS_LBA + MAX_USERS) :: disk[lba] == old(disk[lba])
    {
      hide UserSector;
      for i := 0 to MAX_USERS
        invariant Shaped()
        invariant forall lba | USERS_LBA <= lba < USERS_LBA + i ::
          disk[lba] == (if lba - USERS_LBA < |users| then UserSector(users[lba - USERS_LBA]) else Zeros(SECTOR))
        invariant forall lba | 0 <= lba < disk.Length && !(USERS_LBA <= lba < USERS_LBA + i) :: disk[lba] == old(disk[lba])
      {
        disk[USERS_LBA + i] := if i < |users| then UserSector(users[i]) else Zeros(SECTOR);
      }
    }

    /** Each slot's sixteen sectors, at the address its entry index gives. */
    method SaveContents()
      requires Valid()
      modifies disk
      ensures Valid()
      ensures forall lba | 0 <= lba < disk.Length :: disk[lba] == ContentAt(Now().contents, contentCount, old(disk[..]), lba)
    {
      hide Sound, DataSector, FindContent, ContentAt;
      InRange(Now());
      ghost var cs := Now().contents;
      NoneWritten(cs, disk[..]);
      for c := 0 to contentCount
        invariant Valid() && Now().contents == cs
        invariant forall lba | 0 <= lba < disk.Length :: disk[lba] == ContentAt(cs, c, old(disk[..]), lba)
      {
        ContentOwner(Now(), c);
        ghost var before := disk[..];
        SaveFileSectors(contents[c].idx, contents[c].data);
        OneMoreWritten(cs, c, old(disk[..]), before, disk[..]);
      }
    }

    method SaveFileSectors(idx: nat, data: string)
      requires Shaped() && idx < MAX_FILES
      modifies disk
      ensures Shaped()
      ensures forall lba | 0 <= lba < disk.Length ::
        disk[lba] == (if InFile(idx, lba) then DataSector(data, (lba - CONTENT_LBA) % FILE_SECTORS) else old(disk[lba]))
    {
      hide DataSector;
      for k := 0 to FILE_SECTORS
        invariant Shaped()
        invariant forall lba | 0 <= lba < disk.Length ::
          disk[lba] == if CONTENT_LBA + idx * FILE_SECTORS <= lba < CONTENT_LBA + idx * FILE_SECTORS + k
                       then DataSector(data, lba - CONTENT_LBA - idx * FILE_SECTORS) else old(disk[lba])
      {
        disk[CONTENT_LBA + idx * FILE_SECTORS + k] := DataSector(data, k);
      }
    }

    // ---- loading ----

    /** `clock` is the serial number a disk without a label gets. */
    method LoadFromDisk(clock: nat)
      requires Valid()
      modifies this, slots, contents, disk
      ensures Shaped() && (Vol(), disk[..]) == LoadDisk(old(disk[..]), old(Vol()), clock)
    {
      hide Sound, LoadDir, CStr, WordValue, SaveDisk, LoadTable, LoadUsers, LoadContents;
      ghost var start := Vol();
      InRange(Now());
      dir := LoadDir(disk[CURDIR_LBA], dir);
      DirIsFree(start.fs, dir);
      var stored := CStr(Take(disk[VOLUME_LBA], LABEL_MAX));
      if stored != "" {
        tag, serial := stored, WordValue(disk[VOLUME_LBA][16..20]);
      } else {
        tag, serial := DEFAULT_TAG, clock;
        SaveToDisk();
      }
      ReadTable();
      ReadUsers();
      ReadContents();
    }

    method ReadTable()
      requires Shaped()
      modifies slots, this`count
      ensures Shaped()
      ensures var table := LoadTable(disk[..], 0);
        count == |table| && slots[..] == table + old(slots[..])[count..]
    {
      hide LoadEntry, LoadTable;
      count := 0;
      ghost var was, d, read := slots[..], disk[..], [];
      ghost var table := LoadTable(d, 0);
      NoDrop(was);
      NoDrop(table);
      while count < MAX_FILES && disk[TABLE_LBA + count][0] != '\0'
        invariant Shaped() && disk[..] == d && |read| == count
        invariant read + LoadTable(d, count) == table
        invariant slots[..] == read + was[count..]
      {
        TableStep(d, count, read);
        EntryPut(read, was, LoadEntry(disk[TABLE_LBA + count]));
        slots[count] := LoadEntry(disk[TABLE_LBA + count]);
        read := read + [LoadEntry(d[TABLE_LBA + count])];
        count := count + 1;
      }
      TableStops(d, count);
      NoDrop(read);
    }

    method ReadUsers()
      requires Shaped()
      modifies this`users
      ensures Shaped() && users == LoadUsers(disk[..], 0)
    {
      hide LoadUsers;
      users := [];
      ghost var all := LoadUsers(disk[..], 0);
      NoDrop(all);
      for i := 0 to MAX_USERS
        invariant |users| <= i && Shaped()
        invariant users + LoadUsers(disk[..], i) == all
      {
        UsersStep(disk[..], i, users);
        if disk[USERS_LBA + i][0] != '\0' {
          users := users + [disk[USERS_LBA + i][..64]];
        }
      }
      UsersStop(disk[..]);
      NoDrop(users);
    }

    method ReadContents()
      requires Shaped()
      modifies contents, this`contentCount
      ensures Shaped() && Now().contents == LoadContents(disk[..], slots[..count], 0, MAX_CONTENTS)
    {
      hide LoadData, LoadContents;
      contentCount := 0;
      ghost var d, table, read := disk[..], slots[..count], [];
      ghost var all := LoadContents(d, table, 0, MAX_CONTENTS);
      NoDrop(all);
      var i := 0;
      while i < count && contentCount < MAX_CONTENTS
        invariant Shaped() && i <= count && disk[..] == d && slots[..count] == table
        invariant contents[..contentCount] == read && |read| == contentCount
        invariant read + LoadContents(d, table, i, MAX_CONTENTS - contentCount) == all
      {
        ContentsStep(d, table, i, MAX_CONTENTS - contentCount, read);
        if slots[i].size > 0 && slots[i].kind == 0 {
          var data := ReadData(i, slots[i].size);
          contents[contentCount] := Content(i, data);
          read := read + [Content(i, data)];
          contentCount := contentCount + 1;
        }
        i := i + 1;
      }
      ContentsStop(d, table, i, MAX_CONTENTS - contentCount);
      NoDrop(read);
    }

    method ReadData(i: nat, size: nat) returns (data: string)
      requires Shaped() && i < MAX_FILES
      ensures data == LoadData(disk[..], i, 0, size)
    {
      hide Take, LoadData;
      data := "";
      var left := size;
      ghost var all := LoadData(disk[..], i, 0, size);
      NoDrop(all);
      var k := 0;
      while k < FILE_SECTORS && left > 0
        invariant 0 <= k <= FILE_SECTORS && left >= 0
        invariant data + LoadData(disk[..], i, k, left) == all
      {
        DataStep(disk[..], i, k, left, data);
        data := data + Take(disk[CONTENT_LBA + i * FILE_SECTORS + k], left);
        left := if left > SECTOR then left - SECTOR else 0;
        k := k + 1;
      }
      DataStops(disk[..], i, k, left);
      NoDrop(data);
    }
  }

  // ---- loading ----

  lemma TableStep(disk: Disk, i: nat, front: seq<Entry>)
    requires IsDisk(disk) && i < MAX_FILES && disk[TABLE_LBA + i][0] != '\0'
    ensures front + LoadTable(disk, i) == (front + [LoadEntry(disk[TABLE_LBA + i])]) + LoadTable(disk, i + 1)
  {
    hide LoadEntry;
  }

  lemma EntryPut(read: seq<Entry>, was: seq<Entry>, e: Entry)
    requires |read| < |was|
    ensures (read + was[|read|..])[|read| := e] == read + [e] + was[|read| + 1..]
  {
  }

  lemma TableStops(disk: Disk, i: nat)
    requires IsDisk(disk) && (i >= MAX_FILES || disk[TABLE_LBA + i][0] == '\0')
    ensures LoadTable(disk, i) == []
  {
  }

  lemma UsersStep(disk: Disk, i: nat, front: seq<string>)
    requires IsDisk(disk) && i < MAX_USERS
    ensures var s := disk[USERS_LBA + i];
      front + LoadUsers(disk, i) == (if s[0] == '\0' then front else front + [s[..64]]) + LoadUsers(disk, i + 1)
  {
  }

  lemma UsersStop(disk: Disk)
    requires IsDisk(disk)
    ensures LoadUsers(disk, MAX_USERS) == []
  {
  }

  lemma ContentsStep(disk: Disk, table: seq<Entry>, i: nat, room: nat, front: seq<Content>)
    requires IsDisk(disk) && |table| <= MAX_FILES && i < |table| && room > 0
    ensures front + LoadContents(disk, table, i, room)
         == if table[i].size > 0 && table[i].kind == 0
            then (front + [Content(i, LoadData(disk, i, 0, table[i].size))]) + LoadContents(disk, table, i + 1, room - 1)
            else front + LoadContents(disk, table, i + 1, room)
  {
    hide LoadData;
  }

  lemma ContentsStop(disk: Disk, table: seq<Entry>, i: nat, room: nat)
    requires IsDisk(disk) && |table| <= MAX_FILES && (i >= |table| || room == 0)
    ensures LoadContents(disk, table, i, room) == []
  {
  }

  lemma DataStep(disk: Disk, i: nat, k: nat, left: nat, front: string)
    requires IsDisk(disk) && i < MAX_FILES && k < FILE_SECTORS && left > 0
    ensures var part := Take(disk[CONTENT_LBA + i * FILE_SECTORS + k], left);
      front + LoadData(disk, i, k, left) == (front + part) + LoadData(disk, i, k + 1, if left > SECTOR then left - SECTOR else 0)
  {
    hide Take;
  }

  lemma DataStops(disk: Disk, i: nat, k: nat, left: nat)
    requires IsDisk(disk) && i < MAX_FILES && (k >= FILE_SECTORS || left == 0)
    ensures LoadData(disk, i, k, left) == ""
  {
  }

  lemma NoDrop<T>(t: seq<T>)
    ensures t + [] == t && [] + t == t
  {
  }

  // ---- the content region ----

  predicate InFile(idx: nat, lba: int) {
    CONTENT_LBA + idx * FILE_SECTORS <= lba < CONTENT_LBA + idx * FILE_SECTORS + FILE_SECTORS
  }

  /** What an address holds once the first n content slots are written. */
  ghost function ContentAt(cs: seq<Content>, n: nat, disk: Disk, lba: nat): string
    requires lba < |disk|
  {
    if CONTENT_LBA <= lba < DISK_SECTORS then
      var c := FindContent(cs, (lba - CONTENT_LBA) / FILE_SECTORS);
      if c < n && c < |cs| then DataSector(cs[c].data, (lba - CONTENT_LBA) % FILE_SECTORS) else disk[lba]
    else disk[lba]
  }

  lemma NoneWritten(cs: seq<Content>, disk: Disk)
    ensures forall lba | 0 <= lba < |disk| :: ContentAt(cs, 0, disk, lba) == disk[lba]
  {
    hide FindContent, DataSector;
  }

  lemma InFileIsIndex(idx: nat, lba: nat)
    requires idx < MAX_FILES && CONTENT_LBA <= lba < DISK_SECTORS
    ensures InFile(idx, lba) <==> (lba - CONTENT_LBA) / FILE_SECTORS == idx
  {
  }

  lemma InFileInRange(idx: nat, lba: nat)
    requires idx < MAX_FILES && InFile(idx, lba)
    ensures CONTENT_LBA <= lba < DISK_SECTORS
  {
  }

  lemma OneMoreWritten(cs: seq<Content>, c: nat, disk: Disk, before: Disk, after: Disk)
    requires c < |cs| && cs[c].idx < MAX_FILES && |disk| == |before| == |after|
    requires forall f: nat | FindContent(cs, f) == c :: f == cs[c].idx
    requires FindContent(cs, cs[c].idx) == c
    requires forall lba | 0 <= lba < |disk| :: before[lba] == ContentAt(cs, c, disk, lba)
    requires forall lba | 0 <= lba < |disk| ::
      after[lba] == (if InFile(cs[c].idx, lba) then DataSector(cs[c].data, (lba - CONTENT_LBA) % FILE_SECTORS) else before[lba])
    ensures forall lba | 0 <= lba < |disk| :: after[lba] == ContentAt(cs, c + 1, disk, lba)
  {
    hide FindContent, DataSector, InFile;
    forall lba | 0 <= lba < |disk|
      ensures after[lba] == ContentAt(cs, c + 1, disk, lba)
    {
      if CONTENT_LBA <= lba < DISK_SECTORS {
        InFileIsIndex(cs[c].idx, lba);
        assert (lba - CONTENT_LBA) / FILE_SECTORS < MAX_FILES;
      } else if InFile(cs[c].idx, lba) {
        InFileInRange(cs[c].idx, lba);
      }
    }
  }

  lemma ContentOwner(fs: Fs, c: nat)
    requires Sound(fs) && c < |fs.contents|
    ensures fs.contents[c].idx < MAX_FILES && FindContent(fs.contents, fs.contents[c].idx) == c
    ensures forall f: nat | FindContent(fs.contents, f) == c :: f == fs.contents[c].idx
  {
    hide FindContent;
    ContentFound(fs.contents, fs.contents[c].idx);
    forall f: nat | FindContent(fs.contents, f) == c
      ensures f == fs.contents[c].idx
    {
      ContentFound(fs.contents, f);
    }
  }

  lemma FoundInRange(contents: seq<Content>, idx: nat)
    ensures FindContent(contents, idx) <= |contents|
  {
  }

  lemma CreateCounts(fs: Fs, e: Entry)
    requires fs.count < |fs.slots|
    ensures Create(fs, e).count == fs.count + 1
  {
  }
}
