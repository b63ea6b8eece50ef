/** The saved disk byte by byte, and what the loader reads at each byte. */
module FsFormat {
  import opened CText
  import opened TextFacts
  import opened FsModel
  import opened FsDisk
  import opened FsPaths
  import opened FsRuns
  import opened FsRoundTrip
  import opened FsReload

  // ---- fields and words ----

  /** A text of characters, and zeros behind it. */
  function TextByte(t: string, k: nat): int {
    if k < |t| then t[k] as int else 0
  }

  lemma FieldByte(t: string, n: nat, k: nat)
    requires k < n
    ensures Field(t, n)[k] as int == TextByte(t, k)
  {
  }

  /** The lowest byte first. */
  lemma WordBytes(n: nat)
    ensures var w := Word(n, 4);
      && w[0] as int == n % 256 && w[1] as int == n / 256 % 256
      && w[2] as int == n / 256 / 256 % 256 && w[3] as int == n / 256 / 256 / 256 % 256
    ensures var w := Word(n, 2); w[0] as int == n % 256 && w[1] as int == n / 256 % 256
    ensures Word(n, 1)[0] as int == n % 256
  {
    assert Word(n / 256 / 256, 2)[0] == Byte(n / 256 / 256);
    assert Word(n / 256, 3)[0] == Byte(n / 256) && Word(n / 256, 3)[1..] == Word(n / 256 / 256, 2);
    assert Word(n, 4)[1..] == Word(n / 256, 3) && Word(n, 2)[1..] == Word(n / 256, 1);
  }

  lemma WordValueIs(t: string)
    requires |t| == 4 && forall k | 0 <= k < 4 :: t[k] as int < 256
    ensures WordValue(t) == t[0] as int + 0x100 * t[1] as int + 0x1_0000 * t[2] as int + 0x100_0000 * t[3] as int
    ensures WordValue(t[2..]) == t[2] as int + 0x100 * t[3] as int && WordValue(t[3..]) == t[3] as int
  {
    assert t[3..][1..] == "" && t[2..][1..] == t[3..] && t[1..][1..] == t[2..];
    assert WordValue(t[3..]) == t[3] as int + 256 * WordValue("");
    assert WordValue(t[1..]) == t[1] as int + 256 * WordValue(t[2..]);
  }

  // ---- the table ----

  /** Byte k of an entry on disk: 56 for the name, four for the size, one for the kind, one for the attribute and two for the
      parent, then zeros. */
  function EntryByte(e: Entry, k: nat): int {
    if k < 56 then TextByte(e.name, k)
    else if k == 56 then e.size % 256
    else if k == 57 then e.size / 256 % 256
    else if k == 58 then e.size / 256 / 256 % 256
    else if k == 59 then e.size / 256 / 256 / 256 % 256
    else if k == 60 then e.kind % 256
    else if k == 61 then e.attr % 256
    else if k == 62 then e.parent % 256
    else if k == 63 then e.parent / 256 % 256
    else 0
  }

  lemma EntryBytes(e: Entry, k: nat)
    requires k < 512
    ensures EntrySector(e)[k] as int == EntryByte(e, k)
  {
    hide Word, Field, EntryRecord;
    var s := EntrySector(e);
    EntryParts(e);
    WordBytes(e.size);
    WordBytes(e.kind);
    WordBytes(e.attr);
    WordBytes(e.parent);
    if k < 56 {
      FieldByte(e.name, NAME_FIELD, k);
      assert s[k] == s[..NAME_FIELD][k];
    } else if k < 60 {
      assert s[k] == s[56..60][k - 56];
    } else if k < 64 {
      assert s[60] == s[60..61][0] && s[61] == s[61..62][0] && s[62] == s[62..64][0] && s[63] == s[62..64][1];
    } else {
      FieldByte(EntryRecord(e), SECTOR, k);
    }
  }

  /** Entry i is saved in sector 1000 + i; the other sectors of the table are zeros. */
  lemma TableSaved(v: Volume, disk: Disk, i: nat, k: nat)
    requires IsDisk(disk) && v.fs.count <= |v.fs.slots| && i < 512 && k < 512
    ensures SaveDisk(v, disk)[1000 + i][k] as int == if i < v.fs.count then EntryByte(v.fs.slots[i], k) else 0
  {
    hide SaveDisk, EntrySector, EntryByte, DirSector, VolumeSector, UserSector, DataSector, FindContent;
    assert SaveDisk(v, disk)[1000 + i] == SavedSector(v, disk, 1000 + i);
    if i < v.fs.count {
      EntryBytes(v.fs.slots[i], k);
    }
  }

  // ---- users, directory and identity ----

  /** User i is saved in sector 1512 + i, its first 64 bytes; the directory in sector 499; the label and the serial number in
      sector 998. */
  lemma UsersSaved(v: Volume, disk: Disk, i: nat, k: nat)
    requires IsDisk(disk) && v.fs.count <= |v.fs.slots| && i < 32 && k < 512
    ensures SaveDisk(v, disk)[1512 + i][k] as int == if i < |v.users| && k < 64 then TextByte(v.users[i], k) else 0
  {
    hide SaveDisk, EntrySector, DirSector, VolumeSector, DataSector, FindContent, Field;
    assert SaveDisk(v, disk)[1512 + i] == SavedSector(v, disk, 1512 + i);
    if i < |v.users| {
      FieldByte(Take(v.users[i], 64), SECTOR, k);
    }
  }

  lemma DirSaved(v: Volume, disk: Disk, k: nat)
    requires IsDisk(disk) && v.fs.count <= |v.fs.slots| && k < 512
    ensures SaveDisk(v, disk)[499][k] as int == if k < 256 then TextByte(v.fs.dir, k) else 0
  {
    hide SaveDisk, EntrySector, UserSector, VolumeSector, DataSector, FindContent, Field;
    assert SaveDisk(v, disk)[499] == SavedSector(v, disk, 499);
    FieldByte(Take(v.fs.dir, 256), SECTOR, k);
  }

  lemma IdentitySaved(v: Volume, disk: Disk, k: nat)
    requires IsDisk(disk) && v.fs.count <= |v.fs.slots| && k < 512
    ensures SaveDisk(v, disk)[998][k] as int ==
      if k < 12 then TextByte(v.tag, k)
      else if k == 16 then v.serial % 256
      else if k == 17 then v.serial / 256 % 256
      else if k == 18 then v.serial / 256 / 256 % 256
      else if k == 19 then v.serial / 256 / 256 / 256 % 256
      else 0
  {
    hide SaveDisk, EntrySector, UserSector, DirSector, DataSector, FindContent, Field, Word;
    assert SaveDisk(v, disk)[998] == SavedSector(v, disk, 998);
    var tag := Take(v.tag, LABEL_MAX);
    var r := Field(tag, 16) + Word(v.serial, 4);
    FieldByte(r, SECTOR, k);
    WordBytes(v.serial);
    if k < 16 {
      FieldByte(tag, 16, k);
    }
  }

  // ---- contents ----

  lemma DataByte(data: string, k: nat, j: nat)
    requires j < 512
    ensures DataSector(data, k)[j] as int == TextByte(data, 512 * k + j)
  {
    hide Field;
    if k * SECTOR < |data| {
      FieldByte(Take(data[k * SECTOR..], SECTOR), SECTOR, j);
    }
  }

  /** Byte j of the content of entry i is byte j of the sixteen sectors from 1800 + 16 i on; behind it they are zeros. */
  lemma ContentSaved(v: Volume, disk: Disk, c: nat, k: nat, j: nat)
    requires IsDisk(disk) && Sound(v.fs) && c < |v.fs.contents| && k < 16 && j < 512
    ensures v.fs.contents[c].idx < 512
      && SaveDisk(v, disk)[1800 + v.fs.contents[c].idx * 16 + k][j] as int == TextByte(v.fs.contents[c].data, 512 * k + j)
  {
    hide SaveDisk, DataSector, FindContent;
    var i := v.fs.contents[c].idx;
    SlotFound(v.fs, c);
    SavedFileSector(v, disk, i, k);
    DataByte(v.fs.contents[c].data, k, j);
  }

  lemma SlotFound(fs: Fs, c: nat)
    requires Sound(fs) && c < |fs.contents|
    ensures FindContent(fs.contents, fs.contents[c].idx) == c
  {
    hide FindContent;
    ContentFound(fs.contents, fs.contents[c].idx);
  }

  /** Every other sector keeps what it held. */
  lemma OthersKept(v: Volume, disk: Disk, lba: nat)
    requires IsDisk(disk) && Sound(v.fs) && lba < |disk|
    requires lba != 499 && lba != 998 && !(1000 <= lba < 1544)
    requires forall c | 0 <= c < |v.fs.contents| :: !(1800 + v.fs.contents[c].idx * 16 <= lba < 1816 + v.fs.contents[c].idx * 16)
    ensures SaveDisk(v, disk)[lba] == disk[lba]
  {
    hide SaveDisk, EntrySector, UserSector, DirSector, VolumeSector, DataSector, FindContent;
    assert SaveDisk(v, disk)[lba] == SavedSector(v, disk, lba);
    if CONTENT_LBA <= lba < DISK_SECTORS {
      ContentFound(v.fs.contents, (lba - CONTENT_LBA) / FILE_SECTORS);
    }
  }

  // ---- what the loader reads ----

  /** The loader drops a drive prefix, turns backslashes and takes off one slash at the end of a longer name. */
  lemma NormalizeIs(name: string)
    ensures var bare := if OnDrive(name) then name[2..] else name;
      Slashed(if |bare| > 1 && (bare[|bare| - 1] == '/' || bare[|bare| - 1] == '\\') then bare[..|bare| - 1] else bare,
              Normalize(name))
  {
    hide Slashes;
    SlashesIs(if OnDrive(name) then name[2..] else name);
  }

  /** The text up to the first NUL. */
  lemma {:induction false} CStrIs(t: string)
    ensures var r := CStr(t);
      r <= t && '\0' !in r && (|r| < |t| ==> t[|r|] == '\0')
  {
    if t != "" && t[0] != '\0' {
      CStrIs(t[1..]);
      assert t == [t[0]] + t[1..];
    }
  }

  predicate ByteText(t: string) {
    forall k | 0 <= k < |t| :: t[k] as int < 256
  }

  /** An entry is read from the same bytes. */
  lemma EntryLoaded(s: string)
    requires |s| == 512 && ByteText(s)
    ensures LoadEntry(s) == Entry(
      Normalize(CStr(s[..56])),
      s[56] as int + 0x100 * s[57] as int + 0x1_0000 * s[58] as int + 0x100_0000 * s[59] as int,
      s[60] as int, s[61] as int, s[62] as int + 0x100 * s[63] as int)
  {
    hide WordValue, Normalize, CStr;
    WordValueIs(s[56..60]);
    WordValueIs(s[60..64]);
    ShortWords(s[60..64]);
    assert s[60..64][..1] == s[60..61] && s[60..64][1..2] == s[61..62] && s[60..64][2..] == s[62..64];
  }

  lemma ShortWords(t: string)
    requires |t| == 4 && ByteText(t)
    ensures WordValue(t[..1]) == t[0] as int && WordValue(t[1..2]) == t[1] as int
  {
    assert t[..1][1..] == "" && t[1..2][1..] == "";
  }

  /** The table is read from sector 1000 on, entry by entry, up to the first sector that starts with a zero. */
  lemma {:induction false} TableLoaded(disk: Disk, i: nat, j: nat)
    requires IsDisk(disk) && i + j < 512 && j < |LoadTable(disk, i)|
    ensures disk[1000 + i + j][0] != '\0' && LoadTable(disk, i)[j] == LoadEntry(disk[1000 + i + j])
    decreases j
  {
    hide LoadEntry;
    if j > 0 {
      TableLoaded(disk, i + 1, j - 1);
    }
  }

  lemma {:induction false} TableEnds(disk: Disk, i: nat)
    requires IsDisk(disk) && i <= 512
    ensures var n := i + |LoadTable(disk, i)|; n <= 512 && (n < 512 ==> disk[1000 + n][0] == '\0')
    decreases 512 - i
  {
    hide LoadEntry;
    if i < 512 && disk[1000 + i][0] != '\0' {
      TableEnds(disk, i + 1);
    }
  }

  /** The stored directory is taken when it is absolute; it replaces the front of a longer one and leaves the rest. */
  lemma DirLoaded(sector: string, dir: string)
    requires |sector| == 512
    ensures var stored, r := CStr(sector[..256]), LoadDir(sector, dir);
      && (!IsAbsolute(stored) ==> r == dir)
      && (IsAbsolute(stored) && |stored| < |dir| ==> r == stored + dir[|stored|..])
      && (IsAbsolute(stored) && |dir| <= |stored| <= 255 ==> r == stored)
      && (IsAbsolute(stored) && |dir| <= |stored| == 256 ==> r == stored[..255])
  {
    hide CStr;
  }
}
