/** AurionFS on disk: the sectors fs_save_to_disk writes and what fs_load_from_disk makes of them. */
module FsDisk {
  import opened CText
  import opened FsModel

  const SECTOR := 512
  const NAME_FIELD := 56
  const CURDIR_LBA := 499
  const VOLUME_LBA := 998
  const TABLE_LBA := 1000
  const USERS_LBA := 1512
  const CONTENT_LBA := 1800
  const MAX_USERS := 32
  const FILE_SECTORS := 16
  const DISK_SECTORS := 9992
  const LABEL_MAX := 12

  /** Everything that is persisted. A user is the 64 raw bytes of its record. */
  datatype Volume = Volume(fs: Fs, users: seq<string>, tag: string, serial: nat)

  type Disk = seq<string>

  // ---- bytes ----

  function Zeros(n: nat): (t: string)
    ensures |t| == n && forall i | 0 <= i < n :: t[i] == '\0'
  {
    seq(n, _ => '\0')
  }

  /** A text in a field of n bytes, NUL-filled. */
  function Field(t: string, n: nat): (f: string)
    ensures |f| == n
  {
    if |t| <= n then t + Zeros(n - |t|) else t[..n]
  }

  /** The C string a buffer holds. */
  function CStr(t: string): (r: string)
    ensures |r| <= |t|
  {
    if t == "" || t[0] == '\0' then "" else [t[0]] + CStr(t[1..])
  }

  function Byte(n: nat): (c: char)
    ensures c as int == n % 256
  {
    (n % 256) as char
  }

  /** Little-endian words. */
  function Word(n: nat, bytes: nat): (t: string)
    ensures |t| == bytes
  {
    if bytes == 0 then "" else [Byte(n)] + Word(n / 256, bytes - 1)
  }

  function WordValue(t: string): nat {
    if t == "" then 0 else (t[0] as int) % 256 + 256 * WordValue(t[1..])
  }

  function Limit(bytes: nat): nat {
    if bytes == 0 then 1 else 256 * Limit(bytes - 1)
  }

  lemma {:induction false} WordRead(n: nat, bytes: nat)
    requires n < Limit(bytes)
    ensures WordValue(Word(n, bytes)) == n
  {
    if bytes > 0 {
      WordRead(n / 256, bytes - 1);
      assert Word(n, bytes)[1..] == Word(n / 256, bytes - 1);
    }
  }

  lemma {:induction false} FieldRead(t: string, n: nat)
    requires '\0' !in t && |t| < n
    ensures CStr(Field(t, n)) == t
  {
    if t == "" {
    } else {
      assert Field(t, n)[1..] == Field(t[1..], n - 1);
      FieldRead(t[1..], n - 1);
    }
  }

  // ---- writing ----

  function DirSector(dir: string): (s: string)
    ensures |s| == SECTOR
  {
    Field(Take(dir, 256), SECTOR)
  }

  function VolumeSector(tag: string, serial: nat): (s: string)
    ensures |s| == SECTOR
  {
    Field(Field(Take(tag, LABEL_MAX), 16) + Word(serial, 4), SECTOR)
  }

  /** The first 64 bytes of the entry record: the field behind them is not saved. */
  function EntryRecord(e: Entry): (t: string)
    ensures |t| == 64
  {
    Field(e.name, NAME_FIELD) + Word(e.size, 4) + Word(e.kind, 1) + Word(e.attr, 1) + Word(e.parent, 2)
  }

  function EntrySector(e: Entry): (s: string)
    ensures |s| == SECTOR
  {
    Field(EntryRecord(e), SECTOR)
  }

  function UserSector(user: string): (s: string)
    ensures |s| == SECTOR
  {
    Field(Take(user, 64), SECTOR)
  }

  /** Sector k of a file's sixteen. */
  function DataSector(data: string, k: nat): (s: string)
    ensures |s| == SECTOR
  {
    if k * SECTOR >= |data| then Zeros(SECTOR) else Field(Take(data[k * SECTOR..], SECTOR), SECTOR)
  }

  /** What the saved disk holds at an address; sectors of entries without content keep what they had. */
  function SavedSector(v: Volume, disk: Disk, lba: nat): (s: string)
    requires lba < |disk| && v.fs.count <= |v.fs.slots|
    ensures |disk[lba]| == SECTOR ==> |s| == SECTOR
  {
    if lba == CURDIR_LBA then DirSector(v.fs.dir)
    else if lba == VOLUME_LBA then VolumeSector(v.tag, v.serial)
    else if TABLE_LBA <= lba < USERS_LBA then
      if lba - TABLE_LBA < v.fs.count then EntrySector(v.fs.slots[lba - TABLE_LBA]) else Zeros(SECTOR)
    else if USERS_LBA <= lba < USERS_LBA + MAX_USERS then
      if lba - USERS_LBA < |v.users| then UserSector(v.users[lba - USERS_LBA]) else Zeros(SECTOR)
    else if CONTENT_LBA <= lba < DISK_SECTORS then
      var c := FindContent(v.fs.contents, (lba - CONTENT_LBA) / FILE_SECTORS);
      if c < |v.fs.contents| then DataSector(v.fs.contents[c].data, (lba - CONTENT_LBA) % FILE_SECTORS) else disk[lba]
    else disk[lba]
  }

  function SaveDisk(v: Volume, disk: Disk): (d: Disk)
    requires v.fs.count <= |v.fs.slots|
    ensures |d| == |disk| && (IsDisk(disk) ==> IsDisk(d))
    ensures forall lba | 0 <= lba < |disk| :: d[lba] == SavedSector(v, disk, lba)
  {
    seq(|disk|, lba requires 0 <= lba < |disk| => SavedSector(v, disk, lba))
  }

  // ---- reading ----

  predicate IsDisk(disk: Disk) {
    |disk| >= DISK_SECTORS && forall lba | 0 <= lba < |disk| :: |disk[lba]| == SECTOR
  }

  /** The stored directory overwrites the front of the buffer without ending it. */
  function LoadDir(sector: string, dir: string): string {
    var stored := CStr(Take(sector, 256));
    if !("/" <= stored) then dir
    else if |stored| < |dir| then stored + dir[|stored|..]
    else Take(stored, 255)
  }

  /** Name clean-up of the loader: drive prefix, backslashes, one trailing slash. */
  function Normalize(name: string): string {
    var t := Slashes(if HasDrive(name) then name[2..] else name);
    if |t| > 1 && t[|t| - 1] == '/' then t[..|t| - 1] else t
  }

  function LoadEntry(sector: string): Entry
    requires |sector| == SECTOR
  {
    Entry(Normalize(CStr(sector[..NAME_FIELD])), WordValue(sector[56..60]), WordValue(sector[60..61]),
          WordValue(sector[61..62]), WordValue(sector[62..64]))
  }

  /** Entries from slot i on, up to the first empty sector. */
  function LoadTable(disk: Disk, i: nat): (t: seq<Entry>)
    requires IsDisk(disk)
    ensures i <= MAX_FILES ==> |t| <= MAX_FILES - i
    decreases MAX_FILES - i
  {
    if i >= MAX_FILES || disk[TABLE_LBA + i][0] == '\0' then []
    else [LoadEntry(disk[TABLE_LBA + i])] + LoadTable(disk, i + 1)
  }

  /** Users from slot i on; empty records are passed over. */
  function LoadUsers(disk: Disk, i: nat): seq<string>
    requires IsDisk(disk)
    decreases MAX_USERS - i
  {
    if i >= MAX_USERS then []
    else if disk[USERS_LBA + i][0] == '\0' then LoadUsers(disk, i + 1)
    else [disk[USERS_LBA + i][..64]] + LoadUsers(disk, i + 1)
  }

  /** The first size bytes of file slot i, from sector k on. */
  function LoadData(disk: Disk, i: nat, k: nat, size: nat): string
    requires IsDisk(disk) && i < MAX_FILES
    decreases FILE_SECTORS - k
  {
    if k >= FILE_SECTORS || size == 0 then ""
    else Take(disk[CONTENT_LBA + i * FILE_SECTORS + k], size)
         + LoadData(disk, i, k + 1, if size > SECTOR then size - SECTOR else 0)
  }

  /** One content slot for each non-empty file from entry i on, while there are slots. */
  function LoadContents(disk: Disk, table: seq<Entry>, i: nat, room: nat): seq<Content>
    requires IsDisk(disk) && |table| <= MAX_FILES
    decreases |table| - i
  {
    if i >= |table| || room == 0 then []
    else if table[i].size > 0 && table[i].kind == 0 then
      [Content(i, LoadData(disk, i, 0, table[i].size))] + LoadContents(disk, table, i + 1, room - 1)
    else LoadContents(disk, table, i + 1, room)
  }

  const DEFAULT_TAG := "AURION_DISK"

  /** The loader; `serial` is the number it draws from the clock. Without a label on the disk it takes a
      new identity and saves the state it is still in, over the tables it is about to read. */
  function LoadDisk(disk: Disk, before: Volume, serial: nat): (Volume, Disk)
    requires IsDisk(disk) && Sound(before.fs)
  {
    var dir := LoadDir(disk[CURDIR_LBA], before.fs.dir);
    var tag := CStr(Take(disk[VOLUME_LBA], LABEL_MAX));
    if tag != "" then (LoadTables(disk, before, dir, tag, WordValue(disk[VOLUME_LBA][16..20])), disk)
    else
      var renamed := Volume(before.fs.(dir := dir), before.users, DEFAULT_TAG, serial);
      var disk1 := SaveDisk(renamed, disk);
      (LoadTables(disk1, renamed, dir, DEFAULT_TAG, serial), disk1)
  }

  function LoadTables(disk: Disk, before: Volume, dir: string, tag: string, serial: nat): Volume
    requires IsDisk(disk) && Sound(before.fs)
  {
    var table := LoadTable(disk, 0);
    var slots := table + before.fs.slots[|table|..];
    Volume(Fs(slots, |table|, LoadContents(disk, table, 0, MAX_CONTENTS), dir), LoadUsers(disk, 0), tag, serial)
  }
}
