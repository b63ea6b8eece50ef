/** Two saves refused for the full content store, from the boot state on: one that the next boot does not notice,
    and one after which it reads an old sector as a file and drops a file that had its bytes. */
module FsRefused {
  import opened CText
  import opened FsModel
  import opened FsDisk
  import opened FsRuns
  import opened FsRoundTrip
  import opened FsReload
  import opened FsReboot
  import opened Wrappers

  const BYTES := "x"
  const EARLY := "/T"

  /** The paths /AA, /AB, ... */
  function Name(k: nat): string
    requires k <= 256
  {
    ['/', ('A' as int + k / 16) as char, ('A' as int + k % 16) as char]
  }

  /** One save for each of the paths from k on, n in all. */
  function Fill(k: nat, n: nat): seq<Op>
    requires n <= 256
    decreases n - k
  {
    if k >= n then [] else [SaveOp(Name(k), BYTES)] + Fill(k + 1, n)
  }

  // ---- names ----

  lemma NamesDiffer(a: nat, b: nat)
    requires a <= 256 && b <= 256
    ensures Upper(Name(a)) == Upper(Name(b)) <==> a == b
    ensures Upper(Name(a)) != Upper(EARLY)
  {
    UpperName(a);
    UpperName(b);
    if Name(a) == Name(b) {
      assert Name(a)[1] == Name(b)[1] && Name(a)[2] == Name(b)[2];
      assert a / 16 == b / 16 && a % 16 == b % 16;
    }
  }

  lemma UpperName(k: nat)
    requires k <= 256
    ensures Upper(Name(k)) == Name(k)
  {
    var t := Name(k);
    assert t[1..][1..] == [t[2]] && t[2..][1..] == [];
    assert Upper(t[1..][1..]) == [t[2]];
    assert Upper(t[1..]) == [t[1], t[2]];
  }

  predicate Plain(path: string) {
    && 1 < |path| <= NAME_MAX && path[0] == '/' && path[|path| - 1] != '/' && path[1] != ':'
    && '\\' !in path && '\0' !in path
  }

  lemma NamePlain(k: nat)
    requires k <= 256
    ensures Plain(Name(k)) && Plain(EARLY)
  {
  }

  /** A plain absolute path stands for itself and is kept by the disk. */
  lemma PlainPath(path: string, dir: string)
    requires Plain(path)
    ensures Resolve(path, dir) == path && FullPath(path, dir) == path && Take(path, NAME_MAX) == path && NameKept(path)
  {
    hide Slashes, Normalize;
    NormalIff(path);
    SlashesPlain(path);
  }

  lemma SlashesPlain(path: string)
    requires '\\' !in path
    ensures Slashes(path) == path
  {
    forall i | 0 <= i < |path|
      ensures Slashes(path)[i] == path[i]
    {
      SlashesAt(path, i);
    }
  }

  // ---- full tables ----

  /** The n files stand from entry `lead` on, each with its bytes in a slot. */
  predicate Holds(fs: Fs, lead: nat, n: nat) {
    && n <= 256 && lead + n <= fs.count <= |fs.slots| && lead <= 1
    && (lead == 1 ==> fs.slots[0].name == EARLY)
    && forall k | 0 <= k < n :: IsFile(fs, lead, k)
  }

  predicate IsFile(fs: Fs, lead: nat, k: nat)
    requires lead + k < |fs.slots| && k < 256
  {
    fs.slots[lead + k] == Entry(Name(k), 1, 0, 0, 0xFFFF) && HasSlot(fs, lead + k) && DataOf(fs, lead + k) == BYTES
  }

  ghost predicate Filled(fs: Fs, lead: nat, n: nat) {
    && Sound(fs) && StorableTable(fs) && Parents(fs)
    && Holds(fs, lead, n) && fs.count == lead + n && |fs.contents| == n
    && (lead == 1 ==> fs.slots[0].kind == 0 && !HasSlot(fs, 0))
  }

  lemma FoundAt(fs: Fs, lead: nat, n: nat, k: nat)
    requires Holds(fs, lead, n) && k < n
    ensures FindEntry(Table(fs), Name(k)) == lead + k
  {
    hide FindEntry, Upper, Name, FindContent;
    var i := FindEntry(Table(fs), Name(k));
    EntryFound(Table(fs), Name(k));
    assert Table(fs)[lead + k] == fs.slots[lead + k] && IsFile(fs, lead, k);
    forall j | 0 <= j < lead + k
      ensures Upper(Table(fs)[j].name) != Upper(Name(k))
    {
      assert Table(fs)[j] == fs.slots[j];
      if j >= lead {
        assert IsFile(fs, lead, j - lead);
        NamesDiffer(j - lead, k);
      } else {
        NamesDiffer(k, k);
      }
    }
  }

  lemma NotYet(fs: Fs, lead: nat, n: nat)
    requires Holds(fs, lead, n) && fs.count == lead + n
    ensures FindEntry(Table(fs), Name(n)) == fs.count
  {
    hide FindEntry, Upper, Name, FindContent;
    EntryFound(Table(fs), Name(n));
    forall j | 0 <= j < fs.count
      ensures Upper(Table(fs)[j].name) != Upper(Name(n))
    {
      assert Table(fs)[j] == fs.slots[j];
      if j >= lead {
        assert IsFile(fs, lead, j - lead);
        NamesDiffer(j - lead, n);
      } else {
        NamesDiffer(n, n);
      }
    }
  }

  // ---- filling ----

  /** Storing one entry leaves the bytes of the others. */
  lemma OthersStay(fs: Fs, i: nat, bytes: string, j: nat)
    requires i < |fs.slots| && j < |fs.slots| && i != j && HasSlot(fs, j)
    ensures var fs' := Store(fs, i, bytes).1;
      |fs'.slots| == |fs.slots| && HasSlot(fs', j) && DataOf(fs', j) == DataOf(fs, j) && fs'.slots[j] == fs.slots[j]
  {
    hide FindContent;
    ContentFound(fs.contents, i);
    ContentFound(fs.contents, j);
    var fs' := Store(fs, i, bytes).1;
    ContentFound(fs'.contents, j);
    var c := FindContent(fs.contents, j);
    assert fs'.contents[c] == fs.contents[c];
    assert forall d | 0 <= d < c :: fs'.contents[d].idx != j;
  }

  lemma NewStays(fs: Fs, i: nat, bytes: string)
    requires i < |fs.slots| && |fs.contents| < MAX_CONTENTS
    ensures var (rc, fs') := Store(fs, i, bytes);
      rc == 0 && HasSlot(fs', i) && DataOf(fs', i) == bytes
  {
    hide FindContent;
    StoredFound(fs.contents, i, bytes);
  }

  lemma FillStep(fs: Fs, lead: nat, n: nat)
    requires Filled(fs, lead, n) && n < 256
    ensures Step(fs, SaveOp(Name(n), BYTES)).0 == 0 && Filled(Step(fs, SaveOp(Name(n), BYTES)).1, lead, n + 1)
  {
    hide Step, Create, Store, Name, IsFile, Sound, StorableTable, Parents, FindContent;
    InRange(fs);
    var e := Entry(Name(n), 0, 0, 0, 0xFFFF);
    var mid := Create(fs, e);
    FillIs(fs, lead, n);
    Created(fs, e);
    NoSlotYet(fs);
    NewStays(mid, fs.count, BYTES);
    SlotTaken(mid, fs.count, BYTES);
    StoreAppends(mid, fs.count, BYTES);
    FilledHolds(fs, lead, n);
    if lead == 1 {
      EarlyStays(mid, fs.count, BYTES);
    }
  }

  lemma FilledHolds(fs: Fs, lead: nat, n: nat)
    requires Filled(fs, lead, n) && n < 256
    ensures var fs' := Store(Create(fs, Entry(Name(n), 0, 0, 0, 0xFFFF)), fs.count, BYTES).1;
      |fs'.slots| == |fs.slots| && forall k | 0 <= k < n + 1 :: IsFile(fs', lead, k)
  {
    hide Create, Store, Name, IsFile, StorableTable, Parents, FindContent, Sound;
    InRange(fs);
    BytesShort();
    var e := Entry(Name(n), 0, 0, 0, 0xFFFF);
    var mid := Create(fs, e);
    Created(fs, e);
    NewStays(mid, fs.count, BYTES);
    SlotTaken(mid, fs.count, BYTES);
    var fs' := Store(mid, fs.count, BYTES).1;
    FileIs(fs', lead, n);
    forall k | 0 <= k < n
      ensures IsFile(fs', lead, k)
    {
      FileStays(fs, e, lead, k);
    }
  }

  lemma FillIs(fs: Fs, lead: nat, n: nat)
    requires Filled(fs, lead, n) && n < 256
    ensures Step(fs, SaveOp(Name(n), BYTES)) == Store(Create(fs, Entry(Name(n), 0, 0, 0, 0xFFFF)), fs.count, BYTES)
    ensures var fs' := Step(fs, SaveOp(Name(n), BYTES)).1; Sound(fs') && StorableTable(fs') && Parents(fs')
  {
    hide FindEntry, Name, Sound, StorableTable, Parents, Create, Store, NameKept, IsFile, Take, Resolve;
    NotYet(fs, lead, n);
    NamePlain(n);
    PlainPath(Name(n), fs.dir);
    BytesShort();
    InRange(fs);
    SaveEntries(fs, Name(n), BYTES);
  }

  lemma BytesShort()
    ensures Take(BYTES, MAX_FILE_SIZE) == BYTES && |BYTES| == 1
  {
  }

  lemma Created(fs: Fs, e: Entry)
    requires fs.count < |fs.slots|
    ensures var mid := Create(fs, e);
      && mid.count == fs.count + 1 && |mid.slots| == |fs.slots| && mid.contents == fs.contents && mid.dir == fs.dir
      && mid.slots == fs.slots[fs.count := e]
  {
  }

  lemma StoreAppends(fs: Fs, i: nat, bytes: string)
    requires i < |fs.slots| && !HasSlot(fs, i) && |fs.contents| < MAX_CONTENTS
    ensures Store(fs, i, bytes).1.contents == fs.contents + [Content(i, bytes)]
  {
    hide FindContent;
    ContentFound(fs.contents, i);
    FoundAtMost(fs.contents, i);
  }

  lemma FileIs(fs: Fs, lead: nat, k: nat)
    requires lead + k < |fs.slots| && k < 256 && HasSlot(fs, lead + k) && DataOf(fs, lead + k) == BYTES
    requires fs.slots[lead + k] == Entry(Name(k), 1, 0, 0, 0xFFFF)
    ensures IsFile(fs, lead, k)
  {
  }

  lemma FileStays(fs: Fs, e: Entry, lead: nat, k: nat)
    requires lead + k < fs.count < |fs.slots| && k < 256 && IsFile(fs, lead, k)
    ensures var fs' := Store(Create(fs, e), fs.count, BYTES).1; |fs'.slots| == |fs.slots| && IsFile(fs', lead, k)
  {
    hide Store, FindContent, Name;
    OthersStay(Create(fs, e), fs.count, BYTES, lead + k);
  }

  lemma EarlyStays(fs: Fs, i: nat, bytes: string)
    requires 0 < i < |fs.slots| && !HasSlot(fs, 0)
    ensures var fs' := Store(fs, i, bytes).1; !HasSlot(fs', 0) && |fs'.slots| == |fs.slots| && fs'.slots[0] == fs.slots[0]
  {
    hide FindContent;
    ContentFound(fs.contents, 0);
    ContentFound(fs.contents, i);
    FoundAtMost(fs.contents, 0);
    var fs' := Store(fs, i, bytes).1;
    ContentFound(fs'.contents, 0);
    assert forall d | 0 <= d < |fs'.contents| :: fs'.contents[d].idx != 0;
  }

  lemma {:induction false} FillRuns(fs: Fs, lead: nat, k: nat, n: nat)
    requires Filled(fs, lead, k) && k <= n <= 256
    ensures Filled(Run(fs, Fill(k, n)).1, lead, n)
    decreases n - k
  {
    hide Filled, Step, Name;
    assert Sound(fs) by { FilledSound(fs, lead, k); }
    if k < n {
      FillStep(fs, lead, k);
      var ops := Fill(k, n);
      assert ops[0] == SaveOp(Name(k), BYTES) && ops[1..] == Fill(k + 1, n);
      FillRuns(Step(fs, ops[0]).1, lead, k + 1, n);
    }
  }

  lemma FilledSound(fs: Fs, lead: nat, n: nat)
    requires Filled(fs, lead, n)
    ensures Sound(fs)
  {
  }

  // ---- the two refused saves ----

  lemma {:induction false} AllAhead(table: seq<Entry>, i: nat, j: nat)
    requires i <= j <= |table| && forall k | i <= k < j :: NonEmptyFile(table[k])
    ensures Ahead(table, i, j) == j - i
    decreases j - i
  {
    if i < j {
      AllAhead(table, i + 1, j);
    }
  }

  /** What a volume with these files reads after a reboot: all of them when they come first, all but the last when
      another non-empty file stands before them. */
  lemma FilesReload(v: Volume, disk: Disk, before: Volume, serial: nat, lead: nat, k: nat)
    requires Keepable(v) && v.tag != "" && IsDisk(disk) && Sound(before.fs)
    requires Holds(v.fs, lead, 256) && (lead == 1 ==> NonEmptyFile(v.fs.slots[0])) && k < 256
    ensures ReadPath(AfterBoot(v, disk, before, serial), Name(k))
         == if lead + k < MAX_CONTENTS then Some(BYTES) else None
    ensures ReadPath(v.fs, Name(k)) == Some(BYTES)
  {
    hide AfterBoot, FindEntry, FindContent, Name, Ahead, Keepable, NonEmptyFile;
    var table := Table(v.fs);
    FoundAt(v.fs, lead, 256, k);
    ReloadReads(v, disk, before, serial, Name(k));
    assert IsFile(v.fs, lead, k);
    FilesAhead(v.fs, lead, k);
  }

  lemma FilesAhead(fs: Fs, lead: nat, k: nat)
    requires Holds(fs, lead, 256) && (lead == 1 ==> NonEmptyFile(fs.slots[0])) && k <= 256 && lead + k <= fs.count
    ensures Ahead(Table(fs), 0, lead + k) == lead + k
    ensures k < 256 ==> NonEmptyFile(Table(fs)[lead + k])
  {
    hide FindContent, Name;
    var table := Table(fs);
    forall j | 0 <= j < lead + k
      ensures NonEmptyFile(table[j])
    {
      if j >= lead {
        assert IsFile(fs, lead, j - lead);
      }
    }
    AllAhead(table, 0, lead + k);
    assert k < 256 ==> IsFile(fs, lead, k);
  }

  lemma StartFilled(start: Volume)
    requires Boot(start) && Parents(start.fs)
    ensures Filled(start.fs, 0, 0)
  {
    assert start.fs.contents != [] ==> start.fs.contents[0].idx < start.fs.count;
  }

  /** The state behind 256 files and a refused save of one more. */
  ghost predicate Unnoticed(fs: Fs) {
    && Sound(fs) && StorableTable(fs) && Parents(fs) && Holds(fs, 0, 256) && fs.count == 257
    && fs.slots[256].name == Name(256) && fs.slots[256].kind == 0 && fs.slots[256].size == 1 && !HasSlot(fs, 256)
  }

  lemma SaveIsRefused(fs: Fs)
    requires Filled(fs, 0, 256)
    ensures var (rc, fs') := Step(fs, SaveOp(Name(256), BYTES)); rc == -1 && fs'.dir == fs.dir && Unnoticed(fs')
  {
    hide Step, Create, Store, Name, IsFile, Sound, StorableTable, Parents, FindContent;
    InRange(fs);
    RefusedIs(fs);
    var e := Entry(Name(256), 0, 0, 0, 0xFFFF);
    var mid := Create(fs, e);
    Created(fs, e);
    NoSlotYet(fs);
    BytesShort();
    NoRoom(mid, 256, BYTES);
    var fs' := Store(mid, 256, BYTES).1;
    forall k | 0 <= k < 256
      ensures IsFile(fs', 0, k)
    {
      FileStays(fs, e, 0, k);
    }
  }

  lemma RefusedIs(fs: Fs)
    requires Filled(fs, 0, 256)
    ensures Step(fs, SaveOp(Name(256), BYTES)) == Store(Create(fs, Entry(Name(256), 0, 0, 0, 0xFFFF)), 256, BYTES)
    ensures var fs' := Step(fs, SaveOp(Name(256), BYTES)).1; Sound(fs') && StorableTable(fs') && Parents(fs') && fs'.dir == fs.dir
  {
    hide FindEntry, Name, Sound, StorableTable, Parents, Create, Store, NameKept, IsFile, Take, Resolve;
    NotYet(fs, 0, 256);
    NamePlain(256);
    PlainPath(Name(256), fs.dir);
    BytesShort();
    InRange(fs);
    SaveNames(fs, Name(256), BYTES);
    SaveEntries(fs, Name(256), BYTES);
  }

  /** Without a slot and without room for one the size is written and nothing else. */
  lemma NoRoom(fs: Fs, i: nat, bytes: string)
    requires i < |fs.slots| && !HasSlot(fs, i) && |fs.contents| >= MAX_CONTENTS
    ensures Store(fs, i, bytes) == (-1, fs.(slots := fs.slots[i := fs.slots[i].(size := |bytes|)]))
    ensures !HasSlot(Store(fs, i, bytes).1, i)
  {
    hide FindContent;
  }

  lemma FoundNext(fs: Fs, lead: nat, n: nat)
    requires Holds(fs, lead, n) && lead + n < fs.count && fs.slots[lead + n].name == Name(n)
    ensures FindEntry(Table(fs), Name(n)) == lead + n
  {
    hide FindEntry, Upper, Name, FindContent;
    EntryFound(Table(fs), Name(n));
    assert Table(fs)[lead + n] == fs.slots[lead + n];
    forall j | 0 <= j < lead + n
      ensures Upper(Table(fs)[j].name) != Upper(Name(n))
    {
      assert Table(fs)[j] == fs.slots[j];
      if j >= lead {
        assert IsFile(fs, lead, j - lead);
        NamesDiffer(j - lead, n);
      } else {
        NamesDiffer(n, n);
      }
    }
  }

  /** After 256 files a save of one more is refused; the next boot reads the 256 and, as before, nothing of the last. */
  lemma RefusedUnnoticed(start: Volume, disk: Disk, before: Volume, serial: nat)
    requires Boot(start) && Parents(start.fs) && Keepable(start) && start.tag != "" && IsDisk(disk) && Sound(before.fs)
    ensures var full := Run(start.fs, Fill(0, 256)).1;
      && Sound(full)
      && var (rc, fs) := Step(full, SaveOp(Name(256), BYTES));
      var w := start.(fs := fs);
      && rc == -1 && Keepable(w) && fs.count <= |fs.slots|
      && var after := AfterBoot(w, disk, before, serial);
      && ReadPath(after, Name(256)) == ReadPath(fs, Name(256)) == None
      && forall k | 0 <= k < 256 :: ReadPath(after, Name(k)) == Some(BYTES)
  {
    hide Run, Step, AfterBoot, ReadPath, Name, Sound, StorableTable, StorableUsers, Parents, Unnoticed, Filled;
    StartFilled(start);
    FillRuns(start.fs, 0, 0, 256);
    var full := Run(start.fs, Fill(0, 256)).1;
    RunKeepsDir(start.fs, Fill(0, 256));
    FilledSound(full, 0, 256);
    SaveIsRefused(full);
    var w := start.(fs := Step(full, SaveOp(Name(256), BYTES)).1);
    UnnoticedParts(w.fs);
    UnnoticedReads(w, disk, before, serial);
    forall k | 0 <= k < 256
      ensures ReadPath(AfterBoot(w, disk, before, serial), Name(k)) == Some(BYTES)
    {
      FilesReload(w, disk, before, serial, 0, k);
    }
  }

  lemma RunKeepsDir(fs: Fs, ops: seq<Op>)
    requires Sound(fs)
    ensures Run(fs, ops).1.dir == fs.dir
    decreases |ops|
  {
    hide Sound, Step;
    if ops != [] {
      StepNames(fs, ops[0]);
      RunKeepsDir(Step(fs, ops[0]).1, ops[1..]);
    }
  }

  lemma UnnoticedParts(fs: Fs)
    requires Unnoticed(fs)
    ensures Sound(fs) && StorableTable(fs) && Holds(fs, 0, 256) && fs.count <= |fs.slots|
  {
  }

  lemma UnnoticedReads(w: Volume, disk: Disk, before: Volume, serial: nat)
    requires Unnoticed(w.fs) && Keepable(w) && w.tag != "" && IsDisk(disk) && Sound(before.fs)
    ensures w.fs.count <= |w.fs.slots| && ReadPath(w.fs, Name(256)) == None
    ensures ReadPath(AfterBoot(w, disk, before, serial), Name(256)) == None
  {
    hide AfterBoot, FindEntry, Name, Ahead, Keepable, Sound, StorableTable, Parents, FindContent;
    FoundNext(w.fs, 0, 256);
    FoundAtMost(w.fs.contents, 256);
    ReloadReads(w, disk, before, serial, Name(256));
    FilesAhead(w.fs, 0, 256);
  }

  // ---- the one that harms ----

  ghost predicate Harmed(fs: Fs) {
    && Sound(fs) && StorableTable(fs) && Parents(fs) && Holds(fs, 1, 256) && fs.count == 257
    && fs.slots[0].kind == 0 && fs.slots[0].size == 1 && !HasSlot(fs, 0)
  }

  lemma TouchFilled(fs: Fs)
    requires Filled(fs, 0, 0)
    ensures Filled(Step(fs, TouchOp(EARLY)).1, 1, 0)
  {
    hide Name, NameKept, Take, FullPath, StorableTable, Parents;
    NamePlain(0);
    PlainPath(EARLY, fs.dir);
    MakeEntries(fs, EARLY, 0, 0x20);
    assert FindEntry(Table(fs), EARLY) == 0;
  }

  lemma EarlyFound(fs: Fs)
    requires 0 < fs.count <= |fs.slots| && fs.slots[0].name == EARLY
    ensures FindEntry(Table(fs), EARLY) == 0
  {
    assert Table(fs)[0] == fs.slots[0];
  }

  lemma EarlyIs(fs: Fs)
    requires Filled(fs, 1, 256)
    ensures Step(fs, SaveOp(EARLY, BYTES)) == Store(fs, 0, BYTES)
    ensures var fs' := Step(fs, SaveOp(EARLY, BYTES)).1; Sound(fs') && StorableTable(fs') && Parents(fs') && fs'.dir == fs.dir
  {
    hide FindEntry, Name, Sound, StorableTable, Parents, Store, NameKept, IsFile, Take, Resolve;
    EarlyFound(fs);
    NamePlain(0);
    PlainPath(EARLY, fs.dir);
    BytesShort();
    InRange(fs);
    SaveNames(fs, EARLY, BYTES);
    SaveEntries(fs, EARLY, BYTES);
  }

  lemma EarlyIsRefused(fs: Fs)
    requires Filled(fs, 1, 256)
    ensures var (rc, fs') := Step(fs, SaveOp(EARLY, BYTES)); rc == -1 && fs'.dir == fs.dir && Harmed(fs')
  {
    hide Step, Store, Name, Sound, StorableTable, Parents, FindContent, IsFile;
    InRange(fs);
    EarlyIs(fs);
    BytesShort();
    NoRoom(fs, 0, BYTES);
    var fs' := Store(fs, 0, BYTES).1;
    forall k | 0 <= k < 256
      ensures IsFile(fs', 1, k)
    {
      BehindStays(fs, k);
    }
  }

  lemma BehindStays(fs: Fs, k: nat)
    requires 1 + k < |fs.slots| && k < 256 && IsFile(fs, 1, k)
    ensures var fs' := Store(fs, 0, BYTES).1; |fs'.slots| == |fs.slots| && IsFile(fs', 1, k)
  {
    hide Store, FindContent, Name;
    OthersStay(fs, 0, BYTES, 1 + k);
  }

  /** An empty file first, then 256 files, then a refused save to the first: it read as nothing and after the next boot
      reads the byte that stood in its sector, and the last file, which had its bytes, reads as nothing. */
  lemma RefusedHarms(start: Volume, disk: Disk, before: Volume, serial: nat)
    requires Boot(start) && Parents(start.fs) && Keepable(start) && start.tag != "" && IsDisk(disk) && Sound(before.fs)
    ensures var full := Run(start.fs, [TouchOp(EARLY)] + Fill(0, 256)).1;
      && Sound(full)
      && var (rc, fs) := Step(full, SaveOp(EARLY, BYTES));
      var w := start.(fs := fs);
      && rc == -1 && Keepable(w) && fs.count <= |fs.slots|
      && var after := AfterBoot(w, disk, before, serial);
      && ReadPath(fs, EARLY) == None && ReadPath(after, EARLY) == Some(disk[CONTENT_LBA][..1])
      && ReadPath(fs, Name(255)) == Some(BYTES) && ReadPath(after, Name(255)) == None
  {
    hide Run, Step, AfterBoot, ReadPath, Name, Sound, StorableTable, StorableUsers, Parents, Harmed, Filled, Fill;
    StartFilled(start);
    TouchFilled(start.fs);
    var touched := Step(start.fs, TouchOp(EARLY)).1;
    FilledSound(touched, 1, 0);
    FillRuns(touched, 1, 0, 256);
    var full := Run(touched, Fill(0, 256)).1;
    FirstRuns(start.fs, TouchOp(EARLY), Fill(0, 256));
    RunKeepsDir(start.fs, [TouchOp(EARLY)] + Fill(0, 256));
    FilledSound(full, 1, 256);
    EarlyIsRefused(full);
    var w := start.(fs := Step(full, SaveOp(EARLY, BYTES)).1);
    HarmedParts(w.fs);
    HarmedReads(w, disk, before, serial);
    FilesReload(w, disk, before, serial, 1, 255);
  }

  lemma FirstRuns(fs: Fs, op: Op, ops: seq<Op>)
    requires Sound(fs)
    ensures Sound(Step(fs, op).1) && Run(fs, [op] + ops).1 == Run(Step(fs, op).1, ops).1
  {
    hide Sound, Step;
    StepNames(fs, op);
    assert ([op] + ops)[1..] == ops;
  }

  lemma HarmedParts(fs: Fs)
    requires Harmed(fs)
    ensures Sound(fs) && StorableTable(fs) && Holds(fs, 1, 256) && fs.count <= |fs.slots| && NonEmptyFile(fs.slots[0])
  {
  }

  lemma HarmedReads(w: Volume, disk: Disk, before: Volume, serial: nat)
    requires Harmed(w.fs) && Keepable(w) && w.tag != "" && IsDisk(disk) && Sound(before.fs)
    ensures w.fs.count <= |w.fs.slots| && ReadPath(w.fs, EARLY) == None
    ensures ReadPath(AfterBoot(w, disk, before, serial), EARLY) == Some(disk[CONTENT_LBA][..1])
  {
    hide AfterBoot, FindEntry, Name, Keepable, Sound, StorableTable, Parents, FindContent, LoadData;
    EarlyFound(w.fs);
    FoundAtMost(w.fs.contents, 0);
    ReloadReads(w, disk, before, serial, EARLY);
    assert Table(w.fs)[0] == w.fs.slots[0];
    FirstByte(disk);
  }

  lemma FirstByte(disk: Disk)
    requires IsDisk(disk)
    ensures |disk[CONTENT_LBA]| == SECTOR && LoadData(disk, 0, 0, 1) == disk[CONTENT_LBA][..1]
  {
    NothingLeft(disk, 0, 1);
    assert disk[CONTENT_LBA + 0] == disk[CONTENT_LBA];
  }
}
