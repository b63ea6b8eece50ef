/** Runs and reboots together: what a run leaves on the disk, and what its paths read as after the next boot. */
module FsReboot {
  import opened CText
  import opened FsModel
  import opened FsDisk
  import opened FsRuns
  import opened FsRoundTrip
  import opened FsReload
  import opened Wrappers

  // ---- which saves lose a content slot ----

  /** With a full content store, bytes for a plain file that has no slot: the entry takes the size, the bytes are
      dropped. */
  predicate Loses(fs: Fs, path: string, data: string)
    requires fs.count <= |fs.slots|
  {
    var i := FindEntry(Table(fs), path);
    && data != "" && |fs.contents| >= MAX_CONTENTS
    && if i < fs.count then fs.slots[i].kind == 0 && !HasSlot(fs, i) else fs.count < MAX_FILES
  }

  lemma SlotKept(fs: Fs, i: nat, bytes: string, j: nat)
    requires i < |fs.slots| && HasSlot(fs, j)
    ensures HasSlot(Store(fs, i, bytes).1, j)
  {
    hide FindContent;
    ContentFound(fs.contents, i);
    ContentFound(fs.contents, j);
    var fs' := Store(fs, i, bytes).1;
    ContentFound(fs'.contents, j);
    assert fs'.contents[FindContent(fs.contents, j)].idx == j;
  }

  lemma SlotTaken(fs: Fs, i: nat, bytes: string)
    requires i < |fs.slots| && |fs.contents| <= MAX_CONTENTS
    ensures var fs' := Store(fs, i, bytes).1;
      && (HasSlot(fs', i) <==> HasSlot(fs, i) || |fs.contents| < MAX_CONTENTS)
      && fs'.count == fs.count && fs'.slots == fs.slots[i := fs.slots[i].(size := |bytes|)]
  {
    hide FindContent;
    StoredFound(fs.contents, i, bytes);
    ContentFound(fs.contents, i);
  }

  /** Storing keeps a slot for every non-empty file, the stored one aside, exactly when there is one to take, or
      nothing to store, or its entry is a directory. */
  lemma StoreContents(fs: Fs, i: nat, bytes: string)
    requires i < fs.count <= |fs.slots| && |fs.contents| <= MAX_CONTENTS
    requires forall j | 0 <= j < fs.count && j != i && NonEmptyFile(fs.slots[j]) :: HasSlot(fs, j)
    ensures var fs' := Store(fs, i, bytes).1;
      && fs'.count <= |fs'.slots|
      && (HasContents(fs') <==> HasSlot(fs, i) || |fs.contents| < MAX_CONTENTS || bytes == "" || fs.slots[i].kind != 0)
  {
    hide FindContent, Store;
    SlotTaken(fs, i, bytes);
    var fs' := Store(fs, i, bytes).1;
    forall j | 0 <= j < fs.count && j != i && NonEmptyFile(fs.slots[j])
      ensures fs'.slots[j] == fs.slots[j] && HasSlot(fs', j)
    {
      SlotKept(fs, i, bytes, j);
    }
    assert NonEmptyFile(fs'.slots[i]) <==> bytes != "" && fs.slots[i].kind == 0;
  }

  /** A save leaves a non-empty file without a content slot exactly when it loses its bytes. */
  lemma SaveContentsIff(fs: Fs, path: string, data: string)
    requires Sound(fs) && HasContents(fs)
    ensures var fs' := SavePath(fs, path, data).1; Sound(fs') && (HasContents(fs') <==> !Loses(fs, path, data))
  {
    hide FindEntry, FindContent, Store, Sound, HasContents, Take;
    InRange(fs);
    SaveNames(fs, path, data);
    var i := FindEntry(Table(fs), path);
    var bytes := Take(data, MAX_FILE_SIZE);
    assert bytes == "" <==> data == "" by { TakeNothing(data); }
    OthersHave(fs, i);
    if i < fs.count {
      StoreContents(fs, i, bytes);
    } else if fs.count < MAX_FILES {
      var e := Entry(Take(path, NAME_MAX), 0, 0, 0, 0xFFFF);
      NoSlotYet(fs);
      CreateShape(fs, e);
      StoreContents(Create(fs, e), i, bytes);
    }
  }

  lemma TakeNothing(data: string)
    ensures Take(data, MAX_FILE_SIZE) == "" <==> data == ""
  {
  }

  lemma NoSlotYet(fs: Fs)
    requires Sound(fs)
    ensures !HasSlot(fs, fs.count)
  {
    hide FindContent;
    ContentFound(fs.contents, fs.count);
  }

  lemma OthersHave(fs: Fs, i: nat)
    requires fs.count <= |fs.slots| && HasContents(fs)
    ensures forall j | 0 <= j < fs.count && j != i && NonEmptyFile(fs.slots[j]) :: HasSlot(fs, j)
  {
  }

  /** A new entry without bytes takes no content. */
  lemma CreateContents(fs: Fs, e: Entry)
    requires fs.count < |fs.slots| && HasContents(fs) && e.size == 0
    ensures HasContents(Create(fs, e))
  {
    hide FindContent;
  }

  predicate LosesStep(fs: Fs, op: Op)
    requires fs.count <= |fs.slots|
  {
    op.SaveOp? && Loses(fs, PathOf(op, fs.dir), op.data)
  }

  /** Of all operations only such a save does so. */
  lemma StepContents(fs: Fs, op: Op)
    requires Sound(fs) && HasContents(fs)
    ensures var fs' := Step(fs, op).1;
      fs.count <= |fs.slots| && Sound(fs') && (HasContents(fs') <==> !LosesStep(fs, op))
  {
    hide FindEntry, Sound, HasContents, SavePath, Loses, FullPath, Resolve, Create, Take;
    InRange(fs);
    StepNames(fs, op);
    var path := PathOf(op, fs.dir);
    if op.SaveOp? {
      SaveContentsIff(fs, path, op.data);
    } else if AddsEntry(fs, op) {
      match op
      case TouchOp(_) => CreateContents(fs, Entry(Take(path, NAME_MAX), 0, 0, 0x20, fs.slots[fs.count].parent));
      case MkdirOp(_) => CreateContents(fs, Entry(Take(path, NAME_MAX), 0, 1, 0x10, fs.slots[fs.count].parent));
      case MkdirAbsOp(_) => CreateContents(fs, Entry(Take(path, NAME_MAX), 0, 1, 0x10, fs.slots[fs.count].parent));
      case SaveOp(_, _) =>
    }
  }

  // ---- entries that the disk keeps ----

  /** A name the disk gives back as it was. */
  predicate NameKept(name: string) {
    name != "" && '\0' !in name && Normalize(name) == name
  }

  ghost predicate Parents(fs: Fs) {
    forall i | 0 <= i < |fs.slots| :: fs.slots[i].parent < 65536
  }

  lemma StoreEntries(fs: Fs, i: nat, bytes: string)
    requires i < fs.count <= |fs.slots| && |bytes| <= MAX_FILE_SIZE && |fs.contents| <= MAX_CONTENTS
    requires StorableTable(fs) && Parents(fs)
    ensures var fs' := Store(fs, i, bytes).1; fs'.count <= |fs'.slots| && StorableTable(fs') && Parents(fs')
  {
    hide FindContent, Store, Normalize;
    SlotTaken(fs, i, bytes);
  }

  lemma CreateEntries(fs: Fs, e: Entry)
    requires fs.count < |fs.slots| && StorableTable(fs) && Parents(fs)
    requires NameKept(e.name) && |e.name| <= NAME_MAX && e.size == 0 && e.kind < 256 && e.attr < 256 && e.parent < 65536
    ensures StorableTable(Create(fs, e)) && Parents(Create(fs, e))
  {
    hide Normalize;
  }

  /** The step's path, if it is stored, is kept. */
  predicate StepKept(fs: Fs, op: Op)
    requires Sound(fs)
  {
    AddsEntry(fs, op) ==> NameKept(Take(PathOf(op, fs.dir), NAME_MAX))
  }

  lemma SaveEntries(fs: Fs, path: string, data: string)
    requires Sound(fs) && StorableTable(fs) && Parents(fs)
    requires FindEntry(Table(fs), path) == fs.count < MAX_FILES ==> NameKept(Take(path, NAME_MAX))
    ensures var fs' := SavePath(fs, path, data).1; Sound(fs') && StorableTable(fs') && Parents(fs')
  {
    hide FindEntry, FindContent, Take, Store, Sound, StorableTable, Parents, NameKept, Create;
    InRange(fs);
    SaveNames(fs, path, data);
    var i := FindEntry(Table(fs), path);
    var bytes := Take(data, MAX_FILE_SIZE);
    if i < fs.count {
      StoreEntries(fs, i, bytes);
    } else if fs.count < MAX_FILES {
      var e := Entry(Take(path, NAME_MAX), 0, 0, 0, 0xFFFF);
      CreateEntries(fs, e);
      CreateKeeps(fs, e);
      CreateShape(fs, e);
      InRange(Create(fs, e));
      StoreEntries(Create(fs, e), i, bytes);
    }
  }

  lemma MakeEntries(fs: Fs, path: string, kind: nat, attr: nat)
    requires Sound(fs) && StorableTable(fs) && Parents(fs)
    requires fs.count < MAX_FILES && NameKept(Take(path, NAME_MAX)) && kind < 256 && attr < 256
    ensures var fs' := MakeEntry(fs, path, kind, attr); Sound(fs') && StorableTable(fs') && Parents(fs')
  {
    hide Take, Sound, StorableTable, NameKept, Create;
    InRange(fs);
    MakeNames(fs, path, kind, attr);
    CreateEntries(fs, Entry(Take(path, NAME_MAX), 0, kind, attr, fs.slots[fs.count].parent));
  }

  /** Every step on a path the disk keeps, refused or not, leaves a table that it keeps. */
  lemma StepEntries(fs: Fs, op: Op)
    requires Sound(fs) && StorableTable(fs) && Parents(fs) && StepKept(fs, op)
    ensures var fs' := Step(fs, op).1; Sound(fs') && StorableTable(fs') && Parents(fs')
  {
    hide StorableTable, Parents, FindEntry, Sound, MakeEntry, SavePath, NameKept, FullPath, Resolve;
    InRange(fs);
    var path := PathOf(op, fs.dir);
    if op.SaveOp? {
      SaveEntries(fs, path, op.data);
    } else if AddsEntry(fs, op) {
      match op
      case TouchOp(_) => MakeEntries(fs, path, 0, 0x20);
      case MkdirOp(_) => MakeEntries(fs, path, 1, 0x10);
      case MkdirAbsOp(_) => MakeEntries(fs, path, 1, 0x10);
      case SaveOp(_, _) =>
    }
  }

  // ---- runs ----

  ghost predicate AllKept(fs: Fs, ops: seq<Op>)
    requires Sound(fs)
    decreases |ops|
  {
    ops == [] || (StepKept(fs, ops[0]) && (StepNames(fs, ops[0]); AllKept(Step(fs, ops[0]).1, ops[1..])))
  }

  ghost predicate NoneLoses(fs: Fs, ops: seq<Op>)
    requires Sound(fs)
    decreases |ops|
  {
    ops == [] || (!LosesStep(fs, ops[0]) && (StepNames(fs, ops[0]); NoneLoses(Step(fs, ops[0]).1, ops[1..])))
  }

  lemma {:induction false} RunEntries(fs: Fs, ops: seq<Op>)
    requires Sound(fs) && StorableTable(fs) && Parents(fs) && AllKept(fs, ops)
    ensures var fs' := Run(fs, ops).1; Sound(fs') && StorableTable(fs') && Parents(fs')
    decreases |ops|
  {
    hide StepKept, Step, Sound, StorableTable, Parents;
    if ops != [] {
      StepEntries(fs, ops[0]);
      RunEntries(Step(fs, ops[0]).1, ops[1..]);
    }
  }

  lemma {:induction false} RunContents(fs: Fs, ops: seq<Op>)
    requires Sound(fs) && HasContents(fs) && NoneLoses(fs, ops)
    ensures var fs' := Run(fs, ops).1; Sound(fs') && HasContents(fs')
    decreases |ops|
  {
    hide LosesStep, Step, Sound, HasContents;
    if ops != [] {
      StepContents(fs, ops[0]);
      RunContents(Step(fs, ops[0]).1, ops[1..]);
    }
  }

  /** From any labelled volume on: after a run that does not collide and whose stored names the disk keeps, the
      volume saved and booted again reads as the abstract run, as far as that lasts, exactly when every entry lasts. */
  lemma RunThenReboot(start: Volume, ops: seq<Op>, disk: Disk, before: Volume, serial: nat)
    requires Keepable(start) && start.tag != "" && start.fs.count <= |start.fs.slots| && Unique(start.fs) && Parents(start.fs)
    requires AllKept(start.fs, ops) && Clear(ViewOf(start.fs), ops, start.fs.dir)
    requires IsDisk(disk) && Sound(before.fs)
    ensures var fs := Run(start.fs, ops).1;
      var v := start.(fs := fs);
      && Keepable(v) && Unique(fs) && fs.count <= |fs.slots|
      && ((forall path :: ReadPath(AfterBoot(v, disk, before, serial), path)
                       == Lasting(ViewRead(ViewRun(ViewOf(start.fs), ops, start.fs.dir).1, path), IsDirectory(fs, path)))
          <==> AllLast(fs))
  {
    hide Sound, Unique, ViewOf, AllKept, Clear, StorableTable, Parents, Run, ViewRun, IsDisk, AfterBoot;
    hide StorableUsers, AllLast, ReadPath, Lasting, ViewRead, IsDirectory;
    RunEntries(start.fs, ops);
    RunRefines(start.fs, ops);
    var v := start.(fs := Run(start.fs, ops).1);
    InRange(v.fs);
    RebootIsView(v, disk, before, serial);
  }

  /** That is so when the run starts with a slot for every non-empty file and none of its saves loses one; a save
      that is refused for another reason does no harm. */
  lemma RunLasts(fs: Fs, ops: seq<Op>)
    requires Sound(fs) && HasContents(fs) && NoneLoses(fs, ops)
    ensures var fs' := Run(fs, ops).1; Sound(fs') && fs'.count <= |fs'.slots| && AllLast(fs')
  {
    hide Sound, HasContents, NoneLoses, Run, AllLast;
    RunContents(fs, ops);
    InRange(Run(fs, ops).1);
    AllHaveLast(Run(fs, ops).1);
  }
}
