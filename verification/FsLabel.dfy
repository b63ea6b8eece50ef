/** The volume label: what a boot, LABEL and all other commands do to it, and why it is never empty. */
module FsLabel {
  import opened CText
  import opened TextFacts
  import opened FsModel
  import opened FsDisk
  import opened FsRuns
  import opened FsRoundTrip

  /** What happens to a volume: any work on files and users, LABEL with a text, or a restart. */
  datatype Event =
    | Work(fs: Fs, users: seq<string>)
    | Label(text: string)
    | Restart(disk: Disk, before: Volume, clock: nat)

  /** Texts are C strings, and the clock and the serial number 32 bits wide. */
  ghost predicate Possible(e: Event) {
    match e
    case Work(_, _) => true
    case Label(text) => '\0' !in text
    case Restart(disk, before, clock) => IsDisk(disk) && Sound(before.fs) && clock < 0x1_0000_0000
  }

  /** At most twelve characters in capitals; no text leaves the label alone. */
  function Relabel(v: Volume, text: string): Volume {
    if text == "" then v else v.(tag := Upper(Take(text, LABEL_MAX)))
  }

  /** LABEL with a text: its first twelve characters without small letters, and the rest of the volume as it was. */
  lemma RelabelIs(v: Volume, text: string, i: nat)
    requires text != "" && i < |text| && i < 12
    ensures var w := Relabel(v, text);
      && w == v.(tag := w.tag) && |w.tag| == (if |text| < 12 then |text| else 12)
      && SameLetter(w.tag[i], text[i]) && !('a' <= w.tag[i] <= 'z')
    ensures Relabel(v, "") == v
  {
    UpperIs(Take(text, LABEL_MAX));
  }

  ghost function Happens(v: Volume, e: Event): Volume
    requires Possible(e)
  {
    match e
    case Work(fs, users) => v.(fs := fs, users := users)
    case Label(text) => Relabel(v, text)
    case Restart(disk, before, clock) => LoadDisk(disk, before, clock).0
  }

  ghost function After(v: Volume, events: seq<Event>): Volume
    requires forall k | 0 <= k < |events| :: Possible(events[k])
    decreases |events|
  {
    if events == [] then v else After(Happens(v, events[0]), events[1..])
  }

  /** The variables at power-on, before the first load. */
  function PowerOn(fs: Fs): Volume {
    Volume(fs, [], "SYSTEM", 0)
  }

  lemma {:induction false} NoNulInside(t: string)
    ensures '\0' !in CStr(t)
  {
    if t != "" && t[0] != '\0' {
      NoNulInside(t[1..]);
    }
  }

  lemma {:induction false} NoNulInCapitals(t: string)
    requires '\0' !in t
    ensures '\0' !in Upper(t)
  {
    if t != "" {
      assert t[0] in t && forall c :: c in t[1..] ==> c in t;
      NoNulInCapitals(t[1..]);
    }
  }

  lemma WordBelow(t: string)
    requires |t| == 4
    ensures WordValue(t) < 0x1_0000_0000
  {
    hide WordValue;
    WordStep(t);
    WordStep(t[1..]);
    WordStep(t[2..]);
    WordStep(t[3..]);
    assert t[1..][1..] == t[2..] && t[2..][1..] == t[3..] && t[3..][1..] == "";
    WordNone();
  }

  lemma WordStep(t: string)
    requires t != ""
    ensures WordValue(t) <= 255 + 256 * WordValue(t[1..])
  {
  }

  lemma WordNone()
    ensures WordValue("") == 0
  {
  }

  lemma LoadLabels(disk: Disk, before: Volume, clock: nat)
    requires IsDisk(disk) && Sound(before.fs) && clock < 0x1_0000_0000
    ensures var v := LoadDisk(disk, before, clock).0; v.tag != "" && Labelled(v)
  {
    hide CStr, WordValue, SaveDisk, LoadTables, LoadDir, Sound;
    var tag := CStr(Take(disk[VOLUME_LBA], LABEL_MAX));
    NoNulInside(Take(disk[VOLUME_LBA], LABEL_MAX));
    WordBelow(disk[VOLUME_LBA][16..20]);
    TablesKeepIdentity(disk, before, LoadDir(disk[CURDIR_LBA], before.fs.dir), tag, WordValue(disk[VOLUME_LBA][16..20]));
    if tag == "" {
      var dir := LoadDir(disk[CURDIR_LBA], before.fs.dir);
      var renamed := Volume(before.fs.(dir := dir), before.users, DEFAULT_TAG, clock);
      DirIsFree(before.fs, dir);
      TablesKeepIdentity(SaveDisk(renamed, disk), renamed, dir, DEFAULT_TAG, clock);
      DefaultTag();
    }
  }

  lemma DefaultTag()
    ensures DEFAULT_TAG != "" && '\0' !in DEFAULT_TAG && |DEFAULT_TAG| <= LABEL_MAX
  {
  }

  lemma TablesKeepIdentity(disk: Disk, before: Volume, dir: string, tag: string, serial: nat)
    requires IsDisk(disk) && Sound(before.fs)
    ensures var v := LoadTables(disk, before, dir, tag, serial); v.tag == tag && v.serial == serial
  {
  }

  lemma HappensLabelled(v: Volume, e: Event)
    requires v.tag != "" && Labelled(v) && Possible(e)
    ensures var w := Happens(v, e); w.tag != "" && Labelled(w)
  {
    hide LoadDisk, Upper;
    match e
    case Work(_, _) =>
    case Label(text) => NoNulInCapitals(Take(text, LABEL_MAX));
    case Restart(disk, before, clock) => LoadLabels(disk, before, clock);
  }

  lemma {:induction false} AfterLabelled(v: Volume, events: seq<Event>)
    requires v.tag != "" && Labelled(v) && forall k | 0 <= k < |events| :: Possible(events[k])
    ensures var w := After(v, events); w.tag != "" && Labelled(w)
    decreases |events|
  {
    hide Happens, Possible, Labelled;
    if events != [] {
      HappensLabelled(v, events[0]);
      assert forall k | 0 <= k < |events[1..]| :: Possible(events[1..][k]) by {
        assert forall k | 0 <= k < |events[1..]| :: events[1..][k] == events[k + 1];
      }
      AfterLabelled(Happens(v, events[0]), events[1..]);
    }
  }

  /** From power-on, whatever happens, the label is never empty and fits its sector. */
  lemma LabelStays(fs: Fs, events: seq<Event>)
    requires forall k | 0 <= k < |events| :: Possible(events[k])
    ensures var v := After(PowerOn(fs), events); v.tag != "" && Labelled(v)
  {
    hide After, Possible;
    assert PowerOn(fs).tag == "SYSTEM" && Labelled(PowerOn(fs));
    AfterLabelled(PowerOn(fs), events);
  }

  /** So in every state reached from power-on, files, users and directory that the disk can keep come back from it. */
  lemma ReachedRestores(fs: Fs, events: seq<Event>, disk: Disk, before: Volume, serial: nat)
    requires forall k | 0 <= k < |events| :: Possible(events[k])
    requires var v := After(PowerOn(fs), events);
      && Sound(v.fs) && StorableTable(v.fs) && HasContents(v.fs) && StorableUsers(v.users)
      && '\0' !in v.fs.dir && |v.fs.dir| <= 255 && "/" <= v.fs.dir
    requires IsDisk(disk) && Boot(before)
    ensures var v := After(PowerOn(fs), events); Restored(v, LoadDisk(SaveDisk(v, disk), before, serial).0)
  {
    hide After, Possible, PowerOn, LoadDisk, SaveDisk, StorableTable, HasContents, StorableUsers, Restored, Labelled;
    LabelStays(fs, events);
    SaveThenBoot(After(PowerOn(fs), events), disk, before, serial);
  }
}
