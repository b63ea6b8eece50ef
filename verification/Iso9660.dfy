/** Looking a path up on an ISO 9660 image: directory records, cleaned names and the walk along the path. */
module Iso9660 {
  import opened Bytes
  import opened CText
  import opened Wrappers

  const SECTOR := 2048
  const MAX_SECTORS := 32
  const VOLUME_LBA := 16
  const ROOT_RECORD := 156
  const MAX_COMPONENT := 63
  const MAX_CLEAN := 127
  const HEADER := 33

  type Sector = s: seq<byte> | |s| == SECTOR witness seq(SECTOR, _ => 0)

  /** Every sector read of the disk succeeds. */
  type Image = nat -> Sector

  datatype Extent = Extent(lba: nat, size: nat)

  /** A byte of a sector; a record that runs past the end is read as zeros there. */
  function ByteAt(s: Sector, i: nat): byte {
    if i < SECTOR then s[i] else 0
  }

  function Le32(s: Sector, i: nat): nat {
    Number4(ByteAt(s, i), ByteAt(s, i + 1), ByteAt(s, i + 2), ByteAt(s, i + 3))
  }

  /** The extent a record at `off` points to. */
  function ExtentAt(s: Sector, off: nat): Extent {
    Extent(Le32(s, off + 2), Le32(s, off + 10))
  }

  function NameAt(s: Sector, off: nat): string {
    seq(ByteAt(s, off + 32) as nat, k requires 0 <= k => ByteAt(s, off + HEADER + k) as char)
  }

  /** The name from character `k` on, without its version and a dot at its end. */
  function Clean(name: string, k: nat): string
    decreases |name| - k
  {
    if k >= |name| || k >= MAX_CLEAN || name[k] == ';' then ""
    else if name[k] == '.' && (k == |name| - 1 || name[k + 1] == ';') then ""
    else [name[k]] + Clean(name, k + 1)
  }

  /** What a NUL-terminated string reads as. */
  function CString(t: string): string {
    if t == "" || t[0] == '\0' then "" else [t[0]] + CString(t[1..])
  }

  predicate Matches(name: string, component: string) {
    name != "" && Upper(CString(Clean(name, 0))) == Upper(component)
  }

  function FindInSector(s: Sector, off: nat, component: string): Option<Extent>
    decreases SECTOR - off
  {
    if off >= SECTOR || s[off] == 0 then None
    else if Matches(NameAt(s, off), component) then Some(ExtentAt(s, off))
    else FindInSector(s, off + s[off] as nat, component)
  }

  function SectorCount(size: nat): nat {
    var n := (size + 2047) / 2048;
    if n > MAX_SECTORS then MAX_SECTORS else n
  }

  /** The first match in `n` sectors from `lba` on. */
  function FindFrom(img: Image, lba: nat, n: nat, component: string): Option<Extent>
    decreases n
  {
    if n == 0 then None
    else
      var r := FindInSector(img(lba), 0, component);
      if r.Some? then r else FindFrom(img, lba + 1, n - 1, component)
  }

  function FindInDir(img: Image, dir: Extent, component: string): Option<Extent> {
    FindFrom(img, dir.lba, SectorCount(dir.size), component)
  }

  /** How many characters the next component takes. */
  function ComponentLen(p: string, max: nat): (n: nat)
    ensures n <= |p| && n <= max
    ensures p != "" && max > 0 && p[0] != '/' ==> n > 0
  {
    if p == "" || p[0] == '/' || max == 0 then 0 else 1 + ComponentLen(p[1..], max - 1)
  }

  function DropSlash(p: string): (r: string)
    ensures |r| <= |p| && (p != "" && p[0] == '/' ==> |r| < |p|)
  {
    if p != "" && p[0] == '/' then p[1..] else p
  }

  /** The next component of a path, and the path behind it and its slash. */
  function First(p: string): string {
    p[..ComponentLen(p, MAX_COMPONENT)]
  }

  function Behind(p: string): (r: string)
    ensures p != "" ==> |r| < |p|
  {
    DropSlash(p[ComponentLen(p, MAX_COMPONENT)..])
  }

  function Walk(img: Image, dir: Extent, p: string): Option<Extent>
    decreases |p|
  {
    if p == "" then None
    else
      match FindInDir(img, dir, First(p))
      case None => None
      case Some(found) => if Behind(p) == "" then Some(found) else Walk(img, found, Behind(p))
  }

  predicate IsVolume(s: Sector) {
    s[1] == 'C' as int && s[2] == 'D' as int && s[3] == '0' as int && s[4] == '0' as int && s[5] == '1' as int
  }

  function FindFile(img: Image, path: string): Option<Extent> {
    if !IsVolume(img(VOLUME_LBA)) then None
    else Walk(img, ExtentAt(img(VOLUME_LBA), ROOT_RECORD), DropSlash(path))
  }

  // ---- The reader ----

  /** Copy a record's name without version and final dot into the buffer. */
  method CleanName(s: Sector, off: nat, clean: array<char>)
    requires clean.Length == 128
    modifies clean
    ensures var t := Clean(NameAt(s, off), 0);
      |t| <= MAX_CLEAN && clean[..|t|] == t && clean[|t|] == '\0'
  {
    hide Clean;
    ghost var name, read := NameAt(s, off), "";
    var nameLen := ByteAt(s, off + 32) as nat;
    var k := 0;
    assert "" + Clean(name, 0) == Clean(name, 0);
    while k < nameLen && k < 127
      invariant 0 <= k <= nameLen == |name| && k <= 127
      invariant clean[..k] == read && Clean(name, 0) == read + Clean(name, k)
    {
      var c := ByteAt(s, off + HEADER + k) as char;
      if c == ';' {
        break;
      }
      if c == '.' && (k == nameLen - 1 || ByteAt(s, off + HEADER + (k + 1)) as char == ';') {
        break;
      }
      CleanStep(name, k, read);
      clean[k] := c;
      read := read + [c];
      k := k + 1;
    }
    CleanEnds(name, k);
    assert read + "" == read;
    clean[k] := '\0';
  }

  predicate Ends(name: string, k: nat) {
    k >= |name| || k >= MAX_CLEAN || name[k] == ';' || (name[k] == '.' && (k == |name| - 1 || name[k + 1] == ';'))
  }

  lemma CleanEnds(name: string, k: nat)
    requires Ends(name, k)
    ensures Clean(name, k) == ""
  {
  }

  lemma CleanStep(name: string, k: nat, read: string)
    requires !Ends(name, k)
    ensures read + Clean(name, k) == (read + [name[k]]) + Clean(name, k + 1)
  {
  }

  lemma CStringStep(t: string, i: nat)
    requires i < |t|
    ensures t[i] != '\0' ==> CString(t[i..]) == [t[i]] + CString(t[i + 1..])
    ensures t[i] == '\0' ==> CString(t[i..]) == ""
  {
    assert t[i..][1..] == t[i + 1..];
  }

  lemma UpperStep(c: char, t: string)
    ensures Upper([c] + t) == [UpperChar(c)] + Upper(t)
  {
    assert ([c] + t)[1..] == t;
  }

  /** The comparison of a name with the NUL-terminated buffer. */
  method SameName(filename: string, clean: array<char>, ghost t: string) returns (found: bool)
    requires |t| < clean.Length && clean[..|t|] == t && clean[|t|] == '\0'
    ensures found <==> Upper(CString(t)) == Upper(filename)
  {
    var i := 0;
    assert t[0..] == t && filename[0..] == filename;
    while i < |filename| && clean[i] != '\0'
      invariant 0 <= i <= |filename| && i <= |t|
      invariant Upper(CString(t)) == Upper(filename) <==> Upper(CString(t[i..])) == Upper(filename[i..])
    {
      assert i < |t| && clean[i] == t[i];
      CStringStep(t, i);
      UpperStep(t[i], CString(t[i + 1..]));
      assert filename[i..] == [filename[i]] + filename[i + 1..];
      UpperStep(filename[i], filename[i + 1..]);
      if UpperChar(filename[i]) != UpperChar(clean[i]) {
        assert Upper(CString(t[i..]))[0] != Upper(filename[i..])[0];
        return false;
      }
      TailsAgree(UpperChar(t[i]), Upper(CString(t[i + 1..])), Upper(filename[i + 1..]));
      i := i + 1;
    }
    assert clean[i] == '\0' ==> CString(t[i..]) == "" by {
      if i < |t| {
        assert clean[i] == t[i];
        CStringStep(t, i);
      }
    }
    found := i == |filename| && clean[i] == '\0';
    if clean[i] != '\0' {
      assert i < |t| && clean[i] == t[i];
      CStringStep(t, i);
    }
  }

  lemma TailsAgree(c: char, a: string, b: string)
    ensures [c] + a == [c] + b <==> a == b
  {
    if [c] + a == [c] + b {
      assert a == ([c] + a)[1..];
      assert b == ([c] + b)[1..];
    }
  }

  method SearchSector(s: Sector, filename: string, clean: array<char>) returns (r: Option<Extent>)
    requires clean.Length == 128
    modifies clean
    ensures r == FindInSector(s, 0, filename)
  {
    hide Clean, CString, Upper;
    var offset := 0;
    while offset < SECTOR
      invariant FindInSector(s, 0, filename) == FindInSector(s, offset, filename)
      decreases SECTOR - offset
    {
      if s[offset] == 0 {
        break;
      }
      if ByteAt(s, offset + 32) > 0 {
        CleanName(s, offset, clean);
        var found := SameName(filename, clean, Clean(NameAt(s, offset), 0));
        if found {
          return Some(ExtentAt(s, offset));
        }
      }
      offset := offset + s[offset] as nat;
    }
    return None;
  }

  method SearchDir(img: Image, dir: Extent, filename: string, clean: array<char>) returns (r: Option<Extent>)
    requires clean.Length == 128
    modifies clean
    ensures r == FindInDir(img, dir, filename)
  {
    hide FindInSector;
    var sectorsTotal := (dir.size + 2047) / 2048;
    if sectorsTotal > 32 {
      sectorsTotal := 32;
    }
    var s := 0;
    while s < sectorsTotal
      invariant 0 <= s <= sectorsTotal
      invariant FindInDir(img, dir, filename) == FindFrom(img, dir.lba + s, sectorsTotal - s, filename)
    {
      r := SearchSector(img(dir.lba + s), filename, clean);
      if r.Some? {
        return;
      }
      s := s + 1;
    }
    return None;
  }

  /** Copy the next component. */
  method TakeComponent(path: string, at: nat) returns (component: string, p: nat)
    requires at <= |path|
    ensures p == at + ComponentLen(path[at..], MAX_COMPONENT) <= |path| && component == path[at..p]
  {
    component, p := "", at;
    while p < |path| && path[p] != '/' && |component| < MAX_COMPONENT
      invariant at <= p <= |path| && component == path[at..p] && |component| <= MAX_COMPONENT
      invariant ComponentLen(path[at..], MAX_COMPONENT) == |component| + ComponentLen(path[p..], MAX_COMPONENT - |component|)
    {
      assert path[p..][1..] == path[p + 1..];
      component, p := component + [path[p]], p + 1;
    }
  }

  /** Copy the next component; `p` moves behind it and its slash. */
  method NextComponent(path: string, at: nat) returns (component: string, p: nat)
    requires at <= |path|
    ensures at <= p <= |path| && component == First(path[at..]) && path[p..] == Behind(path[at..])
  {
    hide ComponentLen;
    component, p := TakeComponent(path, at);
    assert path[at..][..p - at] == path[at..p] && path[at..][p - at..] == path[p..];
    if p < |path| && path[p] == '/' {
      assert path[p..][1..] == path[p + 1..];
      p := p + 1;
    }
  }

  method Lookup(img: Image, path: string) returns (r: Option<Extent>)
    ensures r == FindFile(img, path)
  {
    hide FindInDir, First, Behind;
    var clean := new char[128];
    var volume := img(VOLUME_LBA);
    if !IsVolume(volume) {
      return None;
    }
    var cur := ExtentAt(volume, ROOT_RECORD);
    var p := 0;
    assert path[0..] == path;
    if p < |path| && path[p] == '/' {
      p := p + 1;
    }
    while p < |path|
      invariant 0 <= p <= |path|
      invariant FindFile(img, path) == Walk(img, cur, path[p..])
      decreases |path| - p
    {
      var component, q := NextComponent(path, p);
      assert |path[q..]| < |path[p..]|;
      var found := SearchDir(img, cur, component, clean);
      if found.None? {
        return None;
      }
      if q == |path| {
        return found;
      }
      cur := found.value;
      p := q;
    }
    return None;
  }
}
