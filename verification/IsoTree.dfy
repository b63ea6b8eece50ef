/** An ISO 9660 image that holds a directory tree, and the paths that name its nodes. */
module IsoTree {
  import opened Bytes
  import opened CText
  import opened Iso9660
  import opened Wrappers

  /** A file, a directory given by the records of each of its sectors, or one of the records "." and "..". */
  datatype Node = File | Dir(sectors: seq<Block>) | Dots

  /** The records of one sector. */
  datatype Block = Block(items: seq<Item>)

  /** A directory record: its length, its raw name, where its extent lies and what it is. */
  datatype Item = Item(len: nat, name: string, extent: Extent, node: Node)

  // ---- Images that hold a tree ----

  predicate RecordAt(s: Sector, off: nat, item: Item) {
    && off + item.len <= SECTOR && HEADER + |item.name| <= item.len
    && s[off] as int == item.len && NameAt(s, off) == item.name && ExtentAt(s, off) == item.extent
  }

  /** The sector holds the records from `off` on, and then its end or a zero length. */
  predicate SectorHolds(s: Sector, off: nat, items: seq<Item>)
    decreases |items|
  {
    if items == [] then off >= SECTOR || s[off] == 0
    else RecordAt(s, off, items[0]) && SectorHolds(s, off + items[0].len, items[1..])
  }

  /** All records of a directory, in order. */
  function Records(sectors: seq<Block>): seq<Item> {
    if sectors == [] then [] else sectors[0].items + Records(sectors[1..])
  }

  /** What a record's name is compared as. */
  function Key(name: string): string {
    Upper(CString(Clean(name, 0)))
  }

  predicate UniqueNames(items: seq<Item>) {
    forall i, j :: 0 <= i < j < |items| ==> Key(items[i].name) != Key(items[j].name)
  }

  /** The directory's sectors lie at its extent, at most 32 of them. */
  predicate DirStored(img: Image, extent: Extent, sectors: seq<Block>) {
    && |sectors| <= MAX_SECTORS && (extent.size + 2047) / 2048 == |sectors|
    && (forall i :: 0 <= i < |sectors| ==> SectorHolds(img(extent.lba + i), 0, sectors[i].items))
    && (forall item :: item in Records(sectors) ==> item.name != "")
  }

  /** The image holds the node at the extent, and everything below it. */
  predicate Stored(img: Image, extent: Extent, node: Node)
    decreases node
  {
    match node
    case File => true
    case Dots => true
    case Dir(sectors) =>
      && DirStored(img, extent, sectors)
      && UniqueNames(Records(sectors))
      && forall i, j :: 0 <= i < |sectors| && 0 <= j < |sectors[i].items| ==>
           Stored(img, sectors[i].items[j].extent, sectors[i].items[j].node)
  }

  // ---- What a path names ----

  /** `ThroughFile` is a path that goes on behind a record that is not a directory, with the components left there. */
  datatype Result = Found(item: Item) | Missing | ThroughFile(item: Item, rest: seq<string>)

  function Pick(items: seq<Item>, component: string): Option<Item> {
    if items == [] then None
    else if Key(items[0].name) == Upper(component) then Some(items[0])
    else Pick(items[1..], component)
  }

  function Resolve(sectors: seq<Block>, components: seq<string>): (r: Result)
    requires components != []
    ensures r.ThroughFile? ==> r.rest != [] && !r.item.node.Dir?
    decreases |components|
  {
    match Pick(Records(sectors), components[0])
    case None => Missing
    case Some(item) =>
      if |components| == 1 then Found(item)
      else match item.node
        case Dir(below) => Resolve(below, components[1..])
        case _ => ThroughFile(item, components[1..])
  }

  predicate IsComponent(c: string) {
    0 < |c| <= MAX_COMPONENT && '/' !in c
  }

  /** The components with slashes between them, and perhaps one more at the end. */
  function Join(components: seq<string>, trailing: bool): string
    requires components != []
  {
    if |components| == 1 then components[0] + (if trailing then "/" else "")
    else components[0] + ("/" + Join(components[1..], trailing))
  }

  // ---- Searching one directory ----

  lemma {:induction false} SectorFinds(s: Sector, off: nat, items: seq<Item>, component: string)
    requires SectorHolds(s, off, items)
    requires forall item :: item in items ==> item.name != ""
    ensures FindInSector(s, off, component) == match Pick(items, component) case None => None case Some(i) => Some(i.extent)
    decreases |items|
  {
    hide Key, Clean, CString, Upper, NameAt, ExtentAt;
    if items != [] {
      KeyMatches(items[0].name, component);
      assert items[0].name != "";
      assert off < SECTOR && s[off] != 0;
      SectorFinds(s, off + items[0].len, items[1..], component);
    }
  }

  lemma KeyMatches(name: string, component: string)
    requires name != ""
    ensures Matches(name, component) <==> Key(name) == Upper(component)
  {
    hide Upper, CString, Clean;
  }

  lemma {:induction false} PickConcat(a: seq<Item>, b: seq<Item>, component: string)
    ensures Pick(a + b, component) == match Pick(a, component) case None => Pick(b, component) case Some(i) => Some(i)
    decreases |a|
  {
    hide Key, Upper;
    if a == [] {
      assert a + b == b;
    } else {
      assert (a + b)[1..] == a[1..] + b;
      PickConcat(a[1..], b, component);
    }
  }

  lemma {:induction false} DirFinds(img: Image, lba: nat, sectors: seq<Block>, component: string)
    requires forall i :: 0 <= i < |sectors| ==> SectorHolds(img(lba + i), 0, sectors[i].items)
    requires forall item :: item in Records(sectors) ==> item.name != ""
    ensures FindFrom(img, lba, |sectors|, component)
         == match Pick(Records(sectors), component) case None => None case Some(i) => Some(i.extent)
    decreases |sectors|
  {
    hide Pick, SectorHolds, FindInSector;
    if sectors == [] {
      PickNone(component);
    } else {
      assert SectorHolds(img(lba + 0), 0, sectors[0].items);
      SectorFinds(img(lba), 0, sectors[0].items, component);
      PickConcat(sectors[0].items, Records(sectors[1..]), component);
      forall i | 0 <= i < |sectors[1..]| ensures SectorHolds(img(lba + 1 + i), 0, sectors[1..][i].items) {
        assert SectorHolds(img(lba + (i + 1)), 0, sectors[i + 1].items);
        assert lba + 1 + i == lba + (i + 1);
      }
      DirFinds(img, lba + 1, sectors[1..], component);
    }
  }

  lemma PickNone(component: string)
    ensures Pick([], component) == None
  {
  }

  lemma StoredDirFinds(img: Image, extent: Extent, sectors: seq<Block>, component: string)
    requires DirStored(img, extent, sectors)
    ensures FindInDir(img, extent, component)
         == match Pick(Records(sectors), component) case None => None case Some(i) => Some(i.extent)
  {
    hide Pick, Records, FindFrom, SectorHolds;
    DirFinds(img, extent.lba, sectors, component);
    assert SectorCount(extent.size) == |sectors|;
  }

  /** What is picked is one of the records, and no other record of a stored directory has its name. */
  lemma {:induction false} PickedIs(items: seq<Item>, component: string)
    ensures match Pick(items, component)
      case Some(item) => item in items && Key(item.name) == Upper(component)
      case None => forall item :: item in items ==> Key(item.name) != Upper(component)
    decreases |items|
  {
    hide Key, Upper;
    if items != [] {
      PickedIs(items[1..], component);
      assert items == [items[0]] + items[1..];
    }
  }

  lemma PickedOnly(items: seq<Item>, component: string, item: Item)
    requires UniqueNames(items) && item in items
    ensures Key(item.name) == Upper(component) <==> Pick(items, component) == Some(item)
  {
    hide Key, Upper, Pick;
    PickedIs(items, component);
    if Key(item.name) == Upper(component) {
      var picked := Pick(items, component).value;
      var i :| 0 <= i < |items| && items[i] == item;
      var j :| 0 <= j < |items| && items[j] == picked;
      assert i == j;
    }
  }

  // ---- Walking a path ----

  lemma {:induction false} LenIs(c: string, rest: string, max: nat)
    requires |c| <= max && '/' !in c && (rest != "" ==> rest[0] == '/')
    ensures ComponentLen(c + rest, max) == |c|
    decreases |c|
  {
    if c == "" {
      assert c + rest == rest;
    } else {
      assert (c + rest)[1..] == c[1..] + rest;
      assert c[0] in c && forall d :: d in c[1..] ==> d in c;
      LenIs(c[1..], rest, max - 1);
    }
  }

  lemma Splits(c: string, rest: string)
    requires IsComponent(c) && (rest != "" ==> rest[0] == '/')
    ensures First(c + rest) == c && Behind(c + rest) == if rest == "" then "" else rest[1..]
  {
    hide ComponentLen;
    LenIs(c, rest, MAX_COMPONENT);
    assert (c + rest)[..|c|] == c && (c + rest)[|c|..] == rest;
  }

  lemma {:induction false} ItemsStored(img: Image, sectors: seq<Block>, item: Item)
    requires item in Records(sectors)
    requires forall i, j :: 0 <= i < |sectors| && 0 <= j < |sectors[i].items| ==>
      Stored(img, sectors[i].items[j].extent, sectors[i].items[j].node)
    ensures Stored(img, item.extent, item.node)
    decreases |sectors|
  {
    hide Stored;
    if item in sectors[0].items {
      var j :| 0 <= j < |sectors[0].items| && sectors[0].items[j] == item;
      assert Stored(img, sectors[0].items[j].extent, sectors[0].items[j].node);
    } else {
      forall i, j | 0 <= i < |sectors[1..]| && 0 <= j < |sectors[1..][i].items|
        ensures Stored(img, sectors[1..][i].items[j].extent, sectors[1..][i].items[j].node)
      {
        assert sectors[1..][i] == sectors[i + 1];
      }
      ItemsStored(img, sectors[1..], item);
    }
  }

  lemma DirOpens(img: Image, extent: Extent, sectors: seq<Block>, item: Item)
    requires Stored(img, extent, Dir(sectors)) && item in Records(sectors)
    ensures DirStored(img, extent, sectors) && Stored(img, item.extent, item.node)
  {
    hide DirStored, UniqueNames, Records;
    ItemsStored(img, sectors, item);
  }

  lemma DirIsStored(img: Image, extent: Extent, sectors: seq<Block>)
    requires Stored(img, extent, Dir(sectors))
    ensures DirStored(img, extent, sectors) && UniqueNames(Records(sectors))
  {
    hide DirStored, UniqueNames, Records;
  }

  /** The extent of the node a path names. */
  function ExtentOf(r: Result): Option<Extent> {
    if r.Found? then Some(r.item.extent) else None
  }

  /** What the walk finds: behind a record that is not a directory it goes on all the same. */
  function Walked(img: Image, r: Result, trailing: bool): Option<Extent>
    requires r.ThroughFile? ==> r.rest != []
  {
    if r.ThroughFile? then Walk(img, r.item.extent, Join(r.rest, trailing)) else ExtentOf(r)
  }

  /** At any depth the walk follows the tree, and leaves it at the first record on the path that is no directory. */
  lemma {:induction false} WalkResolves(img: Image, extent: Extent, sectors: seq<Block>, cs: seq<string>, trailing: bool)
    requires Stored(img, extent, Dir(sectors)) && cs != [] && forall c :: c in cs ==> IsComponent(c)
    ensures Walk(img, extent, Join(cs, trailing)) == Walked(img, Resolve(sectors, cs), trailing)
    decreases |cs|
  {
    hide Stored, FindInDir, First, Behind, Pick, Records, IsComponent;
    var c := cs[0];
    var end := if trailing then "/" else "";
    var rest := if |cs| == 1 then end else "/" + Join(cs[1..], trailing);
    DirIsStored(img, extent, sectors);
    StoredDirFinds(img, extent, sectors, c);
    Splits(c, rest);
    NotEmpty(c, rest);
    match Pick(Records(sectors), c)
    case None =>
    case Some(item) =>
      if |cs| > 1 {
        assert rest[1..] == Join(cs[1..], trailing);
        JoinNotEmpty(cs[1..], trailing);
        PickedIs(Records(sectors), c);
        DirOpens(img, extent, sectors, item);
        if item.node.Dir? {
          WalkResolves(img, item.extent, item.node.sectors, cs[1..], trailing);
        }
      }
  }

  lemma NotEmpty(c: string, rest: string)
    requires IsComponent(c)
    ensures c + rest != ""
  {
  }

  lemma JoinNotEmpty(cs: seq<string>, trailing: bool)
    requires cs != [] && forall c :: c in cs ==> IsComponent(c)
    ensures Join(cs, trailing) != "" && Join(cs, trailing)[0] != '/'
  {
    assert cs[0] in cs;
    assert cs[0][0] in cs[0];
  }

  /** The volume descriptor is in place and its root record points to a directory that is stored. */
  predicate Holds(img: Image, sectors: seq<Block>) {
    IsVolume(img(VOLUME_LBA)) && Stored(img, ExtentAt(img(VOLUME_LBA), ROOT_RECORD), Dir(sectors))
  }

  function PathText(cs: seq<string>, leading: bool, trailing: bool): string
    requires cs != []
  {
    (if leading then "/" else "") + Join(cs, trailing)
  }

  /** Looking a path up finds the extent of the node it names and fails when there is none, exactly unless the path goes
      on behind something that is not a directory and the walk finds a match there. */
  lemma FindFileResolves(img: Image, sectors: seq<Block>, cs: seq<string>, leading: bool, trailing: bool)
    requires Holds(img, sectors) && cs != [] && forall c :: c in cs ==> IsComponent(c)
    ensures var r := Resolve(sectors, cs);
      && FindFile(img, PathText(cs, leading, trailing)) == Walked(img, r, trailing)
      && (FindFile(img, PathText(cs, leading, trailing)) == ExtentOf(r)
          <==> !r.ThroughFile? || Walk(img, r.item.extent, Join(r.rest, trailing)).None?)
  {
    hide Stored, Walk, Join, Resolve, IsVolume, ExtentAt, IsComponent;
    var root := ExtentAt(img(VOLUME_LBA), ROOT_RECORD);
    var t := Join(cs, trailing);
    JoinNotEmpty(cs, trailing);
    WalkResolves(img, root, sectors, cs, trailing);
    assert ("/" + t)[1..] == t && "" + t == t;
  }

  /** Behind a file the walk reads the file's bytes as records: when they hold a tree, the path goes on in that one. */
  lemma FileIsWalked(img: Image, sectors: seq<Block>, cs: seq<string>, below: seq<Block>, leading: bool, trailing: bool)
    requires Holds(img, sectors) && cs != [] && forall c :: c in cs ==> IsComponent(c)
    requires var r := Resolve(sectors, cs); r.ThroughFile? && Stored(img, r.item.extent, Dir(below))
    ensures var r := Resolve(sectors, cs);
      FindFile(img, PathText(cs, leading, trailing)) == Walked(img, Resolve(below, r.rest), trailing)
  {
    hide Stored, Walk, Join, Resolve, FindFile, PathText, IsComponent, Holds;
    var r := Resolve(sectors, cs);
    FindFileResolves(img, sectors, cs, leading, trailing);
    RestIsComponents(sectors, cs);
    WalkResolves(img, r.item.extent, below, r.rest, trailing);
  }

  lemma {:induction false} RestIsComponents(sectors: seq<Block>, cs: seq<string>)
    requires cs != [] && Resolve(sectors, cs).ThroughFile?
    ensures forall c :: c in Resolve(sectors, cs).rest ==> c in cs
    decreases |cs|
  {
    hide Pick, Records;
    var item := Pick(Records(sectors), cs[0]).value;
    assert cs == [cs[0]] + cs[1..];
    if item.node.Dir? {
      RestIsComponents(item.node.sectors, cs[1..]);
    }
  }

  // ---- What names are compared as ----

  predicate IsBase(base: string) {
    && 0 < |base| <= MAX_CLEAN && base[|base| - 1] != '.'
    && forall i :: 0 <= i < |base| ==> base[i] != ';' && base[i] != '\0'
  }

  /** What may follow the part of a name that is compared. */
  predicate IsSuffix(suffix: string) {
    suffix == "" || suffix == "." || suffix[0] == ';' || (|suffix| > 1 && suffix[0] == '.' && suffix[1] == ';')
  }

  lemma {:induction false} CleanIsBase(base: string, suffix: string, k: nat)
    requires IsBase(base) && IsSuffix(suffix) && k <= |base|
    ensures Clean(base + suffix, k) == base[k..]
    decreases |base| - k
  {
    var name := base + suffix;
    if k < |base| {
      CleanIsBase(base, suffix, k + 1);
      assert name[k] == base[k];
      assert k + 1 < |base| ==> name[k + 1] == base[k + 1];
      assert base[k..] == [base[k]] + base[k + 1..];
    } else if suffix != "" {
      assert name[k] == suffix[0];
      assert |suffix| > 1 ==> name[k + 1] == suffix[1];
    }
  }

  lemma {:induction false} CStringIs(t: string)
    requires forall i :: 0 <= i < |t| ==> t[i] != '\0'
    ensures CString(t) == t
  {
    if t != "" {
      CStringIs(t[1..]);
    }
  }

  /** A version and a dot before it, or at the end, take no part in the comparison; letter case does not either. */
  lemma NamesCompareByBase(base: string, suffix: string)
    requires IsBase(base) && IsSuffix(suffix)
    ensures Key(base + suffix) == Upper(base)
  {
    hide Upper, Clean, CString;
    CleanIsBase(base, suffix, 0);
    CStringIs(base);
    assert base[0..] == base;
  }

  // ---- Records as they are written ----

  /** A directory record: length, extended attributes, extent and size in both byte orders, eighteen bytes of date, flags,
      interleaving and volume number less one, the name's length and the name, and padding. */
  function PrintRecord(item: Item, ext: byte, bigLba: seq<byte>, bigSize: seq<byte>, rest: seq<byte>, pad: seq<byte>): seq<byte>
    requires |bigLba| == |bigSize| == 4 && |rest| == 14 && item.len < 256 && |item.name| < 256
    requires forall i :: 0 <= i < |item.name| ==> item.name[i] as int < 256
  {
    [item.len, ext] + Bytes4(item.extent.lba) + bigLba + Bytes4(item.extent.size) + bigSize + rest
    + ([|item.name|] + seq(|item.name|, i requires 0 <= i < |item.name| => item.name[i] as int) + pad)
  }

  lemma Le32Reads(s: Sector, i: nat, n: nat)
    requires i + 4 <= SECTOR && n < 0x1_0000_0000
    requires s[i] == Bytes4(n)[0] && s[i + 1] == Bytes4(n)[1] && s[i + 2] == Bytes4(n)[2] && s[i + 3] == Bytes4(n)[3]
    ensures Le32(s, i) == n
  {
    hide Bytes4, Number4;
    NumberReads(n);
  }

  /** A record written so is read back with its extent, size and name. */
  lemma RecordReads(s: Sector, off: nat, item: Item, ext: byte, bigLba: seq<byte>, bigSize: seq<byte>,
                    rest: seq<byte>, pad: seq<byte>)
    requires |bigLba| == |bigSize| == 4 && |rest| == 14 && item.len < 256 && |item.name| < 256
    requires forall i :: 0 <= i < |item.name| ==> item.name[i] as int < 256
    requires item.len == HEADER + |item.name| + |pad| && off + item.len <= SECTOR
    requires item.extent.lba < 0x1_0000_0000 && item.extent.size < 0x1_0000_0000
    requires s[off..off + item.len] == PrintRecord(item, ext, bigLba, bigSize, rest, pad)
    ensures RecordAt(s, off, item)
  {
    hide Le32, Bytes4;
    var t := PrintRecord(item, ext, bigLba, bigSize, rest, pad);
    RecordBytes(item, ext, bigLba, bigSize, rest, pad);
    assert forall k :: 0 <= k < item.len ==> s[off + k] == t[k];
    assert Bytes4(item.extent.lba) == t[2..6] && Bytes4(item.extent.size) == t[10..14];
    Le32Reads(s, off + 2, item.extent.lba);
    Le32Reads(s, off + 10, item.extent.size);
    var name := NameAt(s, off);
    assert ByteAt(s, off + 32) as int == t[32];
    forall k | 0 <= k < |item.name| ensures name[k] == item.name[k] {
      assert ByteAt(s, off + HEADER + k) as int == t[HEADER + k];
    }
    assert name == item.name;
  }

  lemma RecordBytes(item: Item, ext: byte, bigLba: seq<byte>, bigSize: seq<byte>, rest: seq<byte>, pad: seq<byte>)
    requires |bigLba| == |bigSize| == 4 && |rest| == 14 && item.len < 256 && |item.name| < 256
    requires forall i :: 0 <= i < |item.name| ==> item.name[i] as int < 256
    ensures var t := PrintRecord(item, ext, bigLba, bigSize, rest, pad);
      && |t| == HEADER + |item.name| + |pad|
      && t[0] == item.len && t[2..6] == Bytes4(item.extent.lba) && t[10..14] == Bytes4(item.extent.size)
      && t[32] == |item.name| && (forall k :: 0 <= k < |item.name| ==> t[HEADER + k] == item.name[k] as int)
  {
    hide Bytes4;
    Four(item.extent.lba);
    Four(item.extent.size);
  }

  lemma Four(n: nat)
    ensures |Bytes4(n)| == 4
  {
  }

  // ---- A path through a file ----

  /** A sector with one record: the file A, whose extent is this very sector. */
  function LoopByte(i: nat): byte {
    if i == 0 then 34 else if i == 2 then 20 else if i == 11 then 8 else if i == 32 then 1
    else if i == 33 then 'A' as int else 0
  }

  function VolumeByte(i: nat): byte {
    if i == 1 then 'C' as int else if i == 2 then 'D' as int else if i == 3 || i == 4 then '0' as int
    else if i == 5 then '1' as int else if i == 158 then 20 else if i == 167 then 8 else 0
  }

  function LoopSector(): Sector {
    seq(SECTOR, i requires 0 <= i => LoopByte(i))
  }

  function LoopVolume(): Sector {
    seq(SECTOR, i requires 0 <= i => VolumeByte(i))
  }

  lemma LoopAt(i: nat)
    requires i < SECTOR
    ensures LoopSector()[i] == ByteAt(LoopSector(), i) == LoopByte(i)
    ensures LoopVolume()[i] == ByteAt(LoopVolume(), i) == VolumeByte(i)
  {
    hide LoopByte, VolumeByte;
  }

  function LoopImage(l: nat): Sector {
    if l == VOLUME_LBA then LoopVolume() else LoopSector()
  }

  const A_FILE := Item(34, "A", Extent(20, 2048), File)

  /** Nothing stands below the file A, and yet A/A is found. */
  lemma PathThroughFileFound()
    ensures Holds(LoopImage, [Block([A_FILE])])
    ensures Resolve([Block([A_FILE])], ["A", "A"]) == ThroughFile(A_FILE, ["A"])
    ensures FindFile(LoopImage, "A/A") == Some(Extent(20, 2048))
  {
    hide Holds, Stored, FindFile;
    var sectors := [Block([A_FILE])];
    LoopStored();
    LoopResolves();
    assert IsComponent("A");
    FileIsWalked(LoopImage, sectors, ["A", "A"], sectors, false, false);
    LoopPath();
  }

  lemma LoopPath()
    ensures PathText(["A", "A"], false, false) == "A/A"
  {
    assert ["A", "A"][1..] == ["A"];
    assert Join(["A"], false) == "A" && Join(["A", "A"], false) == "A" + ("/" + "A");
  }

  lemma LoopResolves()
    ensures var sectors := [Block([A_FILE])];
      Resolve(sectors, ["A", "A"]) == ThroughFile(A_FILE, ["A"]) && Resolve(sectors, ["A"]) == Found(A_FILE)
  {
    hide Key, Upper;
    var sectors := [Block([A_FILE])];
    assert Records(sectors) == [A_FILE] by { assert sectors[1..] == []; }
    assert Pick([A_FILE], "A") == Some(A_FILE) by { LoopName(); }
    assert ["A", "A"][1..] == ["A"];
  }

  lemma LoopName()
    ensures Key("A") == Upper("A")
  {
    hide Upper, Clean, CString;
    NamesCompareByBase("A", "");
    assert "A" + "" == "A";
  }

  lemma LoopRecord()
    ensures RecordAt(LoopSector(), 0, A_FILE)
    ensures SectorHolds(LoopSector(), 0, [A_FILE])
    ensures IsVolume(LoopVolume()) && ExtentAt(LoopVolume(), ROOT_RECORD) == Extent(20, 2048)
  {
    LoopBytes();
    LoopName0();
    hide LoopSector, LoopVolume, NameAt, ExtentAt;
    assert [A_FILE][1..] == [];
    assert SectorHolds(LoopSector(), 34, []);
  }

  lemma LoopBytes()
    ensures LoopSector()[0] == 34 && LoopSector()[34] == 0 && ExtentAt(LoopSector(), 0) == Extent(20, 2048)
    ensures IsVolume(LoopVolume()) && ExtentAt(LoopVolume(), ROOT_RECORD) == Extent(20, 2048)
  {
    hide LoopSector, LoopVolume, ByteAt, Number4;
    Numbers();
    LoopAt(0); LoopAt(34);
    LoopAt(2); LoopAt(3); LoopAt(4); LoopAt(5);
    LoopAt(10); LoopAt(11); LoopAt(12); LoopAt(13);
    LoopAt(1);
    LoopAt(158); LoopAt(159); LoopAt(160); LoopAt(161);
    LoopAt(166); LoopAt(167); LoopAt(168); LoopAt(169);
  }

  lemma Numbers()
    ensures Number4(20, 0, 0, 0) == 20 && Number4(0, 8, 0, 0) == 2048
  {
  }

  lemma LoopName0()
    ensures NameAt(LoopSector(), 0) == "A"
  {
    hide LoopSector, ByteAt;
    LoopAt(32);
    LoopAt(33);
    var name := NameAt(LoopSector(), 0);
    assert name[0] == ByteAt(LoopSector(), 0 + HEADER + 0) as char == 'A';
  }

  lemma LoopStored()
    ensures Holds(LoopImage, [Block([A_FILE])]) && Stored(LoopImage, Extent(20, 2048), Dir([Block([A_FILE])]))
  {
    hide SectorHolds, LoopSector, LoopVolume, IsVolume, ExtentAt, Key;
    LoopRecord();
    var sectors := [Block([A_FILE])];
    assert Records(sectors) == [A_FILE] by { assert sectors[1..] == []; }
    assert LoopImage(VOLUME_LBA) == LoopVolume();
    assert SectorHolds(LoopImage(20 + 0), 0, sectors[0].items);
    assert DirStored(LoopImage, Extent(20, 2048), sectors);
    forall i, j | 0 <= i < |sectors| && 0 <= j < |sectors[i].items|
      ensures Stored(LoopImage, sectors[i].items[j].extent, sectors[i].items[j].node)
    {
      assert sectors[i].items[j] == A_FILE;
    }
    assert UniqueNames(Records(sectors));
    assert Stored(LoopImage, Extent(20, 2048), Dir(sectors));
  }
}
