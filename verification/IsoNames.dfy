/** Which names match on an ISO 9660 image: letter case, said position by position. */
module IsoNames {
  import opened Bytes
  import opened CText
  import opened TextFacts
  import opened Iso9660
  import opened IsoTree
  import opened Wrappers

  /** A record of a base name and what may follow it matches a path component exactly when the two agree up to letter
      case. */
  lemma MatchesIs(base: string, suffix: string, component: string)
    requires IsBase(base) && IsSuffix(suffix)
    ensures Matches(base + suffix, component) <==> Agree(base, component)
  {
    hide Upper, Clean, CString, Agree;
    NamesCompareByBase(base, suffix);
    KeyMatches(base + suffix, component) by { assert (base + suffix)[0] == base[0]; }
    UpperIff(base, component);
  }

  // ---- paths in either case ----

  lemma {:induction false} SameLength(p: string, q: string, max: nat)
    requires Agree(p, q)
    ensures ComponentLen(p, max) == ComponentLen(q, max)
  {
    if p != "" && max > 0 && p[0] != '/' {
      AgreeStep(p, q);
      SameLength(p[1..], q[1..], max - 1);
    }
  }

  lemma AgreeParts(p: string, q: string, k: nat)
    requires Agree(p, q) && k <= |p|
    ensures Agree(p[..k], q[..k]) && Agree(p[k..], q[k..])
  {
    hide SameLetter;
  }

  lemma SameDropSlash(p: string, q: string)
    requires Agree(p, q)
    ensures Agree(DropSlash(p), DropSlash(q))
  {
    if p != "" {
      AgreeParts(p, q, 1);
    }
  }

  lemma SameSplit(p: string, q: string)
    requires Agree(p, q)
    ensures Agree(First(p), First(q)) && Agree(Behind(p), Behind(q))
  {
    hide ComponentLen, Agree;
    SameLength(p, q, MAX_COMPONENT);
    AgreeParts(p, q, ComponentLen(p, MAX_COMPONENT));
    SameDropSlash(p[ComponentLen(p, MAX_COMPONENT)..], q[ComponentLen(q, MAX_COMPONENT)..]);
  }

  lemma {:induction false} SameInSector(s: Sector, off: nat, a: string, b: string)
    requires Upper(a) == Upper(b)
    ensures FindInSector(s, off, a) == FindInSector(s, off, b)
    decreases SECTOR - off
  {
    hide Upper, Clean, CString, NameAt, ExtentAt;
    if off < SECTOR && s[off] != 0 {
      SameInSector(s, off + s[off] as nat, a, b);
    }
  }

  lemma {:induction false} SameFrom(img: Image, lba: nat, n: nat, a: string, b: string)
    requires Upper(a) == Upper(b)
    ensures FindFrom(img, lba, n, a) == FindFrom(img, lba, n, b)
    decreases n
  {
    hide Upper, FindInSector;
    if n > 0 {
      SameInSector(img(lba), 0, a, b);
      SameFrom(img, lba + 1, n - 1, a, b);
    }
  }

  lemma {:induction false} SameWalk(img: Image, dir: Extent, p: string, q: string)
    requires Agree(p, q)
    ensures Walk(img, dir, p) == Walk(img, dir, q)
    decreases |p|
  {
    hide Upper, FindInDir, First, Behind, SameLetter;
    if p != "" {
      SameSplit(p, q);
      SameInDir(img, dir, First(p), First(q));
      var found := FindInDir(img, dir, First(p));
      if found.Some? && Behind(p) != "" {
        SameWalk(img, found.value, Behind(p), Behind(q));
      }
    }
  }

  lemma SameInDir(img: Image, dir: Extent, a: string, b: string)
    requires Agree(a, b)
    ensures FindInDir(img, dir, a) == FindInDir(img, dir, b)
  {
    hide Upper, FindFrom, Agree;
    UpperIff(a, b);
    SameFrom(img, dir.lba, SectorCount(dir.size), a, b);
  }

  /** Two paths that agree up to letter case find the same on every image. */
  lemma FindFileIgnoresCase(img: Image, p: string, q: string)
    requires Agree(p, q)
    ensures FindFile(img, p) == FindFile(img, q)
  {
    hide Walk, IsVolume, ExtentAt, Agree;
    SameDropSlash(p, q);
    if IsVolume(img(VOLUME_LBA)) {
      SameWalk(img, ExtentAt(img(VOLUME_LBA), ROOT_RECORD), DropSlash(p), DropSlash(q));
    }
  }

  // ---- where the reader looks ----

  /** A record's extent is two little-endian numbers at its bytes 2 and 10; its name is the bytes from 33 on, as many as byte
      32 says. */
  lemma RecordIs(s: Sector, off: nat, k: nat)
    requires off + 33 <= 2048
    ensures ExtentAt(s, off) == Extent(
      s[off + 2] as int + 0x100 * s[off + 3] as int + 0x1_0000 * s[off + 4] as int + 0x100_0000 * s[off + 5] as int,
      s[off + 10] as int + 0x100 * s[off + 11] as int + 0x1_0000 * s[off + 12] as int + 0x100_0000 * s[off + 13] as int)
    ensures |NameAt(s, off)| == s[off + 32]
    ensures k < s[off + 32] && off + 33 + k < 2048 ==> NameAt(s, off)[k] as int == s[off + 33 + k]
  {
    assert k < |NameAt(s, off)| ==> NameAt(s, off)[k] == ByteAt(s, off + HEADER + k) as char;
  }

  /** A record at the front of what is left of a sector is taken when its name matches and passed over by its length when it
      does not; a length of zero ends the sector. */
  lemma SectorIs(s: Sector, off: nat, component: string)
    ensures off >= 2048 ==> FindInSector(s, off, component) == None
    ensures off < 2048 && s[off] == 0 ==> FindInSector(s, off, component) == None
    ensures off < 2048 && s[off] != 0 ==>
      FindInSector(s, off, component)
      == if Matches(NameAt(s, off), component) then Some(ExtentAt(s, off)) else FindInSector(s, off + s[off], component)
  {
    hide Matches, NameAt, ExtentAt;
  }

  /** The image is a volume when sector 16 says CD001 from its byte 1 on, and its root directory is the record at byte 156. */
  lemma RootIs(img: Image, path: string)
    ensures var s := img(16);
      var volume := s[1] == 'C' as int && s[2] == 'D' as int && s[3] == '0' as int && s[4] == '0' as int && s[5] == '1' as int;
      var p := if path != "" && path[0] == '/' then path[1..] else path;
      FindFile(img, path) == if volume then Walk(img, ExtentAt(s, 156), p) else None
  {
    hide Walk, ExtentAt;
  }

  /** A directory of `size` bytes is searched for its first 32 sectors of 2048 bytes at most. */
  lemma SectorsSearched(size: nat)
    ensures var n := SectorCount(size);
      n <= 32 && (n < 32 ==> size <= n * 2048 < size + 2048) && (n == 32 ==> size > 31 * 2048)
  {
  }
}
