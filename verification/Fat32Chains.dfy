/** What a FAT32 read returns: whole files on well-formed chains, an end on every table, and no sector shared. */
module Fat32Chains {
  import opened Bytes
  import opened Fat32

  // ---- Where clusters lie ----

  /** The table is below the data, and `total` clusters fit below the last address. */
  predicate Laid(v: Volume, total: nat) {
    && v.valid
    && v.fatStart + (total + 2) * 4 / SECTOR < v.dataStart
    && v.dataStart + total * v.clusterSize <= WORD
  }

  predicate InVolume(c: nat, total: nat) {
    2 <= c < total + 2
  }

  /** The address of sector `s` of a cluster. */
  function Address(v: Volume, c: nat, s: nat): nat {
    SectorAt(Lba(v, c), s)
  }

  lemma AddressInPlace(v: Volume, c: nat, s: nat, total: nat)
    requires Laid(v, total) && InVolume(c, total) && s < v.clusterSize
    ensures Address(v, c, s) == v.dataStart + (c - 2) * v.clusterSize + s < WORD
  {
    var x := (c - 2) * v.clusterSize;
    Below(c - 2, total, v.clusterSize, s);
    Small(v.dataStart + x);
    Small(v.dataStart + x + s);
  }

  lemma Small(x: nat)
    requires x < WORD
    ensures x % WORD == x
  {
  }

  lemma Below(i: nat, n: nat, size: nat, s: nat)
    requires i < n && s < size
    ensures i * size + s < n * size && i * size <= n * size
  {
    assert (i + 1) * size <= n * size;
  }

  /** Distinct clusters share no sector, and none of them lies in the table. */
  lemma ClustersDisjoint(v: Volume, c: nat, s: nat, d: nat, t: nat, total: nat)
    requires Laid(v, total) && InVolume(c, total) && InVolume(d, total) && c != d
    requires s < v.clusterSize && t < v.clusterSize
    ensures Address(v, c, s) != Address(v, d, t)
  {
    hide Address, Lba;
    AddressInPlace(v, c, s, total);
    AddressInPlace(v, d, t, total);
    if c < d {
      Below(c - 2, d - 2, v.clusterSize, s);
    } else {
      Below(d - 2, c - 2, v.clusterSize, t);
    }
  }

  lemma TableBelowData(v: Volume, c: nat, d: nat, s: nat, total: nat)
    requires Laid(v, total) && InVolume(c, total) && InVolume(d, total) && s < v.clusterSize
    ensures FatSector(v, c) != Address(v, d, s)
  {
    hide Address, Lba;
    AddressInPlace(v, d, s, total);
    assert c * 4 / SECTOR <= (total + 2) * 4 / SECTOR;
    assert (d - 2) * v.clusterSize >= 0;
  }

  /** Every cluster has its own entry in the table. */
  lemma EntriesDisjoint(v: Volume, c: nat, d: nat, total: nat)
    requires Laid(v, total) && InVolume(c, total) && InVolume(d, total) && c != d
    requires v.dataStart <= WORD
    ensures FatSector(v, c) != FatSector(v, d) || FatOffset(c) >= FatOffset(d) + 4 || FatOffset(d) >= FatOffset(c) + 4
  {
    assert c * 4 / SECTOR <= (total + 2) * 4 / SECTOR && d * 4 / SECTOR <= (total + 2) * 4 / SECTOR;
    assert FatSector(v, c) == v.fatStart + c * 4 / SECTOR && FatSector(v, d) == v.fatStart + d * 4 / SECTOR;
    assert c * 4 == SECTOR * (c * 4 / SECTOR) + FatOffset(c);
    assert d * 4 == SECTOR * (d * 4 / SECTOR) + FatOffset(d);
  }

  // ---- Well-formed chains ----

  /** The table links the clusters of a file in order and ends behind the last one. */
  predicate Links(v: Volume, file: seq<nat>) {
    && (forall i :: 0 <= i < |file| ==> file[i] < END_OF_CHAIN)
    && (forall i :: 0 < i < |file| ==> Next(v, file[i - 1]) == file[i])
    && (file != [] ==> Next(v, file[|file| - 1]) >= END_OF_CHAIN)
  }

  lemma {:induction false} ChainFollowsLinks(v: Volume, file: seq<nat>, n: nat)
    requires Links(v, file) && file != [] && |file| <= n
    ensures Chain(v, file[0], n) == file
    decreases |file|
  {
    hide Next;
    var rest := file[1..];
    if rest == [] {
      assert Chain(v, Next(v, file[0]), n - 1) == [];
      assert file == [file[0]];
    } else {
      LinksRest(v, file);
      ChainFollowsLinks(v, rest, n - 1);
      assert Next(v, file[0]) == rest[0];
      assert file == [file[0]] + rest;
    }
  }

  lemma LinksRest(v: Volume, file: seq<nat>)
    requires Links(v, file) && |file| > 1
    ensures Links(v, file[1..])
  {
    hide Next;
    var rest := file[1..];
    forall i | 0 < i < |rest| ensures Next(v, rest[i - 1]) == rest[i] {
      assert rest[i - 1] == file[i];
    }
  }

  /** The bytes a file's clusters hold, one after the other. */
  function Content(v: Volume, file: seq<nat>): seq<byte> {
    if file == [] then [] else ClusterBytes(v, file[0]) + Content(v, file[1..])
  }

  lemma {:induction false} ContentIsChainBytes(v: Volume, file: seq<nat>)
    ensures Content(v, file) == ChainBytes(v, file) && |Content(v, file)| == |file| * (v.clusterSize * SECTOR)
    decreases |file|
  {
    hide ClusterBytes;
    if file != [] {
      ContentIsChainBytes(v, file[1..]);
      assert |ClusterBytes(v, file[0])| == v.clusterSize * SECTOR by { ClusterLength(v, file[0]); }
    }
  }

  lemma ClusterLength(v: Volume, c: nat)
    ensures |ClusterBytes(v, c)| == v.clusterSize * SECTOR
  {
  }

  /** On a well-formed chain of at most 65536 clusters a read sees exactly the file's clusters. */
  lemma VisibleIsContent(v: Volume, file: seq<nat>)
    requires Links(v, file) && 0 < |file| <= MAX_CLUSTERS
    ensures Visible(v, file[0]) == Content(v, file)
    ensures |Visible(v, file[0])| == |file| * (v.clusterSize * SECTOR)
  {
    hide Links, Visible, Chain, ChainBytes, Content;
    ChainFollowsLinks(v, file, MAX_CLUSTERS);
    ContentIsChainBytes(v, file);
    VisibleIs(v, file[0]);
  }

  lemma VisibleIs(v: Volume, c: nat)
    ensures Visible(v, c) == ChainBytes(v, Chain(v, c, MAX_CLUSTERS))
  {
  }

  // ---- Other files ----

  /** The volume with one sector overwritten. */
  function Overwrite(v: Volume, lba: nat, data: Sector): Volume {
    v.(disk := l => Patched(v.disk, lba, data, l))
  }

  function Patched(disk: nat -> Sector, lba: nat, data: Sector, l: nat): Sector {
    if l == lba then data else disk(l)
  }

  lemma NextKept(v: Volume, c: nat, lba: nat, data: Sector)
    requires FatSector(v, c) != lba
    ensures Next(Overwrite(v, lba, data), c) == Next(v, c)
  {
  }

  lemma {:induction false} SectorsKept(v: Volume, first: nat, n: nat, lba: nat, data: Sector)
    requires forall s :: 0 <= s < n ==> SectorAt(first, s) != lba
    ensures Sectors(Overwrite(v, lba, data), first, n) == Sectors(v, first, n)
  {
    if n > 0 {
      SectorsKept(v, first, n - 1, lba, data);
    }
  }

  lemma {:induction false} ContentKept(v: Volume, file: seq<nat>, lba: nat, data: Sector)
    requires forall i, s :: 0 <= i < |file| && 0 <= s < v.clusterSize ==> Address(v, file[i], s) != lba
    ensures Content(Overwrite(v, lba, data), file) == Content(v, file)
    decreases |file|
  {
    if file != [] {
      var w := Overwrite(v, lba, data);
      assert ClusterBytes(w, file[0]) == ClusterBytes(v, file[0]) by {
        forall s | 0 <= s < v.clusterSize ensures SectorAt(Lba(v, file[0]), s) != lba {
          assert Address(v, file[0], s) != lba;
        }
        SectorsKept(v, Lba(v, file[0]), v.clusterSize, lba, data);
      }
      assert forall i :: 0 <= i < |file[1..]| ==> file[1..][i] == file[i + 1];
      ContentKept(v, file[1..], lba, data);
    }
  }

  /** Writing any sector of a cluster that is not the file's leaves the file as it reads. */
  lemma OtherClustersIrrelevant(v: Volume, file: seq<nat>, d: nat, t: nat, data: Sector, total: nat)
    requires Laid(v, total) && Links(v, file) && 0 < |file| <= MAX_CLUSTERS
    requires forall c :: c in file ==> InVolume(c, total)
    requires InVolume(d, total) && d !in file && t < v.clusterSize
    ensures Visible(Overwrite(v, Address(v, d, t), data), file[0]) == Visible(v, file[0])
  {
    hide *;
    var lba := Address(v, d, t);
    var w := Overwrite(v, lba, data);
    forall c | c in file ensures Next(w, c) == Next(v, c) {
      TableBelowData(v, c, d, t, total);
      NextKept(v, c, lba, data);
    }
    LinksKept(v, w, file);
    forall i, s | 0 <= i < |file| && 0 <= s < v.clusterSize ensures Address(v, file[i], s) != lba {
      ClustersDisjoint(v, file[i], s, d, t, total);
    }
    ContentKept(v, file, lba, data);
    VisibleIsContent(v, file);
    VisibleIsContent(w, file);
  }

  lemma LinksKept(v: Volume, w: Volume, file: seq<nat>)
    requires Links(v, file)
    requires forall c :: c in file ==> Next(w, c) == Next(v, c)
    ensures Links(w, file)
  {
    hide Next;
  }

  // ---- Every table ----

  /** The cluster `k` links behind `c`. */
  function After(v: Volume, c: nat, k: nat): nat
    decreases k
  {
    if k == 0 then c else After(v, Next(v, c), k - 1)
  }

  lemma {:induction false} ChainAtMost(v: Volume, c: nat, n: nat)
    ensures |Chain(v, c, n)| <= n
    decreases n
  {
    hide Next;
    if n > 0 && c < END_OF_CHAIN {
      ChainAtMost(v, Next(v, c), n - 1);
    }
  }

  lemma {:induction false} ChainPrefix(v: Volume, c: nat, k: nat, n: nat)
    requires n <= k && |Chain(v, c, k)| == k
    ensures |Chain(v, c, n)| == n
    decreases n
  {
    hide Next;
    if n > 0 {
      ChainPrefix(v, Next(v, c), k - 1, n - 1);
    }
  }

  lemma {:induction false} ChainSplit(v: Volume, c: nat, k: nat, m: nat)
    requires |Chain(v, c, k)| == k
    ensures Chain(v, c, k + m) == Chain(v, c, k) + Chain(v, After(v, c, k), m)
    decreases k
  {
    hide Next;
    if k > 0 {
      ChainSplit(v, Next(v, c), k - 1, m);
    }
  }

  lemma {:induction false} CycleNeverEnds(v: Volume, c: nat, k: nat, n: nat)
    requires k > 0 && |Chain(v, c, k)| == k && After(v, c, k) == c
    ensures |Chain(v, c, n)| == n
    decreases n
  {
    hide *;
    if n <= k {
      ChainPrefix(v, c, k, n);
    } else {
      ChainSplit(v, c, k, n - k);
      CycleNeverEnds(v, c, k, n - k);
    }
  }

  /** A read ends on every table; where the links run in a circle it stops after 65536 clusters. */
  lemma CycleStops(v: Volume, c: nat, k: nat)
    requires k > 0 && |Chain(v, c, k)| == k && After(v, c, k) == c
    ensures |Visible(v, c)| == MAX_CLUSTERS * (v.clusterSize * SECTOR)
  {
    hide Chain, After, Visible, ChainBytes;
    CycleNeverEnds(v, c, k, MAX_CLUSTERS);
    ContentIsChainBytes(v, Chain(v, c, MAX_CLUSTERS));
    VisibleIs(v, c);
  }

  lemma Scale(a: nat, b: nat, size: nat)
    requires a <= b
    ensures a * size <= b * size
  {
  }

  /** However long the chain, no read sees more than 65536 clusters. */
  lemma VisibleAtMost(v: Volume, c: nat)
    ensures |Visible(v, c)| <= MAX_CLUSTERS * (v.clusterSize * SECTOR)
  {
    hide Chain, Visible, ChainBytes;
    ChainAtMost(v, c, MAX_CLUSTERS);
    ContentIsChainBytes(v, Chain(v, c, MAX_CLUSTERS));
    VisibleIs(v, c);
    Scale(|Chain(v, c, MAX_CLUSTERS)|, MAX_CLUSTERS, v.clusterSize * SECTOR);
  }

  // ---- Entries as they are written ----

  lemma Le32Reads(s: Sector, i: nat, n: nat)
    requires i + 4 <= SECTOR && n < WORD && s[i..i + 4] == Bytes4(n)
    ensures Le32(s, i) == n
  {
    hide Bytes4, Number4;
    assert s[i] == s[i..i + 4][0] && s[i + 1] == s[i..i + 4][1] && s[i + 2] == s[i..i + 4][2] && s[i + 3] == s[i..i + 4][3];
    NumberReads(n);
  }

  predicate EntryWritten(v: Volume, c: nat, n: nat) {
    FatOffset(c) + 4 <= SECTOR && v.disk(FatSector(v, c))[FatOffset(c)..FatOffset(c) + 4] == Bytes4(n)
  }

  /** The entry of cluster c lies 4c bytes into the table, and its lower 28 bits are the next cluster. */
  lemma EntryReads(v: Volume, c: nat, n: nat)
    requires v.fatStart + c * 4 / SECTOR < WORD && n < WORD
    requires EntryWritten(v, c, n)
    ensures FatSector(v, c) * SECTOR + FatOffset(c) == v.fatStart * SECTOR + 4 * c
    ensures Next(v, c) == n % 0x1000_0000
  {
    hide Le32, Bytes4;
    EntryFits(c);
    var s, i := v.disk(FatSector(v, c)), FatOffset(c);
    Le32Reads(s, i, n);
    assert FatSector(v, c) == v.fatStart + c * 4 / SECTOR;
  }

  /** The next cluster is the little-endian number at byte 4c of the table, without its upper four bits. */
  lemma NextIs(v: Volume, c: nat)
    requires v.fatStart + c * 4 / SECTOR < WORD
    ensures 4 * c % 512 + 4 <= 512
    ensures var s, i := v.disk(v.fatStart + 4 * c / 512), 4 * c % 512;
      Next(v, c) == (s[i] as int + 0x100 * s[i + 1] as int + 0x1_0000 * s[i + 2] as int + 0x100_0000 * s[i + 3] as int)
                    % 0x1000_0000
  {
    hide FatSector;
    EntryFits(c);
    FatSectorIs(v, c);
  }

  lemma FatSectorIs(v: Volume, c: nat)
    requires v.fatStart + c * 4 / SECTOR < WORD
    ensures FatSector(v, c) == v.fatStart + 4 * c / 512
  {
    Small(v.fatStart + c * 4 / SECTOR);
  }

  // ---- Byte by byte ----

  lemma {:induction false} SectorsAt(v: Volume, lba: nat, n: nat, s: nat, k: nat)
    requires s < n && k < SECTOR
    ensures s * SECTOR + k < n * SECTOR && Sectors(v, lba, n)[s * SECTOR + k] == v.disk(SectorAt(lba, s))[k]
  {
    Below(s, n, SECTOR, k);
    if s < n - 1 {
      SectorsAt(v, lba, n - 1, s, k);
    }
  }

  lemma {:induction false} ContentAt(v: Volume, file: seq<nat>, i: nat, j: nat)
    requires i < |file| && j < v.clusterSize * SECTOR
    ensures var size := v.clusterSize * SECTOR;
      i * size + j < |Content(v, file)| && |ClusterBytes(v, file[i])| == size
      && Content(v, file)[i * size + j] == ClusterBytes(v, file[i])[j]
    decreases |file|
  {
    hide ClusterBytes;
    ClusterLength(v, file[i]);
    ClusterLength(v, file[0]);
    if i > 0 {
      var size := v.clusterSize * SECTOR;
      ContentAt(v, file[1..], i - 1, j);
      assert i * size == (i - 1) * size + size;
    }
  }

  /** Byte j of cluster i of a file is the byte of the volume's data that the cluster's number says. */
  lemma FileByte(v: Volume, file: seq<nat>, i: nat, s: nat, k: nat, total: nat, at: nat, lba: nat)
    requires Laid(v, total) && Links(v, file) && |file| <= MAX_CLUSTERS
    requires i < |file| && InVolume(file[i], total) && s < v.clusterSize && k < 512
    requires at == i * (v.clusterSize * 512) + (s * 512 + k) && lba == v.dataStart + (file[i] - 2) * v.clusterSize + s
    ensures at < |Visible(v, file[0])| && Visible(v, file[0])[at] == v.disk(lba)[k]
  {
    hide Visible, Content, Links, Lba, Sectors, Chain, Laid;
    VisibleIsContent(v, file);
    Below(s, v.clusterSize, SECTOR, k);
    ContentAt(v, file, i, s * SECTOR + k);
    SectorsAt(v, Lba(v, file[i]), v.clusterSize, s, k);
    AddressInPlace(v, file[i], s, total);
  }
}
