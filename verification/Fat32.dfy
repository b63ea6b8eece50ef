/** Reading a file from a FAT32 volume: the cluster chain, its sectors and the caller's buffer. */
module Fat32 {
  import opened Bytes

  const SECTOR := 512
  const END_OF_CHAIN := 0x0FFF_FFF8
  const MAX_CLUSTERS := 65536

  type Sector = s: seq<byte> | |s| == SECTOR witness seq(SECTOR, _ => 0)

  /** What mounting found; the disk gives a sector for every address. */
  datatype Volume = Volume(valid: bool, fatStart: nat, dataStart: nat, clusterSize: nat, disk: nat -> Sector)

  /** Four bytes, the lowest first. */
  function Le32(s: Sector, i: nat): nat
    requires i + 4 <= SECTOR
  {
    Number4(s[i], s[i + 1], s[i + 2], s[i + 3])
  }

  /** The sector and the offset of a cluster's entry in the table. */
  function FatSector(v: Volume, c: nat): nat { (v.fatStart + c * 4 / SECTOR) % WORD }

  function FatOffset(c: nat): nat { c * 4 % SECTOR }

  /** The table entry of a cluster, its upper four bits masked off. */
  function Next(v: Volume, c: nat): nat {
    Le32(v.disk(FatSector(v, c)), FatOffset(c)) % 0x1000_0000
  }

  /** The first sector of a cluster. */
  function Lba(v: Volume, c: nat): nat {
    if c < 2 then 0 else (v.dataStart + (c - 2) * v.clusterSize) % WORD
  }

  /** The clusters from `c` on, at most `n` of them. */
  function Chain(v: Volume, c: nat, n: nat): seq<nat>
    decreases n
  {
    if n == 0 || c >= END_OF_CHAIN then [] else [c] + Chain(v, Next(v, c), n - 1)
  }

  /** Sector addresses wrap at 32 bits. */
  function SectorAt(lba: nat, s: nat): nat {
    (lba + s) % WORD
  }

  /** The bytes of `n` sectors in a row. */
  function Sectors(v: Volume, lba: nat, n: nat): (r: seq<byte>)
    ensures |r| == n * SECTOR
  {
    if n == 0 then [] else Sectors(v, lba, n - 1) + v.disk(SectorAt(lba, n - 1))
  }

  function ClusterBytes(v: Volume, c: nat): seq<byte> {
    Sectors(v, Lba(v, c), v.clusterSize)
  }

  function ChainBytes(v: Volume, chain: seq<nat>): seq<byte> {
    if chain == [] then [] else ClusterBytes(v, chain[0]) + ChainBytes(v, chain[1..])
  }

  /** Everything a read from `c` can see. */
  function Visible(v: Volume, c: nat): seq<byte> {
    ChainBytes(v, Chain(v, c, MAX_CLUSTERS))
  }

  function Min(a: nat, b: nat): (m: nat)
    ensures m <= a && m <= b && (m == a || m == b)
  {
    if a < b then a else b
  }

  // ---- The reader ----

  method FatEntry(v: Volume, cluster: nat) returns (e: nat)
    requires v.valid && cluster < END_OF_CHAIN
    ensures e == Next(v, cluster)
  {
    var fatOffset := cluster * 4;
    var sector := v.disk((v.fatStart + fatOffset / SECTOR) % WORD);
    var i := fatOffset % SECTOR;
    EntryFits(cluster);
    var entry := Le32(sector, i);
    e := entry % 0x1000_0000;
  }

  lemma EntryFits(c: nat)
    ensures FatOffset(c) + 4 <= SECTOR
  {
  }

  method ClusterToLba(v: Volume, cluster: nat) returns (lba: nat)
    requires v.valid
    ensures lba == Lba(v, cluster)
  {
    if cluster < 2 {
      return 0;
    }
    lba := (v.dataStart + (cluster - 2) * v.clusterSize) % WORD;
  }

  lemma ChainStep(v: Volume, c: nat, n: nat)
    requires n > 0 && c < END_OF_CHAIN
    ensures ChainBytes(v, Chain(v, c, n)) == ClusterBytes(v, c) + ChainBytes(v, Chain(v, Next(v, c), n - 1))
  {
    hide Next, ClusterBytes;
    assert Chain(v, c, n)[1..] == Chain(v, Next(v, c), n - 1);
  }

  lemma ChainDone(v: Volume, c: nat, n: nat)
    requires n == 0 || c >= END_OF_CHAIN
    ensures ChainBytes(v, Chain(v, c, n)) == []
  {
  }

  /** Copy one cluster behind the `bytes` already in the buffer, as far as `size` allows. */
  method CopyCluster(v: Volume, cluster: nat, size: nat, buffer: array<byte>, bytes: nat, ghost before: seq<byte>)
    returns (bytesRead: nat)
    requires v.valid && bytes < size <= buffer.Length
    requires bytes == |before| && buffer[..bytes] == before
    modifies buffer
    ensures bytesRead == Min(|before| + |ClusterBytes(v, cluster)|, size)
    ensures buffer[..bytesRead] == (before + ClusterBytes(v, cluster))[..bytesRead]
    ensures forall k :: bytesRead <= k < buffer.Length ==> buffer[k] == old(buffer[k])
  {
    hide Lba, Sectors;
    bytesRead := bytes;
    var lba := ClusterToLba(v, cluster);
    var s := 0;
    ghost var seen := before;
    NoSectors(v, lba);
    while s < v.clusterSize && bytesRead < size
      invariant 0 <= s <= v.clusterSize && bytes <= bytesRead <= size
      invariant seen == before + Sectors(v, lba, s)
      invariant bytesRead == Min(|seen|, size)
      invariant buffer[..bytesRead] == seen[..bytesRead]
      invariant forall k :: bytesRead <= k < buffer.Length ==> buffer[k] == old(buffer[k])
    {
      SectorsNext(v, lba, s, before);
      assert seen[..|seen|] == seen;
      bytesRead := CopySector(v.disk((lba + s) % WORD), size, buffer, bytesRead, seen);
      seen := seen + v.disk((lba + s) % WORD);
      s := s + 1;
    }
    SectorsPrefix(v, lba, s, v.clusterSize);
    assert bytesRead == size ==> seen[..size] == (before + Sectors(v, lba, v.clusterSize))[..size];
  }

  /** Copy one sector behind what the buffer holds, as far as `size` allows. */
  method CopySector(temp: Sector, size: nat, buffer: array<byte>, at: nat, ghost seen: seq<byte>) returns (bytesRead: nat)
    requires at < size <= buffer.Length && at == |seen| && buffer[..at] == seen
    modifies buffer
    ensures bytesRead == Min(|seen + temp|, size) && buffer[..bytesRead] == (seen + temp)[..bytesRead]
    ensures forall k :: bytesRead <= k < buffer.Length ==> buffer[k] == old(buffer[k])
  {
    var toRead := SECTOR;
    if at + toRead > size {
      toRead := size - at;
    }
    CopyBytes(temp, toRead, buffer, at);
    AppendPart(seen, temp, toRead);
    bytesRead := at + toRead;
  }

  lemma NoSectors(v: Volume, lba: nat)
    ensures Sectors(v, lba, 0) == []
  {
  }

  lemma SectorsNext(v: Volume, lba: nat, s: nat, before: seq<byte>)
    ensures before + Sectors(v, lba, s + 1) == before + Sectors(v, lba, s) + v.disk(SectorAt(lba, s))
  {
  }

  lemma AppendPart(seen: seq<byte>, temp: Sector, n: nat)
    requires n <= SECTOR
    ensures (seen + temp)[..|seen| + n] == seen + temp[..n]
  {
  }

  method CopyBytes(temp: Sector, toRead: nat, buffer: array<byte>, at: nat)
    requires toRead <= SECTOR && at + toRead <= buffer.Length
    modifies buffer
    ensures buffer[..at + toRead] == old(buffer[..at]) + temp[..toRead]
    ensures forall k :: at + toRead <= k < buffer.Length ==> buffer[k] == old(buffer[k])
  {
    var i := 0;
    while i < toRead
      invariant 0 <= i <= toRead
      invariant forall k :: 0 <= k < buffer.Length ==>
        buffer[k] == if at <= k < at + i then temp[k - at] else old(buffer[k])
    {
      buffer[at + i] := temp[i];
      i := i + 1;
    }
  }

  lemma {:induction false} SectorsPrefix(v: Volume, lba: nat, s: nat, n: nat)
    requires s <= n
    ensures Sectors(v, lba, s) <= Sectors(v, lba, n)
  {
    if s < n {
      SectorsPrefix(v, lba, s, n - 1);
    }
  }

  /** Read `size` bytes of the file that starts at cluster `start`. */
  method ReadFile(v: Volume, start: nat, size: nat, buffer: array<byte>) returns (r: int)
    requires size <= buffer.Length && size < 0x8000_0000
    modifies buffer
    ensures !(v.valid && 0 < start < 0x0FFF_FFF8) ==> r == -1 && buffer[..] == old(buffer[..])
    ensures v.valid && 0 < start < 0x0FFF_FFF8 ==> r == Min(size, |Visible(v, start)|)
    ensures v.valid && 0 < start < 0x0FFF_FFF8 ==> buffer[..] == Visible(v, start)[..r] + old(buffer[r..])
  {
    if !v.valid {
      return -1;
    }
    if start == 0 || start >= END_OF_CHAIN {
      return -1;
    }
    if size == 0 {
      assert buffer[..] == [] + old(buffer[0..]);
      return 0;
    }
    hide Visible;
    var bytesRead := FollowChain(v, start, size, buffer);
    Spliced(buffer[..], old(buffer[..]), bytesRead);
    r := bytesRead;
  }

  lemma Spliced(s: seq<byte>, was: seq<byte>, n: nat)
    requires n <= |s| == |was| && forall k :: n <= k < |s| ==> s[k] == was[k]
    ensures s == s[..n] + was[n..]
  {
  }

  method FollowChain(v: Volume, start: nat, size: nat, buffer: array<byte>) returns (bytesRead: nat)
    requires v.valid && 0 < start < END_OF_CHAIN && size <= buffer.Length && 0 < size
    modifies buffer
    ensures bytesRead == Min(size, |Visible(v, start)|)
    ensures buffer[..bytesRead] == Visible(v, start)[..bytesRead]
    ensures forall k :: bytesRead <= k < buffer.Length ==> buffer[k] == old(buffer[k])
  {
    hide Chain, ChainBytes, ClusterBytes, Next;
    var cluster: nat := start;
    bytesRead := 0;
    var visited := 0;
    ghost var done: seq<byte> := [];
    while cluster < END_OF_CHAIN && bytesRead < size && visited < MAX_CLUSTERS
      invariant 0 <= visited <= MAX_CLUSTERS
      invariant Visible(v, start) == done + ChainBytes(v, Chain(v, cluster, MAX_CLUSTERS - visited))
      invariant bytesRead == Min(size, |done|)
      invariant buffer[..bytesRead] == done[..bytesRead]
      invariant forall k :: bytesRead <= k < buffer.Length ==> buffer[k] == old(buffer[k])
      decreases MAX_CLUSTERS - visited
    {
      ghost var left := MAX_CLUSTERS - visited;
      ChainStep(v, cluster, left);
      Regroup(done, ClusterBytes(v, cluster), ChainBytes(v, Chain(v, Next(v, cluster), left - 1)));
      bytesRead := CopyCluster(v, cluster, size, buffer, bytesRead, done);
      done := done + ClusterBytes(v, cluster);
      cluster := FatEntry(v, cluster);
      visited := visited + 1;
    }
    if bytesRead < size {
      ChainDone(v, cluster, MAX_CLUSTERS - visited);
    }
  }

  lemma Regroup(a: seq<byte>, b: seq<byte>, c: seq<byte>)
    ensures a + (b + c) == (a + b) + c
  {
  }
}
