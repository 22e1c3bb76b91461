/** The firmware's FAT32 reader: following a cluster chain to read a file or list a directory. */
module Fat32 {
  import opened Bytes
  import opened Virtqueue
  import opened GuestRam
  import opened BlkDevice
  import BlkDriver
  import opened Arith

  const SUCCESS := 0
  const FAT_IO_ERROR := 4
  const INVALID_FAT_SECTOR_SIZE := 7
  const INVALID_FAT_CLUSTER_SIZE := 8
  const END_OF_DIR := 9
  const NOT_A_FILE := 11

  const M32 := 0x1_0000_0000
  const M64 := 0x1_0000_0000_0000_0000
  const END_OF_CHAIN := 0x0FFF_FFF8

  /** The volume: where it starts, and the numbers of its boot sector the reader keeps. */
  datatype Fs = Fs(firstSector: U64, spc: Byte, reserved: U16, dataStart: U32, root: U32) {
    /** Bytes per cluster. */
    function Size(): (n: nat)
      ensures n <= 0x1_FE00 && (spc > 0 ==> n >= 512)
    {
      spc * 512
    }
  }

  /** One driver read: the bytes, or nothing when the status is not 0. */
  function BlkRead(disk: Disk, sector: U64, len: U32): (o: Option<seq<Byte>>)
    ensures o.Some? ==> |o.value| == len
  {
    if SeekOk(ByteOffset(sector)) then ReadAt(disk, ByteOffset(sector), len) else None
  }

  /** This is what the driver delivers: status 0 exactly here, and then these bytes in the buffer. */
  lemma BlkReadIsDriverRead(l: BlkDriver.Layout, r: Ram, disk: Disk, req: BlkDriver.Req)
    requires BlkDriver.Good(l, r, req) && !req.isWrite
    ensures var o, want := BlkDriver.Direct(r, disk, req), BlkRead(disk, req.sector, req.len);
            && (o.status == OK <==> want.Some?)
            && (want.Some? ==> Read(o.ram, req.buf, req.len) == want.value)
  {
    hide Write, Read, ByteOffset;
    var want := BlkRead(disk, req.sector, req.len);
    if want.Some? {
      ReadOther(Write(r, req.buf, want.value), req.status, [OK], req.buf, req.len);
      ReadSame(r, req.buf, want.value);
    }
  }

  datatype Opened = Opened(fs: Fs) | Failed(status: nat)

  function OpenFat32(disk: Disk, firstSector: U64): Opened {
    match BlkRead(disk, firstSector, 512)
    case None => Failed(FAT_IO_ERROR)
    case Some(b) =>
      if U16At(b, 11) != 512 then Failed(INVALID_FAT_SECTOR_SIZE)
      else if b[13] == 0 then Failed(INVALID_FAT_CLUSTER_SIZE)
      else
        var reserved := U16At(b, 14);
        Opened(Fs(firstSector, b[13], reserved, (reserved + b[16] * U32At(b, 36)) % M32, U32At(b, 44)))
  }

  // ---- addresses ----

  /** The first sector of a cluster, in 32-bit arithmetic. */
  function ClusterToLba(fs: Fs, cluster: U32): U32 {
    (fs.dataStart + (cluster - 2) % M32 * fs.spc) % M32
  }

  function ReadCluster(disk: Disk, fs: Fs, cluster: U32, len: U32): (o: Option<seq<Byte>>)
    ensures o.Some? ==> |o.value| == len
  {
    BlkRead(disk, (fs.firstSector + ClusterToLba(fs, cluster)) % M64, len)
  }

  lemma EntryFits(cluster: U32)
    ensures cluster * 4 % M32 % 512 <= 508
  {
    var k := cluster % 0x4000_0000;
    DivUnique(cluster * 4, M32, cluster / 0x4000_0000, 4 * k);
    DivUnique(4 * k, 512, k / 128, 4 * (k % 128));
  }

  /** The next cluster according to the FAT; its top four bits are not part of the number. */
  function FatEntry(disk: Disk, fs: Fs, cluster: U32): Option<U32> {
    var at := cluster * 4 % M32;
    EntryFits(cluster);
    match BlkRead(disk, (fs.firstSector + (fs.reserved + at / 512)) % M64, 512)
    case None => None
    case Some(sector) => Some(U32At(sector, at % 512) % 0x1000_0000)
  }

  /** Where nothing wraps, cluster numbers map to consecutive cluster-sized runs of sectors. */
  lemma ClusterToLbaExact(fs: Fs, cluster: U32)
    ensures var lba: int := fs.dataStart + (cluster - 2) * fs.spc;
            ClusterToLba(fs, cluster) == lba <==> 0 <= lba < M32
  {
    var lba: int := fs.dataStart + (cluster - 2) * fs.spc;
    if cluster < 2 {
      ShiftedBy(cluster - 2, fs.spc);
      ModShift(lba, fs.spc, M32);
    } else {
      assert (cluster - 2) % M32 == cluster - 2;
    }
    OwnRemainder(lba);
  }

  lemma ShiftedBy(x: int, n: nat)
    requires -M32 <= x < 0
    ensures x % M32 * n == x * n + n * M32
  {
    assert x % M32 == x + M32;
    assert (x + M32) * n == x * n + M32 * n;
  }

  lemma OwnRemainder(x: int)
    ensures x % M32 == x <==> 0 <= x < M32
  {
  }

  /** With 128 sectors to a cluster, cluster 2^25 + 2 lands on the sectors of cluster 2. */
  lemma ClusterWraps(fs: Fs)
    requires fs.spc == 128
    ensures ClusterToLba(fs, 0x200_0002) == ClusterToLba(fs, 2)
    ensures ClusterToLba(fs, 0x200_0002) != fs.dataStart + (0x200_0002 - 2) * fs.spc
  {
  }

  /** An opened volume has clusters of at least one sector, the first right behind its FATs. */
  lemma OpenedVolume(disk: Disk, firstSector: U64)
    requires OpenFat32(disk, firstSector).Opened?
    ensures var b, fs := BlkRead(disk, firstSector, 512), OpenFat32(disk, firstSector).fs;
            && b.Some? && fs.spc > 0 && 512 <= fs.Size()
            && ClusterToLba(fs, 2) == (U16At(b.value, 14) + b.value[16] * U32At(b.value, 36)) % M32
  {
    hide BlkRead, U16At, U32At, ClusterToLba;
    FirstCluster(OpenFat32(disk, firstSector).fs);
  }

  /** The boot sector as a volume carries it, field by field. */
  datatype BootSector = BootSector(lead: seq<Byte>, bytesPerSector: U16, spc: Byte, reserved: U16, fats: Byte,
                                   media: seq<Byte>, fatSize: U32, flags: seq<Byte>, root: U32, rest: seq<Byte>) {
    predicate Whole() { |lead| == 11 && |media| == 19 && |flags| == 4 && |rest| == 464 }

    function Laid(): (s: seq<Byte>)
      requires Whole()
      ensures |s| == 512
    {
      lead + ToLe(bytesPerSector, 2) + [spc] + ToLe(reserved, 2) + [fats] + media + ToLe(fatSize, 4) + flags
      + ToLe(root, 4) + rest
    }
  }

  /** Without a boot sector on the disk there is no volume. */
  lemma OpenNeedsDisk(disk: Disk, firstSector: U64)
    requires firstSector * 512 < 0x8000_0000_0000_0000 && firstSector * 512 + 512 > |disk.data|
    ensures OpenFat32(disk, firstSector) == Failed(4)
  {
    hide BlkRead, U16At, U32At;
    BlkReadOnDisk(disk, firstSector, 512);
  }

  /** Opening a volume recovers the numbers of its boot sector, or refuses two of them. */
  lemma OpenReadsBack(disk: Disk, firstSector: U64, boot: BootSector)
    requires firstSector * 512 + 512 <= |disk.data| <= 0x8000_0000_0000_0000 && boot.Whole()
    requires disk.data[firstSector * 512..firstSector * 512 + 512] == boot.Laid()
    ensures OpenFat32(disk, firstSector) ==
            if boot.bytesPerSector != 512 then Failed(7)
            else if boot.spc == 0 then Failed(8)
            else Opened(Fs(firstSector, boot.spc, boot.reserved,
                           (boot.reserved + boot.fats * boot.fatSize) % 0x1_0000_0000, boot.root))
  {
    hide BlkRead, FromLe, ToLe;
    BlkReadOnDisk(disk, firstSector, 512);
    var b := boot.Laid();
    WidthBounds();
    assert b[11..13] == ToLe(boot.bytesPerSector, 2);
    FromToLe(boot.bytesPerSector, 2);
    assert b[14..16] == ToLe(boot.reserved, 2);
    FromToLe(boot.reserved, 2);
    assert b[36..40] == ToLe(boot.fatSize, 4);
    FromToLe(boot.fatSize, 4);
    assert b[44..48] == ToLe(boot.root, 4);
    FromToLe(boot.root, 4);
  }

  lemma FirstCluster(fs: Fs)
    ensures ClusterToLba(fs, 2) == fs.dataStart
  {
  }

  // ---- the chain ----

  /** The cluster after `c`; nothing at the end of the chain or when the FAT cannot be read. */
  function Next(disk: Disk, fs: Fs, c: U32): Option<U32> {
    match FatEntry(disk, fs, c)
    case Some(v) => if v < END_OF_CHAIN then Some(v) else None
    case None => None
  }

  /** The chain from `c` has at least `m` clusters. */
  predicate Reaches(disk: Disk, fs: Fs, c: U32, m: nat)
    decreases m
  {
    m <= 1 || (Next(disk, fs, c).Some? && Reaches(disk, fs, Next(disk, fs, c).value, m - 1))
  }

  /** The first `m` clusters of the chain exist and can be read in full. */
  predicate Whole(disk: Disk, fs: Fs, c: U32, m: nat)
    decreases m
  {
    m == 0 || (
      && ReadCluster(disk, fs, c, fs.Size()).Some?
      && (m > 1 ==> Next(disk, fs, c).Some? && Whole(disk, fs, Next(disk, fs, c).value, m - 1)))
  }

  /** The first `m` clusters, joined. */
  function Joined(disk: Disk, fs: Fs, c: U32, m: nat): (s: seq<Byte>)
    requires Whole(disk, fs, c, m)
    ensures |s| == m * fs.Size()
    decreases m
  {
    hide ReadCluster, Next, Fs.Size;
    if m == 0 then []
    else
      MulSucc(m - 1, fs.Size());
      var here := ReadCluster(disk, fs, c, fs.Size()).value;
      if m == 1 then here else here + Joined(disk, fs, Next(disk, fs, c).value, m - 1)
  }

  // ---- reading a file ----

  function RoundUp(n: nat): nat {
    (n + 511) / 512 * 512
  }

  lemma RoundUpAtLeast(n: nat)
    ensures n <= RoundUp(n)
  {
  }

  /** Rounding a share of a cluster up to whole sectors stays inside the cluster. */
  lemma RoundUpFits(fs: Fs, n: nat)
    requires n <= fs.Size()
    ensures n <= RoundUp(n) <= fs.Size() < M32
  {
  }

  /** The first `n` bytes along the chain, or nothing if a read fails or the chain ends first. */
  function FileBytes(disk: Disk, fs: Fs, c: U32, n: nat): (o: Option<seq<Byte>>)
    requires fs.spc > 0
    ensures o.Some? ==> |o.value| == n
    decreases n
  {
    if n == 0 then Some([]) else
      var take := Min(n, fs.Size());
      RoundUpFits(fs, take);
      match ReadCluster(disk, fs, c, RoundUp(take))
      case None => None
      case Some(bytes) =>
        if take == n then Some(bytes[..n])
        else
          match Next(disk, fs, c)
          case None => None
          case Some(next) =>
            match FileBytes(disk, fs, next, n - take)
            case None => None
            case Some(rest) => Some(bytes[..take] + rest)
  }

  lemma ReadPrefix(disk: Disk, fs: Fs, c: U32, len: U32, n: U32)
    requires n <= len && ReadCluster(disk, fs, c, len).Some?
    ensures ReadCluster(disk, fs, c, n).Some?
    ensures ReadCluster(disk, fs, c, n).value == ReadCluster(disk, fs, c, len).value[..n]
  {
  }

  lemma OneClusterIn(m: nat, size: nat, n: nat)
    requires size < n <= m * size
    ensures m > 1 && n - size <= (m - 1) * size
  {
    if m > 0 {
      MulSucc(m - 1, size);
    }
  }

  /** When the chain is long enough, the result is the front of the joined clusters. */
  lemma {:induction false} FileIsChainPrefix(disk: Disk, fs: Fs, c: U32, m: nat, n: nat)
    requires fs.spc > 0 && Whole(disk, fs, c, m) && n <= m * fs.Size()
    ensures FileBytes(disk, fs, c, n) == Some(Joined(disk, fs, c, m)[..n])
    decreases m
  {
    hide ReadCluster, Next, RoundUp, FileBytes, Fs.Size, Prepend;
    var size := fs.Size();
    if n == 0 {
      FileNothing(disk, fs, c);
    } else {
      FileStep(disk, fs, c, n);
      var take := Min(n, size);
      RoundUpFits(fs, take);
      var here := ReadCluster(disk, fs, c, size).value;
      ReadPrefix(disk, fs, c, size, RoundUp(take));
      assert here[..RoundUp(take)][..take] == here[..take];
      if take < n {
        OneClusterIn(m, size, n);
        var next := Next(disk, fs, c).value;
        FileIsChainPrefix(disk, fs, next, m - 1, n - size);
        var later := Joined(disk, fs, next, m - 1);
        PrependFacts(here, FileBytes(disk, fs, next, n - size));
        assert (here + later)[..n] == here + later[..n - size];
        assert here[..take] == here;
      } else {
        assert Joined(disk, fs, c, m)[..n] == here[..n];
      }
    }
  }

  lemma OneClusterLess(m: nat, size: nat, n: nat)
    requires m > 1 && (m - 1) * size < n
    ensures size < n && (m - 1 - 1) * size < n - size
  {
    MulSucc(m - 2, size);
    assert (m - 2) * size >= 0;
  }

  /** When the chain ends before the file does, the result is an error. */
  lemma {:induction false} ShortChainFails(disk: Disk, fs: Fs, c: U32, m: nat, n: nat)
    requires fs.spc > 0 && !Reaches(disk, fs, c, m) && (m - 1) * fs.Size() < n
    ensures FileBytes(disk, fs, c, n) == None
    decreases m
  {
    hide ReadCluster, Next, RoundUp, FileBytes, Fs.Size;
    var size := fs.Size();
    OneClusterLess(m, size, n);
    FileStep(disk, fs, c, n);
    if Next(disk, fs, c).Some? {
      ShortChainFails(disk, fs, Next(disk, fs, c).value, m - 1, n - size);
    }
  }

  // ---- the volume in the disk's own bytes ----

  /** The byte of the disk where the FAT's entry for `c` starts: four bytes each, from cluster 0 on. */
  function EntryAt(fs: Fs, c: nat): nat {
    (fs.firstSector + fs.reserved) * 512 + 4 * c
  }

  /** The byte of the disk where cluster `c` starts; the first one is number 2. */
  function DataAt(fs: Fs, c: nat): int {
    (fs.firstSector + fs.dataStart + (c - 2) * fs.spc) * 512
  }

  /** The sector that holds the entry for `c` is on the disk. */
  predicate EntryOnDisk(disk: Disk, fs: Fs, c: nat) {
    EntryAt(fs, c) / 512 * 512 + 512 <= |disk.data|
  }

  /** What that entry says: the next cluster, in the low 28 of its 32 bits. */
  function Link(disk: Disk, fs: Fs, c: nat): U32
    requires EntryOnDisk(disk, fs, c)
  {
    EntryInSector(fs, c);
    FromLe(disk.data[EntryAt(fs, c)..EntryAt(fs, c) + 4]) % 0x1000_0000
  }

  lemma EntryInSector(fs: Fs, c: nat)
    ensures EntryAt(fs, c) + 4 <= EntryAt(fs, c) / 512 * 512 + 512
    ensures EntryAt(fs, c) / 512 == fs.firstSector + fs.reserved + c / 128
    ensures EntryAt(fs, c) % 512 == 4 * (c % 128)
  {
    DivUnique(EntryAt(fs, c), 512, fs.firstSector + fs.reserved + c / 128, 4 * (c % 128));
  }

  /** Below 2^55 a sector number is scaled without loss, and the read is of the disk's own bytes. */
  lemma BlkReadOnDisk(disk: Disk, sector: U64, len: U32)
    requires sector * 512 < 0x8000_0000_0000_0000 && len > 0
    ensures BlkRead(disk, sector, len) == if sector * 512 + len <= |disk.data|
                                          then Some(disk.data[sector * 512..sector * 512 + len]) else None
  {
  }

  /**
    Reading the FAT, for every cluster number: the byte offset of an entry is a 32-bit number,
    so cluster c has the entry of c mod 2^30.  There is one exactly if its sector is on the disk.
   */
  lemma FatEntryOnDisk(disk: Disk, fs: Fs, c: U32)
    requires EntryAt(fs, c % 0x4000_0000) < 0x8000_0000_0000_0000
    ensures var k := c % 0x4000_0000;
            FatEntry(disk, fs, c) == if EntryOnDisk(disk, fs, k) then Some(Link(disk, fs, k)) else None
  {
    hide BlkRead, FromLe;
    var k := c % 0x4000_0000;
    DivUnique(c * 4, M32, c / 0x4000_0000, 4 * k);
    DivUnique(4 * k, 512, k / 128, 4 * (k % 128));
    EntryInSector(fs, k);
    EntryFits(c);
    var sector := fs.firstSector + fs.reserved + k / 128;
    BlkReadOnDisk(disk, sector, 512);
    if EntryOnDisk(disk, fs, k) {
      SliceSlice(disk.data, sector * 512, sector * 512 + 512, 4 * (k % 128), 4);
    }
  }

  /** All of cluster `c` lies on the disk, at a sector number of 32 bits. */
  predicate DataOnDisk(disk: Disk, fs: Fs, c: U32) {
    && 0 <= fs.dataStart + (c - 2) * fs.spc < M32
    && DataAt(fs, c) + fs.Size() <= |disk.data| <= 0x8000_0000_0000_0000
  }

  function OwnBytes(disk: Disk, fs: Fs, c: U32): (s: seq<Byte>)
    requires DataOnDisk(disk, fs, c)
    ensures |s| == fs.Size()
  {
    disk.data[DataAt(fs, c)..DataAt(fs, c) + fs.Size()]
  }

  /** The sector the reader computes for such a cluster is the one it starts at. */
  lemma ClusterAddress(disk: Disk, fs: Fs, c: U32)
    requires DataOnDisk(disk, fs, c)
    ensures DataAt(fs, c) == (fs.firstSector + ClusterToLba(fs, c)) * 512
    ensures DataAt(fs, c) + fs.Size() <= |disk.data| <= 0x8000_0000_0000_0000
  {
    hide ClusterToLba;
    ClusterToLbaExact(fs, c);
  }

  lemma ReadClusterOnDisk(disk: Disk, fs: Fs, c: U32)
    requires fs.spc > 0 && DataOnDisk(disk, fs, c)
    ensures ReadCluster(disk, fs, c, fs.Size()) == Some(OwnBytes(disk, fs, c))
  {
    hide BlkRead, ClusterToLba, DataAt, DataOnDisk;
    ClusterAddress(disk, fs, c);
    BlkReadOnDisk(disk, fs.firstSector + ClusterToLba(fs, c), fs.Size());
  }

  /**
    `cs` is a chain on the disk: every cluster lies there whole, and the entry of each but the
    last names the next one.  It may come back to a cluster it has been to.
   */
  predicate Chained(disk: Disk, fs: Fs, cs: seq<U32>) {
    && cs != [] && DataOnDisk(disk, fs, cs[0])
    && (|cs| > 1 ==>
          && cs[0] < 0x4000_0000 && EntryOnDisk(disk, fs, cs[0])
          && Link(disk, fs, cs[0]) == cs[1] < 0x0FFF_FFF8 && Chained(disk, fs, cs[1..]))
  }

  /** The entry of the last cluster marks the end. */
  predicate Ended(disk: Disk, fs: Fs, cs: seq<U32>) {
    && cs != [] && var last := cs[|cs| - 1];
    && last < 0x4000_0000 && EntryOnDisk(disk, fs, last) && Link(disk, fs, last) >= 0x0FFF_FFF8
  }

  /** The bytes of the clusters, joined. */
  function ClusterBytes(disk: Disk, fs: Fs, cs: seq<U32>): seq<Byte>
    requires Chained(disk, fs, cs)
  {
    OwnBytes(disk, fs, cs[0]) + if |cs| == 1 then [] else ClusterBytes(disk, fs, cs[1..])
  }

  lemma NextOnDisk(disk: Disk, fs: Fs, c: U32)
    requires c < 0x4000_0000 && EntryOnDisk(disk, fs, c) && |disk.data| <= 0x8000_0000_0000_0000
    ensures FatEntry(disk, fs, c) == Some(Link(disk, fs, c))
    ensures Next(disk, fs, c) == if Link(disk, fs, c) < 0x0FFF_FFF8 then Some(Link(disk, fs, c)) else None
  {
    hide FatEntry, FromLe;
    EntryInSector(fs, c);
    FatEntryOnDisk(disk, fs, c);
  }

  /** The reader follows a chain on the disk and reads its clusters. */
  lemma {:induction false} ChainIsRead(disk: Disk, fs: Fs, cs: seq<U32>)
    requires fs.spc > 0 && Chained(disk, fs, cs)
    ensures Whole(disk, fs, cs[0], |cs|) && Joined(disk, fs, cs[0], |cs|) == ClusterBytes(disk, fs, cs)
    ensures Ended(disk, fs, cs) ==> !Reaches(disk, fs, cs[0], |cs| + 1)
    decreases |cs|
  {
    hide ReadCluster, Next, Link, EntryOnDisk, OwnBytes, DataOnDisk;
    OnDisk(disk, fs, cs[0]);
    ReadClusterOnDisk(disk, fs, cs[0]);
    if |cs| > 1 {
      NextOnDisk(disk, fs, cs[0]);
      ChainIsRead(disk, fs, cs[1..]);
    } else if Ended(disk, fs, cs) {
      NextOnDisk(disk, fs, cs[0]);
    }
  }

  lemma OnDisk(disk: Disk, fs: Fs, c: U32)
    requires DataOnDisk(disk, fs, c)
    ensures |disk.data| <= 0x8000_0000_0000_0000
  {
  }

  /**
    A file on the disk: along a chain of clusters that ends, the first `n` bytes are the front
    of the clusters' own bytes, and there are none to be had beyond them.
   */
  lemma FileOnDisk(disk: Disk, fs: Fs, cs: seq<U32>, n: nat)
    requires fs.spc > 0 && Chained(disk, fs, cs)
    ensures |ClusterBytes(disk, fs, cs)| == |cs| * fs.Size()
    ensures n <= |cs| * fs.Size() ==> FileBytes(disk, fs, cs[0], n) == Some(ClusterBytes(disk, fs, cs)[..n])
    ensures n > |cs| * fs.Size() && Ended(disk, fs, cs) ==> FileBytes(disk, fs, cs[0], n) == None
  {
    hide Whole, Joined, Reaches, FileBytes, ClusterBytes, Ended, Fs.Size, DataOnDisk, Link;
    ChainIsRead(disk, fs, cs);
    if n <= |cs| * fs.Size() {
      FileIsChainPrefix(disk, fs, cs[0], |cs|, n);
    } else if Ended(disk, fs, cs) {
      ShortChainFails(disk, fs, cs[0], |cs| + 1, n);
    }
  }

  // ---- the loop ----

  /**
    Reads a file into `buf`.  The loop ends on every FAT, cyclic ones included; each read
    stays inside one cluster.  The last read is rounded up to whole sectors: up to the next
    multiple of 512 the buffer holds what follows in the chain, and nothing beyond is touched.
    Status 0 is success, 4 an I/O error, 11 the refusal of a directory.
   */
  method ReadFile(disk: Disk, fs: Fs, attr: Byte, firstCluster: U32, fileSize: U32, buf: array<Byte>, bufSize: U32)
    returns (status: nat)
    requires fs.spc > 0
    requires attr / 16 % 2 == 0 ==> RoundUp(Min(fileSize, bufSize)) <= buf.Length
    modifies buf
    ensures attr / 16 % 2 == 1 ==> status == 11 && buf[..] == old(buf[..])
    ensures attr / 16 % 2 == 0 ==>
              var n := Min(fileSize, bufSize);
              && buf[RoundUp(n)..] == old(buf[RoundUp(n)..])
              && match FileBytes(disk, fs, firstCluster, n)
                 case Some(bytes) =>
                   && status == 0 && RoundUp(n) >= n && buf[..n] == bytes
                   && Some(buf[..RoundUp(n)]) == FileBytes(disk, fs, firstCluster, RoundUp(n))
                 case None => status == 4
  {
    hide FileBytes, RoundUp;
    if attr / 16 % 2 == 1 {
      return NOT_A_FILE;
    }
    var remaining := fileSize;
    if remaining > bufSize {
      remaining := bufSize;
    }
    status := ReadChain(disk, fs, firstCluster, remaining, buf);
    RoundUpAtLeast(remaining);
    FileRounds(disk, fs, firstCluster, remaining);
    assert buf[..RoundUp(remaining)][..remaining] == buf[..remaining];
  }

  /** Bytes past the caller's buffer size are written exactly when the last sector runs past it. */
  lemma OverrunIff(fileSize: U32, bufSize: U32)
    ensures var n := Min(fileSize, bufSize);
            RoundUp(n) > bufSize <==> n % 512 != 0 && n / 512 == bufSize / 512
    ensures fileSize >= bufSize ==> (RoundUp(Min(fileSize, bufSize)) > bufSize <==> bufSize % 512 != 0)
  {
  }

  method ReadChain(disk: Disk, fs: Fs, firstCluster: U32, n: U32, buf: array<Byte>) returns (status: nat)
    requires fs.spc > 0 && RoundUp(n) <= buf.Length
    modifies buf
    ensures var goal := FileBytes(disk, fs, firstCluster, RoundUp(n));
            && status == (if goal.Some? then SUCCESS else FAT_IO_ERROR)
            && (goal.Some? ==> buf[..RoundUp(n)] == goal.value)
            && buf[RoundUp(n)..] == old(buf[RoundUp(n)..])
  {
    hide ReadCluster, FatEntry, FileBytes, RoundUp, Prepend, Fs.Size;
    RoundUpAtLeast(n);
    RoundUpNothing();
    var cluster: U32, remaining: U32, offset: nat := firstCluster, n, 0;
    ghost var k, end, was := 0, RoundUp(n), buf[..];
    ghost var goal := FileBytes(disk, fs, firstCluster, end);
    PrependNothing(buf[..0], goal);
    while remaining > 0
      invariant offset + remaining == n
      invariant remaining > 0 ==> offset == k * fs.Size()
      invariant remaining == 0 ==> offset == end
      invariant goal == Prepend(buf[..offset], FileBytes(disk, fs, cluster, RoundUp(remaining)))
      invariant buf[end..] == was[end..]
      decreases remaining
    {
      var toRead := Min(remaining, fs.Size());
      RoundUpFits(fs, toRead);
      RoundedStep(disk, fs, cluster, remaining);
      var got := ReadCluster(disk, fs, cluster, RoundUp(toRead));
      ghost var before := buf[..];
      PrependFacts(before[..offset], FileBytes(disk, fs, cluster, RoundUp(remaining)));
      if got.None? {
        return FAT_IO_ERROR;
      }
      RoundUpRest(fs, offset, k, remaining);
      CopyInto(buf, offset, got.value);
      CopyEnds(before, buf[..], offset, got.value, toRead, end);
      CopyEnds(before, buf[..], offset, got.value, |got.value|, end);
      offset := offset + toRead;
      remaining := remaining - toRead;
      if remaining == 0 {
        assert got.value[..|got.value|] == got.value;
        return SUCCESS;
      }
      var next := FatEntry(disk, fs, cluster);
      if next.None? {
        return FAT_IO_ERROR;
      }
      if next.value >= END_OF_CHAIN {
        return FAT_IO_ERROR;
      }
      PrependTwice(before[..offset - toRead], got.value[..toRead], FileBytes(disk, fs, next.value, RoundUp(remaining)));
      cluster := next.value;
      MulSucc(k, fs.Size());
      k := k + 1;
    }
    FileNothing(disk, fs, cluster);
    PrependFacts(buf[..offset], Some([]));
    assert buf[..end] + [] == buf[..end];
    return SUCCESS;
  }

  lemma RoundUpNothing()
    ensures RoundUp(0) == 0
  {
  }

  /** One step of reading whole sectors: all but the last step take a full cluster. */
  lemma RoundedStep(disk: Disk, fs: Fs, c: U32, n: nat)
    requires fs.spc > 0 && n > 0
    ensures var take := Min(n, fs.Size());
            && RoundUp(take) < M32
            && var got := ReadCluster(disk, fs, c, RoundUp(take));
            FileBytes(disk, fs, c, RoundUp(n)) ==
              if got.None? then None
              else if take == n then got
              else if Next(disk, fs, c).None? then None
              else Prepend(got.value[..take], FileBytes(disk, fs, Next(disk, fs, c).value, RoundUp(n - take)))
  {
    hide ReadCluster, Next, FileBytes, RoundUp, Prepend;
    var size := fs.Size();
    RoundUpFits(fs, Min(n, size));
    RoundUpAtLeast(n);
    RoundUpAgain(n);
    FileStep(disk, fs, c, RoundUp(n));
    if n <= size {
      var got := ReadCluster(disk, fs, c, RoundUp(n));
      assert got.Some? ==> got.value[..RoundUp(n)] == got.value;
    } else {
      WholeClusterRounds(fs, n);
    }
  }

  lemma RoundUpAgain(n: nat)
    ensures RoundUp(RoundUp(n)) == RoundUp(n)
  {
  }

  lemma WholeClusterRounds(fs: Fs, n: nat)
    requires n > fs.Size()
    ensures RoundUp(fs.Size()) == fs.Size() && RoundUp(n) > fs.Size()
    ensures RoundUp(n) - fs.Size() == RoundUp(n - fs.Size())
  {
    RoundUpShift(fs.spc, n - fs.Size());
  }

  /** A file's bytes are the front of its whole sectors, and neither can be read without the other. */
  lemma {:induction false} FileRounds(disk: Disk, fs: Fs, c: U32, n: nat)
    requires fs.spc > 0
    ensures n <= RoundUp(n)
    ensures var all := FileBytes(disk, fs, c, RoundUp(n));
            FileBytes(disk, fs, c, n) == if all.Some? then Some(all.value[..n]) else None
    decreases n
  {
    hide ReadCluster, Next, FileBytes, RoundUp, Prepend;
    RoundUpAtLeast(n);
    RoundUpNothing();
    if n == 0 {
      FileNothing(disk, fs, c);
    } else {
      FileStep(disk, fs, c, n);
      RoundedStep(disk, fs, c, n);
      var take := Min(n, fs.Size());
      RoundUpFits(fs, take);
      if take < n && Next(disk, fs, c).Some? {
        var next, got := Next(disk, fs, c).value, ReadCluster(disk, fs, c, RoundUp(take));
        FileRounds(disk, fs, next, n - take);
        if got.Some? {
          var rest := FileBytes(disk, fs, next, RoundUp(n - take));
          PrependFacts(got.value[..take], rest);
          PrependFacts(got.value[..take], FileBytes(disk, fs, next, n - take));
          if rest.Some? {
            assert (got.value[..take] + rest.value)[..n] == got.value[..take] + rest.value[..n - take];
          }
        }
      }
    }
  }

  lemma CopyEnds(before: seq<Byte>, after: seq<Byte>, at: nat, data: seq<Byte>, n: nat, end: nat)
    requires at + |data| <= end <= |before| && n <= |data|
    requires after == before[..at] + data + before[at + |data|..]
    ensures |after| == |before| && after[..at + n] == before[..at] + data[..n] && after[end..] == before[end..]
  {
  }

  lemma FileStep(disk: Disk, fs: Fs, c: U32, n: nat)
    requires fs.spc > 0 && n > 0
    ensures var take := Min(n, fs.Size());
            && RoundUp(take) < M32
            && var got := ReadCluster(disk, fs, c, RoundUp(take));
            FileBytes(disk, fs, c, n) ==
              if got.None? then None
              else if take == n then Some(got.value[..n])
              else if Next(disk, fs, c).None? then None
              else Prepend(got.value[..take], FileBytes(disk, fs, Next(disk, fs, c).value, n - take))
  {
    hide ReadCluster, Next;
    RoundUpFits(fs, Min(n, fs.Size()));
  }

  lemma FileNothing(disk: Disk, fs: Fs, c: U32)
    requires fs.spc > 0
    ensures FileBytes(disk, fs, c, 0) == Some([])
  {
  }

  lemma PrependFacts(front: seq<Byte>, rest: Option<seq<Byte>>)
    ensures Prepend(front, rest) == if rest.Some? then Some(front + rest.value) else None
  {
  }

  lemma PrependNothing(front: seq<Byte>, rest: Option<seq<Byte>>)
    requires front == []
    ensures Prepend(front, rest) == rest
  {
    if rest.Some? {
      assert [] + rest.value == rest.value;
    }
  }

  lemma PrependTwice(a: seq<Byte>, b: seq<Byte>, rest: Option<seq<Byte>>)
    ensures Prepend(a, Prepend(b, rest)) == Prepend(a + b, rest)
  {
    if rest.Some? {
      assert a + (b + rest.value) == a + b + rest.value;
    }
  }

  function Prepend(front: seq<Byte>, rest: Option<seq<Byte>>): Option<seq<Byte>> {
    if rest.Some? then Some(front + rest.value) else None
  }

  /** A whole number of clusters in, what is left rounds up to the same end of buffer. */
  lemma RoundUpRest(fs: Fs, offset: nat, k: nat, remaining: nat)
    requires fs.spc > 0 && offset == k * fs.Size()
    ensures offset + RoundUp(Min(remaining, fs.Size())) <= RoundUp(offset + remaining)
    ensures remaining <= fs.Size() ==> offset + RoundUp(remaining) == RoundUp(offset + remaining)
  {
    hide RoundUp;
    var t := Min(remaining, fs.Size());
    WholeSectors(fs, k);
    RoundUpShift(k * fs.spc, t);
    RoundUpMonotone(offset + t, offset + remaining);
  }

  lemma WholeSectors(fs: Fs, k: nat)
    ensures k * fs.Size() == k * fs.spc * 512 && k * fs.spc >= 0
  {
    assert k * (fs.spc * 512) == (k * fs.spc) * 512;
  }

  lemma RoundUpShift(m: nat, t: nat)
    ensures RoundUp(m * 512 + t) == m * 512 + RoundUp(t)
  {
    var u := t + 511;
    DivUnique(m * 512 + u, 512, m + u / 512, u % 512);
  }

  lemma RoundUpMonotone(a: nat, b: nat)
    requires a <= b
    ensures RoundUp(a) <= RoundUp(b)
  {
  }
}
