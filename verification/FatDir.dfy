/** Listing a FAT32 directory: one entry per call, across cluster boundaries. */
module FatDir {
  import opened Arith
  import opened Bytes
  import opened Virtqueue
  import opened BlkDevice
  import opened Fat32

  const ENTRY := 32

  /** A 32-byte directory entry. */
  type Entry = e: seq<Byte> | |e| == ENTRY witness Zeros(ENTRY)

  function Entries(bytes: seq<Byte>): (es: seq<Entry>)
    ensures |es| == |bytes| / ENTRY
  {
    seq(|bytes| / ENTRY, i requires 0 <= i < |bytes| / ENTRY => bytes[i * ENTRY..(i + 1) * ENTRY])
  }

  /**
    The test for a deleted entry compares the first name byte, a plain `char`, with 0xE5.
    Where `char` is signed that byte is never equal to 229.
   */
  predicate TestsDeleted(e: Entry, charSigned: bool) {
    var c: int := e[0];
    (if charSigned && c >= 128 then c - 256 else c) == 0xE5
  }

  predicate Skipped(e: Entry, charSigned: bool) {
    TestsDeleted(e, charSigned) || e[11] == 0x0F
  }

  /** The entries a listing shows: those before the first zero name byte that are not skipped. */
  function Visible(es: seq<Entry>, charSigned: bool): seq<Entry> {
    if es == [] || es[0][0] == 0 then []
    else if Skipped(es[0], charSigned) then Visible(es[1..], charSigned)
    else [es[0]] + Visible(es[1..], charSigned)
  }

  /** The status that ends the listing: the end marker wins over whatever stops the chain. */
  function Final(es: seq<Entry>, stop: nat): nat {
    if es == [] then stop else if es[0][0] == 0 then END_OF_DIR else Final(es[1..], stop)
  }

  // ---- the directory's chain ----

  /** What lies beyond a cluster: the next one, loaded, or the status that stops the walk. */
  datatype Beyond = On(cluster: U32, bytes: seq<Byte>) | Stop(status: nat)

  function Follow(disk: Disk, fs: Fs, c: U32): (b: Beyond)
    ensures b.On? ==> |b.bytes| == fs.Size()
    ensures b.Stop? ==> b.status == END_OF_DIR || b.status == FAT_IO_ERROR
  {
    match FatEntry(disk, fs, c)
    case None => Stop(FAT_IO_ERROR)
    case Some(v) =>
      if v >= END_OF_CHAIN then Stop(END_OF_DIR)
      else
        match ReadCluster(disk, fs, v, fs.Size())
        case None => Stop(FAT_IO_ERROR)
        case Some(bytes) => On(v, bytes)
  }

  /** Some entry is the end marker. */
  predicate HasEnd(es: seq<Entry>) {
    exists i :: 0 <= i < |es| && es[i][0] == 0
  }

  /**
    Of the clusters beyond `c` a listing looks at exactly `n`: the chain stops there, or the
    last of them holds the end marker.  Behind that the chain may well be cyclic.
   */
  predicate StopsAfter(disk: Disk, fs: Fs, c: U32, n: nat)
    decreases n
  {
    match Follow(disk, fs, c)
    case Stop(_) => n == 0
    case On(next, bytes) => n > 0 && if HasEnd(Entries(bytes)) then n == 1 else StopsAfter(disk, fs, next, n - 1)
  }

  /** The entries of those clusters, joined. */
  function EntriesBeyond(disk: Disk, fs: Fs, c: U32, n: nat): seq<Entry>
    requires StopsAfter(disk, fs, c, n)
    decreases n
  {
    match Follow(disk, fs, c)
    case Stop(_) => []
    case On(next, bytes) =>
      if HasEnd(Entries(bytes)) then Entries(bytes) else Entries(bytes) + EntriesBeyond(disk, fs, next, n - 1)
  }

  function StopStatus(disk: Disk, fs: Fs, c: U32, n: nat): nat
    requires StopsAfter(disk, fs, c, n)
    decreases n
  {
    match Follow(disk, fs, c)
    case Stop(status) => status
    case On(next, bytes) => if HasEnd(Entries(bytes)) then END_OF_DIR else StopStatus(disk, fs, next, n - 1)
  }

  // ---- the listing from a place in it ----

  /** From `here`, the rest of cluster `c`, a listing looks at exactly `n` clusters more. */
  predicate ListingEnds(disk: Disk, fs: Fs, here: seq<Entry>, c: U32, n: nat) {
    if HasEnd(here) then n == 0 else StopsAfter(disk, fs, c, n)
  }

  function EntriesAhead(disk: Disk, fs: Fs, here: seq<Entry>, c: U32, n: nat): seq<Entry>
    requires ListingEnds(disk, fs, here, c, n)
  {
    if HasEnd(here) then here else here + EntriesBeyond(disk, fs, c, n)
  }

  function EndStatus(disk: Disk, fs: Fs, here: seq<Entry>, c: U32, n: nat): nat
    requires ListingEnds(disk, fs, here, c, n)
  {
    if HasEnd(here) then END_OF_DIR else StopStatus(disk, fs, c, n)
  }

  // ---- one call ----

  /** What a call returns, and where it leaves the reader. */
  datatype Scanned = Scanned(status: nat, entry: Option<Entry>, rest: seq<Entry>, cluster: U32)

  /**
    The first entry to show from `here`, the rest of cluster `c`, on, or the status that ends
    the search; nothing if that takes more than `fuel` further clusters.
   */
  function Scan(disk: Disk, fs: Fs, charSigned: bool, here: seq<Entry>, c: U32, fuel: nat): Option<Scanned>
    decreases fuel, |here|
  {
    if here == [] then
      match Follow(disk, fs, c)
      case Stop(status) => Some(Scanned(status, None, [], c))
      case On(next, bytes) =>
        if fuel == 0 then None else Scan(disk, fs, charSigned, Entries(bytes), next, fuel - 1)
    else if here[0][0] == 0 then Some(Scanned(END_OF_DIR, None, here[1..], c))
    else if Skipped(here[0], charSigned) then Scan(disk, fs, charSigned, here[1..], c, fuel)
    else Some(Scanned(SUCCESS, Some(here[0]), here[1..], c))
  }

  // ---- the cursor ----

  class DirReader {
    const disk: Disk
    const fs: Fs
    const charSigned: bool
    const clusterBuf: array<Byte>
    var currentCluster: U32
    var entryIndex: nat

    predicate Fits()
      reads this
    {
      fs.spc > 0 && fs.Size() <= clusterBuf.Length && entryIndex <= fs.Size() / ENTRY
    }

    /** What is left of the loaded cluster. */
    ghost function Here(): seq<Entry>
      requires Fits()
      reads this, clusterBuf
    {
      Entries(clusterBuf[..fs.Size()])[entryIndex..]
    }

    constructor (disk: Disk, fs: Fs, charSigned: bool, capacity: nat)
      ensures this.disk == disk && this.fs == fs && this.charSigned == charSigned
      ensures clusterBuf.Length == capacity && fresh(clusterBuf)
    {
      this.disk, this.fs, this.charSigned := disk, fs, charSigned;
      clusterBuf := new Byte[capacity](_ => 0);
      currentCluster, entryIndex := 0, 0;
    }

    /** Loads any cluster and starts at its first entry. */
    method LoadCluster(c: U32) returns (status: nat)
      requires fs.spc > 0 && fs.Size() <= clusterBuf.Length
      modifies this, clusterBuf
      ensures match ReadCluster(disk, fs, c, fs.Size())
              case Some(bytes) =>
                && status == SUCCESS && currentCluster == c && entryIndex == 0
                && Fits() && Here() == Entries(bytes)
              case None => status == FAT_IO_ERROR && unchanged(this) && unchanged(clusterBuf)
    {
      hide ReadCluster, Entries;
      var got := ReadCluster(disk, fs, c, fs.Size());
      if got.None? {
        return FAT_IO_ERROR;
      }
      CopyInto(clusterBuf, 0, got.value);
      assert clusterBuf[..fs.Size()] == got.value;
      currentCluster := c;
      entryIndex := 0;
      assert Entries(got.value)[0..] == Entries(got.value);
      return SUCCESS;
    }

    /** The next entry to show, in whichever cluster it lies, on every chain on which the search ends. */
    method NextDirEntry(ghost fuel: nat) returns (status: nat, entry: Option<Entry>)
      requires Fits() && Scan(disk, fs, charSigned, Here(), currentCluster, fuel).Some?
      modifies this, clusterBuf
      ensures Fits()
      ensures Some(Scanned(status, entry, Here(), currentCluster))
           == old(Scan(disk, fs, charSigned, Here(), currentCluster, fuel))
    {
      hide ReadCluster, FatEntry, Skipped, Entries;
      ghost var goal, left := Scan(disk, fs, charSigned, Here(), currentCluster, fuel), fuel;
      while true
        invariant Fits() && Scan(disk, fs, charSigned, Here(), currentCluster, left) == goal
        decreases left, fs.Size() / ENTRY - entryIndex
      {
        if entryIndex < fs.Size() / ENTRY {
          ghost var here := Here();
          var e := clusterBuf[entryIndex * ENTRY..(entryIndex + 1) * ENTRY];
          assert clusterBuf[..fs.Size()][entryIndex * ENTRY..(entryIndex + 1) * ENTRY] == e;
          EntriesFrom(clusterBuf[..fs.Size()], entryIndex);
          entryIndex := entryIndex + 1;
          assert here == [e] + Here() && here[1..] == Here();
          if e[0] == 0 {
            return END_OF_DIR, None;
          }
          if Skipped(e, charSigned) {
            continue;
          }
          return SUCCESS, Some(e);
        }
        NothingHere(clusterBuf[..fs.Size()], entryIndex);
        var next := FatEntry(disk, fs, currentCluster);
        if next.None? {
          return FAT_IO_ERROR, None;
        }
        if next.value >= END_OF_CHAIN {
          return END_OF_DIR, None;
        }
        var st := LoadCluster(next.value);
        if st != SUCCESS {
          return st, None;
        }
        left := left - 1;
      }
    }

    /**
      Calls up to the first status that is not success: exactly the visible entries, in chain
      order; `n` is how many more clusters the listing looks at.
     */
    method ListAll(ghost n: nat) returns (list: seq<Entry>, status: nat)
      requires Fits() && ListingEnds(disk, fs, Here(), currentCluster, n)
      modifies this, clusterBuf
      ensures var ahead := old(EntriesAhead(disk, fs, Here(), currentCluster, n));
              && list == Visible(ahead, charSigned)
              && status == Final(ahead, old(EndStatus(disk, fs, Here(), currentCluster, n)))
    {
      hide Visible, Final, Entries, EntriesAhead, EndStatus, ListingEnds, Scan;
      list := [];
      ghost var k := n;
      ghost var ahead := EntriesAhead(disk, fs, Here(), currentCluster, n);
      ghost var v, fin := Visible(ahead, charSigned), Final(ahead, EndStatus(disk, fs, Here(), currentCluster, n));
      ghost var todo := v;
      while true
        invariant Fits() && ListingEnds(disk, fs, Here(), currentCluster, k)
        invariant todo == Visible(EntriesAhead(disk, fs, Here(), currentCluster, k), charSigned) && list + todo == v
        invariant Final(EntriesAhead(disk, fs, Here(), currentCluster, k),
                        EndStatus(disk, fs, Here(), currentCluster, k)) == fin
        decreases |todo|
      {
        ghost var k' := ScanIsNext(disk, fs, charSigned, Here(), currentCluster, k);
        var st, e := NextDirEntry(k);
        if e.None? {
          return list, st;
        }
        list := list + [e.value];
        todo, k := todo[1..], k';
      }
    }

    /**
      Opens the directory at cluster `c` and lists it.  Where the clusters `cs` on the disk are
      its chain, up to the end of the chain or an end marker, the list is what their own bytes
      show, and the last status is 9, the end of the directory.
     */
    method ListDir(c: U32, ghost cs: seq<U32>) returns (list: seq<Entry>, status: nat)
      requires fs.spc > 0 && fs.Size() <= clusterBuf.Length
      requires Chained(disk, fs, cs) && cs[0] == c
      requires Ended(disk, fs, cs) || HasEnd(Entries(ClusterBytes(disk, fs, cs)))
      modifies this, clusterBuf
      ensures list == Shown(BeforeEnd(Entries(ClusterBytes(disk, fs, cs))), charSigned) && status == 9
    {
      hide Visible, Final, Entries, EntriesAhead, EndStatus, ListingEnds, ReadCluster, ClusterBytes, OwnBytes, Ended,
        HasEnd, DataOnDisk, Link, EntryOnDisk;
      ReadClusterOnDisk(disk, fs, c);
      ghost var n := DirOnDisk(disk, fs, cs, charSigned);
      status := LoadCluster(c);
      list, status := ListAll(n);
      VisibleIsShown(Entries(ClusterBytes(disk, fs, cs)), charSigned);
    }
  }

  /**
    Where the listing ends at all, a call finds the first visible entry and leaves the reader
    before the others, or returns the status the listing ends with.
   */
  lemma {:induction false} ScanIsNext(disk: Disk, fs: Fs, charSigned: bool, here: seq<Entry>, c: U32, n: nat)
    returns (n': nat)
    requires ListingEnds(disk, fs, here, c, n)
    ensures Scan(disk, fs, charSigned, here, c, n).Some?
    ensures var o := Scan(disk, fs, charSigned, here, c, n).value;
            var ahead := EntriesAhead(disk, fs, here, c, n);
            var v, fin := Visible(ahead, charSigned), Final(ahead, EndStatus(disk, fs, here, c, n));
            if v == [] then o.status == fin && o.entry == None
            else
              && o.status == SUCCESS && o.entry == Some(v[0]) && ListingEnds(disk, fs, o.rest, o.cluster, n')
              && var rest := EntriesAhead(disk, fs, o.rest, o.cluster, n');
              && Visible(rest, charSigned) == v[1..]
              && Final(rest, EndStatus(disk, fs, o.rest, o.cluster, n')) == fin
    decreases n, |here|
  {
    hide ReadCluster, FatEntry, Entries, Skipped, EntriesAhead, EndStatus, ListingEnds, Visible, Final, Follow;
    n' := n;
    if here == [] {
      ClusterAhead(disk, fs, c, n, charSigned);
      match Follow(disk, fs, c)
      case Stop(_) => {}
      case On(next, bytes) => n' := ScanIsNext(disk, fs, charSigned, Entries(bytes), next, n - 1);
    } else {
      var e, rest := here[0], here[1..];
      assert here == [e] + rest;
      if e[0] == 0 {
        MarkerAhead(disk, fs, e, rest, c, n, charSigned);
      } else {
        EntryAhead(disk, fs, e, rest, c, n, charSigned);
        if Skipped(e, charSigned) {
          n' := ScanIsNext(disk, fs, charSigned, rest, c, n);
        }
      }
    }
  }

  // ---- when a call returns ----

  /** Nothing here to show, and no end. */
  predicate Silent(es: seq<Entry>, charSigned: bool) {
    forall i :: 0 <= i < |es| ==> es[i][0] != 0 && Skipped(es[i], charSigned)
  }

  lemma {:induction false} ScanSilent(disk: Disk, fs: Fs, charSigned: bool, here: seq<Entry>, c: U32, fuel: nat)
    ensures if Silent(here, charSigned)
            then Scan(disk, fs, charSigned, here, c, fuel) == Scan(disk, fs, charSigned, [], c, fuel)
            else Scan(disk, fs, charSigned, here, c, fuel).Some?
    decreases |here|
  {
    hide Follow, Skipped;
    if here != [] {
      ScanSilent(disk, fs, charSigned, here[1..], c, fuel);
      assert here == [here[0]] + here[1..];
      if here[0][0] != 0 && Skipped(here[0], charSigned) {
        SilentCons(here, charSigned);
      }
    }
  }

  lemma SilentCons(es: seq<Entry>, charSigned: bool)
    requires es != [] && es[0][0] != 0 && Skipped(es[0], charSigned)
    ensures Silent(es, charSigned) <==> Silent(es[1..], charSigned)
  {
    hide Skipped;
    if Silent(es[1..], charSigned) {
      forall i | 0 <= i < |es| ensures es[i][0] != 0 && Skipped(es[i], charSigned) {
        if i > 0 {
          assert es[1..][i - 1] == es[i];
        }
      }
    }
  }

  /** From the end of cluster `c` the search goes on through the next one without a stop. */
  predicate Passes(disk: Disk, fs: Fs, charSigned: bool, c: U32) {
    var b := Follow(disk, fs, c);
    b.On? && Silent(Entries(b.bytes), charSigned)
  }

  /** The k-th cluster after `c`. */
  function ClusterAt(disk: Disk, fs: Fs, c: U32, k: nat): U32 {
    if k == 0 then c
    else
      var x := ClusterAt(disk, fs, c, k - 1);
      match Follow(disk, fs, x)
      case On(next, _) => next
      case Stop(_) => x
  }

  lemma ScanPassed(disk: Disk, fs: Fs, charSigned: bool, c: U32, fuel: nat)
    requires fuel > 0 && Passes(disk, fs, charSigned, c)
    ensures Scan(disk, fs, charSigned, [], c, fuel)
         == Scan(disk, fs, charSigned, [], ClusterAt(disk, fs, c, 1), fuel - 1)
  {
    hide Follow, Entries, Silent;
    var b := Follow(disk, fs, c);
    ScanSilent(disk, fs, charSigned, Entries(b.bytes), b.cluster, fuel - 1);
    assert ClusterAt(disk, fs, c, 1) == b.cluster by { assert ClusterAt(disk, fs, c, 0) == c; }
  }

  lemma {:induction false} ClusterFrom(disk: Disk, fs: Fs, c: U32, k: nat)
    ensures ClusterAt(disk, fs, ClusterAt(disk, fs, c, k), 1) == ClusterAt(disk, fs, c, k + 1)
  {
    hide Follow;
    assert ClusterAt(disk, fs, ClusterAt(disk, fs, c, k), 0) == ClusterAt(disk, fs, c, k);
  }

  lemma {:induction false} ScanFrom(disk: Disk, fs: Fs, charSigned: bool, c: U32, n: nat, fuel: nat)
    requires n <= fuel && forall i :: 0 <= i < n ==> Passes(disk, fs, charSigned, ClusterAt(disk, fs, c, i))
    ensures Scan(disk, fs, charSigned, [], c, fuel)
         == Scan(disk, fs, charSigned, [], ClusterAt(disk, fs, c, n), fuel - n)
    decreases n
  {
    hide Follow, Scan, Passes;
    if n > 0 {
      ScanFrom(disk, fs, charSigned, c, n - 1, fuel);
      ScanPassed(disk, fs, charSigned, ClusterAt(disk, fs, c, n - 1), fuel - (n - 1));
      ClusterFrom(disk, fs, c, n - 1);
    }
  }

  /** A search that returns comes to a cluster it does not pass. */
  lemma {:induction false} ScanEnds(disk: Disk, fs: Fs, charSigned: bool, c: U32, i: nat, fuel: nat) returns (n: nat)
    requires forall k :: 0 <= k < i ==> Passes(disk, fs, charSigned, ClusterAt(disk, fs, c, k))
    requires Scan(disk, fs, charSigned, [], ClusterAt(disk, fs, c, i), fuel).Some?
    ensures !Passes(disk, fs, charSigned, ClusterAt(disk, fs, c, n))
    ensures forall k :: 0 <= k < n ==> Passes(disk, fs, charSigned, ClusterAt(disk, fs, c, k))
    decreases fuel
  {
    hide Follow, Passes, Scan;
    var x := ClusterAt(disk, fs, c, i);
    if Passes(disk, fs, charSigned, x) {
      NeedsFuel(disk, fs, charSigned, x, fuel);
      ScanPassed(disk, fs, charSigned, x, fuel);
      ClusterFrom(disk, fs, c, i);
      n := ScanEnds(disk, fs, charSigned, c, i + 1, fuel - 1);
    } else {
      n := i;
    }
  }

  lemma NeedsFuel(disk: Disk, fs: Fs, charSigned: bool, c: U32, fuel: nat)
    requires Passes(disk, fs, charSigned, c) && Scan(disk, fs, charSigned, [], c, fuel).Some?
    ensures fuel > 0
  {
    hide Follow, Silent;
  }

  lemma {:induction false} ClusterRepeats(disk: Disk, fs: Fs, c: U32, i: nat, j: nat, k: nat)
    requires ClusterAt(disk, fs, c, i) == ClusterAt(disk, fs, c, j)
    ensures ClusterAt(disk, fs, c, i + k) == ClusterAt(disk, fs, c, j + k)
    decreases k
  {
    hide Follow;
    if k > 0 {
      ClusterRepeats(disk, fs, c, i, j, k - 1);
    }
  }

  const CLUSTERS := 0x1_0000_0000

  lemma PassedInTime(disk: Disk, fs: Fs, charSigned: bool, c: U32, n: nat)
    requires !Passes(disk, fs, charSigned, ClusterAt(disk, fs, c, n))
    requires forall k :: 0 <= k < n ==> Passes(disk, fs, charSigned, ClusterAt(disk, fs, c, k))
    ensures n < CLUSTERS
  {
    hide Follow, Passes, ClusterAt;
    var visited := seq(n + 1, i requires 0 <= i <= n => ClusterAt(disk, fs, c, i));
    forall i, j | 0 <= i < j <= n ensures visited[i] != visited[j] {
      if visited[i] == visited[j] {
        var at: nat := i + (n - j);
        var earlier := ClusterAt(disk, fs, c, at);
        ClusterRepeats(disk, fs, c, i, j, n - j);
      }
    }
    Pigeonhole(visited, CLUSTERS);
  }

  /** A cluster that is not passed decides the search. */
  lemma ScanDecided(disk: Disk, fs: Fs, charSigned: bool, c: U32, fuel: nat)
    requires !Passes(disk, fs, charSigned, c) && fuel > 0
    ensures Scan(disk, fs, charSigned, [], c, fuel).Some?
  {
    hide Entries, Silent, ReadCluster, FatEntry;
    var b := Follow(disk, fs, c);
    if b.On? {
      ScanSilent(disk, fs, charSigned, Entries(b.bytes), b.cluster, fuel - 1);
    }
  }

  ghost predicate ScanReturns(disk: Disk, fs: Fs, charSigned: bool, here: seq<Entry>, c: U32) {
    exists fuel :: Scan(disk, fs, charSigned, here, c, fuel).Some?
  }

  /** On every chain: a call returns within 2^32 clusters, or never. */
  lemma ScanInTime(disk: Disk, fs: Fs, charSigned: bool, here: seq<Entry>, c: U32)
    ensures ScanReturns(disk, fs, charSigned, here, c)
       <==> Scan(disk, fs, charSigned, here, c, CLUSTERS).Some?
  {
    hide Scan, Follow, Passes, Silent;
    if ScanReturns(disk, fs, charSigned, here, c) {
      var fuel :| Scan(disk, fs, charSigned, here, c, fuel).Some?;
      ScanSilent(disk, fs, charSigned, here, c, fuel);
      ScanSilent(disk, fs, charSigned, here, c, CLUSTERS);
      if Silent(here, charSigned) {
        ClusterStart(disk, fs, c);
        var n := ScanEnds(disk, fs, charSigned, c, 0, fuel);
        PassedInTime(disk, fs, charSigned, c, n);
        ScanFrom(disk, fs, charSigned, c, n, CLUSTERS);
        ScanDecided(disk, fs, charSigned, ClusterAt(disk, fs, c, n), CLUSTERS - n);
      }
    }
  }

  lemma ClusterStart(disk: Disk, fs: Fs, c: U32)
    ensures ClusterAt(disk, fs, c, 0) == c
  {
  }

  /** A cluster chained to itself with nothing in it to show and no end: a call never returns. */
  lemma {:induction false} SilentLoopHangs(disk: Disk, fs: Fs, charSigned: bool, c: U32, fuel: nat)
    requires Passes(disk, fs, charSigned, c) && Follow(disk, fs, c).cluster == c
    ensures Scan(disk, fs, charSigned, [], c, fuel).None?
    decreases fuel
  {
    hide Entries, Silent, ReadCluster, FatEntry;
    if fuel > 0 {
      SilentLoopHangs(disk, fs, charSigned, c, fuel - 1);
      ScanSilent(disk, fs, charSigned, Entries(Follow(disk, fs, c).bytes), c, fuel - 1);
    }
  }

  lemma EntriesFrom(bytes: seq<Byte>, i: nat)
    requires i < |bytes| / ENTRY
    ensures Entries(bytes)[i..] == [bytes[i * ENTRY..(i + 1) * ENTRY]] + Entries(bytes)[i + 1..]
  {
    assert Entries(bytes)[i] == bytes[i * ENTRY..(i + 1) * ENTRY];
  }

  lemma ListingStep(e: Entry, rest: seq<Entry>, charSigned: bool, stop: nat)
    ensures Visible([e] + rest, charSigned)
         == if e[0] == 0 then [] else if Skipped(e, charSigned) then Visible(rest, charSigned)
            else [e] + Visible(rest, charSigned)
    ensures Final([e] + rest, stop) == if e[0] == 0 then END_OF_DIR else Final(rest, stop)
  {
    assert ([e] + rest)[1..] == rest;
  }

  lemma NothingHere(bytes: seq<Byte>, i: nat)
    requires i == |bytes| / ENTRY
    ensures Entries(bytes)[i..] == []
  {
  }

  /** The end marker ends the listing wherever it stands. */
  lemma MarkerAhead(disk: Disk, fs: Fs, e: Entry, here: seq<Entry>, c: U32, n: nat, charSigned: bool)
    requires e[0] == 0 && ListingEnds(disk, fs, [e] + here, c, n)
    ensures var ahead := EntriesAhead(disk, fs, [e] + here, c, n);
            && Visible(ahead, charSigned) == [] && Final(ahead, EndStatus(disk, fs, [e] + here, c, n)) == END_OF_DIR
            && HasEnd(ahead)
  {
    hide StopsAfter, EntriesBeyond, StopStatus, Skipped;
    assert ([e] + here)[0][0] == 0;
    assert HasEnd([e] + here);
  }

  lemma EndBehind(e: Entry, here: seq<Entry>)
    requires e[0] != 0
    ensures HasEnd([e] + here) <==> HasEnd(here)
  {
    if HasEnd(here) {
      var i :| 0 <= i < |here| && here[i][0] == 0;
      assert ([e] + here)[i + 1][0] == 0;
    }
    if HasEnd([e] + here) {
      var i :| 0 <= i < |here| + 1 && ([e] + here)[i][0] == 0;
      assert here[i - 1][0] == 0;
    }
  }

  /** Past any other entry the listing goes on with what follows. */
  lemma EntryAhead(disk: Disk, fs: Fs, e: Entry, here: seq<Entry>, c: U32, n: nat, charSigned: bool)
    requires e[0] != 0 && ListingEnds(disk, fs, [e] + here, c, n)
    ensures ListingEnds(disk, fs, here, c, n)
    ensures var ahead, rest := EntriesAhead(disk, fs, [e] + here, c, n), EntriesAhead(disk, fs, here, c, n);
            var stop, stop' := EndStatus(disk, fs, [e] + here, c, n), EndStatus(disk, fs, here, c, n);
            && Visible(ahead, charSigned)
            == (if Skipped(e, charSigned) then Visible(rest, charSigned) else [e] + Visible(rest, charSigned))
            && Final(ahead, stop) == Final(rest, stop') && HasEnd(ahead) == HasEnd(rest)
  {
    hide StopsAfter, EntriesBeyond, StopStatus, Skipped, Visible, Final, HasEnd;
    EndBehind(e, here);
    var rest := EntriesAhead(disk, fs, here, c, n);
    assert EntriesAhead(disk, fs, [e] + here, c, n) == [e] + rest;
    EndBehind(e, rest);
    ListingStep(e, rest, charSigned, EndStatus(disk, fs, here, c, n));
  }

  /** At the end of a cluster the listing stops, or goes on in the next one. */
  lemma ClusterAhead(disk: Disk, fs: Fs, c: U32, n: nat, charSigned: bool)
    requires ListingEnds(disk, fs, [], c, n)
    ensures match Follow(disk, fs, c)
            case Stop(status) =>
              && Visible(EntriesAhead(disk, fs, [], c, n), charSigned) == []
              && Final(EntriesAhead(disk, fs, [], c, n), EndStatus(disk, fs, [], c, n)) == status
            case On(next, bytes) =>
              && n > 0 && ListingEnds(disk, fs, Entries(bytes), next, n - 1)
              && EntriesAhead(disk, fs, Entries(bytes), next, n - 1) == EntriesAhead(disk, fs, [], c, n)
              && EndStatus(disk, fs, Entries(bytes), next, n - 1) == EndStatus(disk, fs, [], c, n)
  {
    hide ReadCluster, FatEntry, Entries, Skipped, HasEnd;
    assert !HasEnd([]) by { NoEnd(); }
    assert [] + EntriesBeyond(disk, fs, c, n) == EntriesBeyond(disk, fs, c, n);
  }

  lemma NoEnd()
    ensures !HasEnd([])
  {
  }

  // ---- a directory on the disk ----

  /** Clusters hold whole entries, so joining them joins their entries. */
  lemma EntriesJoin(a: seq<Byte>, b: seq<Byte>)
    requires |a| % ENTRY == 0
    ensures Entries(a + b) == Entries(a) + Entries(b)
  {
    var n := |a| / ENTRY;
    assert |a| == n * ENTRY;
    DivUnique(|a + b|, ENTRY, n + |b| / ENTRY, |b| % ENTRY);
    var x, y := Entries(a + b), Entries(a) + Entries(b);
    forall i | 0 <= i < |x| ensures x[i] == y[i] {
      if i < n {
        assert (a + b)[i * ENTRY..(i + 1) * ENTRY] == a[i * ENTRY..(i + 1) * ENTRY];
      } else {
        assert (a + b)[i * ENTRY..(i + 1) * ENTRY] == b[(i - n) * ENTRY..(i - n + 1) * ENTRY];
      }
    }
  }

  /** A listing goes through `a` and on to `b`, unless `a` holds the end marker. */
  lemma {:induction false} ListingJoin(a: seq<Entry>, b: seq<Entry>, charSigned: bool, stop: nat)
    ensures Visible(a + b, charSigned) == Visible(a, charSigned) + if HasEnd(a) then [] else Visible(b, charSigned)
    ensures Final(a + b, stop) == if HasEnd(a) then END_OF_DIR else Final(b, stop)
  {
    hide Skipped, HasEnd;
    if a == [] {
      NoEnd();
      assert a + b == b;
    } else {
      var e, rest := a[0], a[1..];
      assert a == [e] + rest;
      assert a + b == [e] + (rest + b);
      ListingStep(e, rest, charSigned, stop);
      ListingStep(e, rest + b, charSigned, stop);
      if e[0] == 0 {
        assert HasEnd(a) by { EndAt(a, 0); }
      } else {
        EndBehind(e, rest);
        ListingJoin(rest, b, charSigned, stop);
      }
    }
  }

  lemma EndAt(es: seq<Entry>, i: nat)
    requires i < |es| && es[i][0] == 0
    ensures HasEnd(es)
  {
  }

  lemma EndOfEither(a: seq<Entry>, b: seq<Entry>)
    ensures HasEnd(a + b) <==> HasEnd(a) || HasEnd(b)
  {
    if HasEnd(a) {
      var i :| 0 <= i < |a| && a[i][0] == 0;
      assert (a + b)[i][0] == 0;
    }
    if HasEnd(b) {
      var i :| 0 <= i < |b| && b[i][0] == 0;
      assert (a + b)[|a| + i][0] == 0;
    }
  }

  lemma FirstEntries(disk: Disk, fs: Fs, cs: seq<U32>)
    requires Chained(disk, fs, cs)
    ensures Entries(ClusterBytes(disk, fs, cs))
         == Entries(OwnBytes(disk, fs, cs[0])) + if |cs| == 1 then [] else Entries(ClusterBytes(disk, fs, cs[1..]))
  {
    hide Entries, OwnBytes, DataOnDisk, Link, EntryOnDisk;
    WholeEntries(disk, fs, cs[0]);
    EntriesJoin(OwnBytes(disk, fs, cs[0]), if |cs| == 1 then [] else ClusterBytes(disk, fs, cs[1..]));
    NoEntries();
  }

  lemma WholeEntries(disk: Disk, fs: Fs, c: U32)
    requires DataOnDisk(disk, fs, c)
    ensures |OwnBytes(disk, fs, c)| % ENTRY == 0
  {
    hide DataOnDisk, OwnBytes;
    DivUnique(fs.Size(), ENTRY, fs.spc * 16, 0);
  }

  lemma NoEntries()
    ensures Entries([]) == []
  {
  }

  /** What follows a cluster is the one its entry names, or the end its entry marks. */
  lemma FollowLink(disk: Disk, fs: Fs, c: U32)
    requires c < 0x4000_0000 && EntryOnDisk(disk, fs, c) && |disk.data| <= 0x8000_0000_0000_0000
    ensures var next := Link(disk, fs, c);
            Follow(disk, fs, c) == if next >= 0x0FFF_FFF8 then Stop(END_OF_DIR)
                                   else match ReadCluster(disk, fs, next, fs.Size())
                                        case None => Stop(FAT_IO_ERROR)
                                        case Some(bytes) => On(next, bytes)
  {
    hide ReadCluster, FatEntry, Link, EntryOnDisk, Next;
    NextOnDisk(disk, fs, c);
  }

  /** What a listing meets along a chain on the disk is what the clusters' own bytes hold. */
  lemma {:induction false} DirOnDisk(disk: Disk, fs: Fs, cs: seq<U32>, charSigned: bool) returns (n: nat)
    requires fs.spc > 0 && Chained(disk, fs, cs)
    requires Ended(disk, fs, cs) || HasEnd(Entries(ClusterBytes(disk, fs, cs)))
    ensures ListingEnds(disk, fs, Entries(OwnBytes(disk, fs, cs[0])), cs[0], n)
    ensures var here := Entries(OwnBytes(disk, fs, cs[0]));
            var ahead := EntriesAhead(disk, fs, here, cs[0], n);
            && Visible(ahead, charSigned) == Visible(Entries(ClusterBytes(disk, fs, cs)), charSigned)
            && Final(ahead, EndStatus(disk, fs, here, cs[0], n)) == END_OF_DIR
    decreases |cs|
  {
    hide Entries, OwnBytes, ClusterBytes, DataOnDisk, Link, EntryOnDisk, Follow, HasEnd, Visible, Final, ReadCluster;
    var here := Entries(OwnBytes(disk, fs, cs[0]));
    FirstEntries(disk, fs, cs);
    OnDisk(disk, fs, cs[0]);
    var later := if |cs| == 1 then [] else Entries(ClusterBytes(disk, fs, cs[1..]));
    EndOfEither(here, later);
    ListingJoin(here, later, charSigned, END_OF_DIR);
    NoEnd();
    NothingListed(charSigned);
    assert here + [] == here;
    n := 0;
    if HasEnd(here) {
      ListingJoin(here, [], charSigned, END_OF_DIR);
    } else if |cs| > 1 {
      FollowLink(disk, fs, cs[0]);
      ReadClusterOnDisk(disk, fs, cs[1]);
      var n1 := DirOnDisk(disk, fs, cs[1..], charSigned);
      n := n1 + 1;
      var next := Entries(OwnBytes(disk, fs, cs[1]));
      ListingJoin(here, EntriesAhead(disk, fs, next, cs[1], n1), charSigned, EndStatus(disk, fs, next, cs[1], n1));
    } else {
      FollowLink(disk, fs, cs[0]);
    }
  }

  lemma NothingListed(charSigned: bool)
    ensures Visible([], charSigned) == [] && Final([], END_OF_DIR) == END_OF_DIR
  {
  }

  // ---- what a listing shows ----

  /** The entries before the first one whose name starts with a zero byte. */
  function BeforeEnd(es: seq<Entry>): (b: seq<Entry>)
    ensures b <= es && (forall i :: 0 <= i < |b| ==> b[i][0] != 0)
    ensures |b| < |es| ==> es[|b|][0] == 0
  {
    if es == [] || es[0][0] == 0 then [] else [es[0]] + BeforeEnd(es[1..])
  }

  /** Part of a long name (attributes 0x0F), or marked deleted where a `char` can be 0xE5. */
  predicate Hidden(e: Entry, charSigned: bool) {
    e[11] == 0x0F || (!charSigned && e[0] == 0xE5)
  }

  function Shown(es: seq<Entry>, charSigned: bool): seq<Entry> {
    if es == [] then []
    else
      var n := |es| - 1;
      Shown(es[..n], charSigned) + if Hidden(es[n], charSigned) then [] else [es[n]]
  }

  lemma {:induction false} ShownCons(e: Entry, es: seq<Entry>, charSigned: bool)
    ensures Shown([e] + es, charSigned) == (if Hidden(e, charSigned) then [] else [e]) + Shown(es, charSigned)
  {
    hide Hidden;
    if es != [] {
      var n := |es| - 1;
      assert ([e] + es)[..n + 1] == [e] + es[..n];
      ShownCons(e, es[..n], charSigned);
    }
  }

  /** A listing is the entries before the end marker that are not hidden, in order. */
  lemma {:induction false} VisibleIsShown(es: seq<Entry>, charSigned: bool)
    ensures Visible(es, charSigned) == Shown(BeforeEnd(es), charSigned)
    ensures Final(es, END_OF_DIR) == END_OF_DIR
  {
    hide Shown;
    if es != [] && es[0][0] != 0 {
      VisibleIsShown(es[1..], charSigned);
      ShownCons(es[0], BeforeEnd(es[1..]), charSigned);
    } else {
      assert BeforeEnd(es) == [];
      NothingShown(charSigned);
    }
  }

  lemma NothingShown(charSigned: bool)
    ensures Shown([], charSigned) == []
  {
  }

  /** A deleted entry that is not part of a long name. */
  predicate Deleted(e: Entry) {
    e[0] == 0xE5 && e[11] != 0x0F
  }

  /** A listing shows deleted entries exactly where `char` is signed and the directory has some. */
  lemma {:induction false} DeletedShownIffSigned(es: seq<Entry>, charSigned: bool)
    ensures (exists e :: e in Visible(es, charSigned) && Deleted(e))
       <==> charSigned && exists e :: e in BeforeEnd(es) && Deleted(e)
  {
    if es != [] && es[0][0] != 0 {
      DeletedShownIffSigned(es[1..], charSigned);
      var rest := es[1..];
      assert forall e :: e in BeforeEnd(es) <==> e == es[0] || e in BeforeEnd(rest);
      assert forall e :: e in Visible(es, charSigned) <==>
        (!Skipped(es[0], charSigned) && e == es[0]) || e in Visible(rest, charSigned);
    }
  }
}
