/** FUSE directory listing in pages: packing records into a reply and resuming after the last one. */
module DirPaging {
  import opened Bytes

  const FIXED := 24

  /** One directory entry of the host; `kind` is the directory-entry type the host reports. */
  datatype Item = Item(ino: U64, kind: U32, name: seq<Byte>)

  function RecLen(it: Item): nat {
    FIXED + |it.name|
  }

  function PaddedLen(it: Item): (n: nat)
    ensures n % 8 == 0 && RecLen(it) <= n < RecLen(it) + 8
  {
    (RecLen(it) + 7) / 8 * 8
  }

  /** A record: inode, the offset to resume after it, name length, type, name, and zeros to a multiple of eight. */
  function Record(it: Item, pos: U64): (b: seq<Byte>)
    requires |it.name| < 0x1_0000_0000
    ensures |b| == PaddedLen(it)
  {
    ToLe(it.ino, 8) + ToLe(pos, 8) + ToLe(|it.name|, 4) + ToLe(it.kind, 4) + it.name + Zeros(PaddedLen(it) - RecLen(it))
  }

  /** Names short enough for the record's 32-bit length field, and positions for its 64-bit offset. */
  predicate Listable(items: seq<Item>) {
    |items| < 0x1_0000_0000 && forall i :: 0 <= i < |items| ==> |items[i].name| < 0xFFFF_0000
  }

  /** The records of items [from, to), numbered from 1, joined. */
  function Records(items: seq<Item>, from: nat, to: nat): (b: seq<Byte>)
    requires from <= to <= |items| && Listable(items)
    ensures |b| % 8 == 0
  {
    if from == to then []
    else
      var before, last := Records(items, from, to - 1), Record(items[to - 1], to);
      Eights(|before|, |last|);
      before + last
  }

  lemma Eights(a: nat, b: nat)
    requires a % 8 == 0 && b % 8 == 0
    ensures (a + b) % 8 == 0
  {
  }

  /** Where a page that starts after `from` items ends: the first record that does not fit stops it. */
  function PageEnd(items: seq<Item>, from: nat, to: nat, max: nat): (e: nat)
    requires from <= to <= |items| && Listable(items)
    ensures to <= e <= |items|
    decreases |items| - to
  {
    if to == |items| || |Records(items, from, to)| + PaddedLen(items[to]) > max then to
    else PageEnd(items, from, to + 1, max)
  }

  /** The reply to a read at `offset`: skip that many entries, then pack until the page is full. */
  method ReadDir(items: seq<Item>, offset: U64, max: U32) returns (out: seq<Byte>)
    requires Listable(items)
    ensures out == if offset >= |items| then [] else Records(items, offset, PageEnd(items, offset, offset, max))
    ensures |out| % 8 == 0 && |out| <= max
  {
    hide Record;
    out := [];
    var pos := 1;
    for i := 0 to |items|
      invariant pos == i + 1
      invariant i <= offset ==> out == []
      invariant i > offset ==> out == Records(items, offset, i) && |out| <= max
                               && PageEnd(items, offset, offset, max) == PageEnd(items, offset, i, max)
    {
      if pos <= offset {
        pos := pos + 1;
        continue;
      }
      var it := items[i];
      if |out| + PaddedLen(it) > max {
        return;
      }
      out := out + Record(it, pos);
      pos := pos + 1;
    }
  }

  // ---- the client's side ----

  datatype Parsed = Parsed(item: Item, pos: U64)

  /** Splits a reply into records; nothing if it is not a sequence of whole records. */
  function Parse(b: seq<Byte>): (o: (bool, seq<Parsed>))
    decreases |b|
  {
    if b == [] then (true, [])
    else if |b| < FIXED then (false, [])
    else
      var n := FromLe(b[16..20]);
      WidthBounds();
      if |b| < (FIXED + n + 7) / 8 * 8 then (false, [])
      else
        var p := Parsed(Item(FromLe(b[0..8]), FromLe(b[20..24]), b[24..24 + n]), FromLe(b[8..16]));
        var (ok, rest) := Parse(b[(FIXED + n + 7) / 8 * 8..]);
        (ok, [p] + rest)
  }

  lemma ParseRecord(it: Item, pos: U64, rest: seq<Byte>)
    requires |it.name| < 0x1_0000_0000
    ensures var (ok, ps) := Parse(rest);
            Parse(Record(it, pos) + rest) == (ok, [Parsed(it, pos)] + ps)
  {
    hide ToLe, FromLe, Pow256;
    var b := Record(it, pos) + rest;
    assert b[0..8] == ToLe(it.ino, 8) && b[8..16] == ToLe(pos, 8);
    assert b[16..20] == ToLe(|it.name|, 4) && b[20..24] == ToLe(it.kind, 4);
    assert b[24..24 + |it.name|] == it.name;
    assert b[PaddedLen(it)..] == rest;
    WidthBounds();
    FromToLe(it.ino, 8);
    FromToLe(pos, 8);
    FromToLe(|it.name|, 4);
    FromToLe(it.kind, 4);
  }

  lemma {:induction false} RecordsCons(items: seq<Item>, from: nat, to: nat)
    requires from < to <= |items| && Listable(items)
    ensures Records(items, from, to) == Record(items[from], from + 1) + Records(items, from + 1, to)
  {
    hide Record;
    if from + 1 < to {
      RecordsCons(items, from, to - 1);
    }
  }

  /** Items [from, to) with the positions they resume at. */
  function Numbered(items: seq<Item>, from: nat, to: nat): (ps: seq<Parsed>)
    requires from <= to <= |items| && Listable(items)
    ensures |ps| == to - from && forall k :: 0 <= k < |ps| ==> ps[k] == Parsed(items[from + k], from + k + 1)
  {
    seq(to - from, k requires 0 <= k < to - from => Parsed(items[from + k], from + k + 1))
  }

  /** A page parses back to exactly the items packed into it. */
  lemma {:induction false} ParseRecords(items: seq<Item>, from: nat, to: nat)
    requires from <= to <= |items| && Listable(items)
    ensures Parse(Records(items, from, to)) == (true, Numbered(items, from, to))
    decreases |items| - from
  {
    hide Record, Parse;
    if from == to {
      ParseNothing();
    } else {
      RecordsCons(items, from, to);
      ParseRecords(items, from + 1, to);
      ParseRecord(items[from], from + 1, Records(items, from + 1, to));
      assert Numbered(items, from, to) == [Parsed(items[from], from + 1)] + Numbered(items, from + 1, to);
    }
  }

  lemma ParseNothing()
    ensures Parse([]) == (true, [])
  {
  }

  /** A page holds as many records as fit: it stops at the end, or before one that would pass the limit. */
  lemma {:induction false} PageIsFull(items: seq<Item>, from: nat, to: nat, max: nat)
    requires from <= to <= |items| && Listable(items) && |Records(items, from, to)| <= max
    ensures var e := PageEnd(items, from, to, max);
            && |Records(items, from, e)| <= max
            && (e < |items| ==> |Records(items, from, e)| + PaddedLen(items[e]) > max)
    decreases |items| - to
  {
    hide Record, PaddedLen;
    if to < |items| && |Records(items, from, to)| + PaddedLen(items[to]) <= max {
      PageIsFull(items, from, to + 1, max);
    }
  }

  /** A page that can hold any one record makes progress. */
  lemma PageAdvances(items: seq<Item>, from: nat, max: nat)
    requires from < |items| && Listable(items) && PaddedLen(items[from]) <= max
    ensures PageEnd(items, from, from, max) > from
  {
    hide Record;
    assert |Records(items, from, from)| == 0;
  }

  /**
    Reading page after page, each resumed at the offset of the last record of the one
    before, until an empty page: the whole listing comes out, every entry once and in
    order, whatever the page sizes, as long as each holds the largest record.
   */
  method ListWhole(items: seq<Item>, sizes: seq<U32>) returns (all: seq<Parsed>, pages: nat)
    requires Listable(items) && |sizes| > |items|
    requires forall k, i :: 0 <= k < |sizes| && 0 <= i < |items| ==> PaddedLen(items[i]) <= sizes[k]
    ensures all == Numbered(items, 0, |items|)
    ensures pages <= |items|
  {
    hide Record, Records, Parse, PageEnd, PaddedLen;
    all, pages := [], 0;
    var offset: U64 := 0;
    while true
      invariant pages <= offset <= |items| && all == Numbered(items, 0, offset)
      decreases |items| - offset
    {
      var page := ReadDir(items, offset, sizes[pages]);
      if page == [] {
        if offset < |items| {
          PageAdvances(items, offset, sizes[pages]);
          RecordsNonEmpty(items, offset, PageEnd(items, offset, offset, sizes[pages]));
        }
        return;
      }
      ghost var to := PageEnd(items, offset, offset, sizes[pages]);
      PageAdvances(items, offset, sizes[pages]);
      ParseRecords(items, offset, to);
      var (ok, ps) := Parse(page);
      all := all + ps;
      assert all == Numbered(items, 0, to);
      offset := ps[|ps| - 1].pos;
      pages := pages + 1;
    }
  }

  lemma RecordsNonEmpty(items: seq<Item>, from: nat, to: nat)
    requires from < to <= |items| && Listable(items)
    ensures Records(items, from, to) != []
  {
  }
}
