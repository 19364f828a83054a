/**
 * Code blobs in the dynamically allocated part of immobile text space.
 *
 * The TLSF allocator is a sequence of blocks that tile the pool from `base` to `limit`, no two
 * free ones side by side, with a sentinel at `limit` that counts as used.  Which free block it
 * picks, and how much of it, is a parameter.  The runtime keeps beside it the high-water mark
 * and, for each page, the offset of the lowest used block that starts there.
 */
module TextSpace {
  import opened Options

  const CardBytes: nat := 4096
  const NoStart: nat := 65535

  datatype Block = Block(start: nat, size: nat, used: bool)

  function End(b: Block): (e: nat) {
    b.start + b.size
  }

  function Page(address: nat): (p: nat) {
    address / CardBytes
  }

  function Offset(address: nat): (o: nat)
    ensures o < CardBytes && address == Page(address) * CardBytes + o
  {
    address % CardBytes
  }

  // The blocks.

  predicate Tiled(lo: nat, blocks: seq<Block>, hi: nat) {
    if blocks == [] then lo == hi else
    var last := blocks[|blocks| - 1];
    last.size > 0 && End(last) == hi && Tiled(lo, blocks[..|blocks| - 1], last.start)
  }

  predicate NotBothFree(blocks: seq<Block>, k: nat) {
    0 < k < |blocks| ==> blocks[k - 1].used || blocks[k].used
  }

  ghost predicate NoFreeNeighbours(blocks: seq<Block>) {
    forall k: nat :: NotBothFree(blocks, k)
  }

  function UsedBlocks(blocks: seq<Block>): (used: set<Block>)
    ensures forall b :: b in used <==> b in blocks && b.used
  {
    set b | b in blocks && b.used
  }

  /** Splitting free block `i`: its first `taken` bytes become used. */
  function Carve(blocks: seq<Block>, i: nat, taken: nat): (r: seq<Block>)
    requires i < |blocks| && taken <= blocks[i].size
  {
    var b := blocks[i];
    blocks[..i] + [Block(b.start, taken, true)]
    + (if taken < b.size then [Block(b.start + taken, b.size - taken, false)] else [])
    + blocks[i + 1..]
  }

  /** The first and last block that freeing block `i` merges. */
  function MergeFrom(blocks: seq<Block>, i: nat): (lo: nat)
    requires i < |blocks|
    ensures lo <= i
  {
    if i > 0 && !blocks[i - 1].used then i - 1 else i
  }

  function MergeTo(blocks: seq<Block>, i: nat): (hi: nat)
    requires i < |blocks|
    ensures i <= hi < |blocks|
  {
    if i + 1 < |blocks| && !blocks[i + 1].used then i + 1 else i
  }

  function Merge(blocks: seq<Block>, i: nat): (r: seq<Block>)
    requires i < |blocks|
  {
    var lo, hi := MergeFrom(blocks, i), MergeTo(blocks, i);
    var size: int := End(blocks[hi]) - blocks[lo].start;
    blocks[..lo] + [Block(blocks[lo].start, if size >= 0 then size else 0, false)] + blocks[hi + 1..]
  }

  lemma {:induction false} TiledJoin(lo: nat, a: seq<Block>, mid: nat, b: seq<Block>, hi: nat)
    requires Tiled(lo, a, mid) && Tiled(mid, b, hi)
    ensures Tiled(lo, a + b, hi)
  {
    if b == [] {
      assert a + b == a;
    } else {
      var last := |b| - 1;
      TiledJoin(lo, a, mid, b[..last], b[last].start);
      assert (a + b)[..|a + b| - 1] == a + b[..last];
    }
  }

  /** A tiling cut before block `i` is two tilings that meet at its start. */
  lemma {:induction false} TiledCut(lo: nat, blocks: seq<Block>, hi: nat, i: nat)
    requires Tiled(lo, blocks, hi) && i < |blocks|
    ensures Tiled(lo, blocks[..i], blocks[i].start) && Tiled(blocks[i].start, blocks[i..], hi)
  {
    var last := |blocks| - 1;
    if i < last {
      TiledCut(lo, blocks[..last], blocks[last].start, i);
      assert blocks[..last][..i] == blocks[..i];
      assert blocks[i..][..|blocks[i..]| - 1] == blocks[..last][i..];
    } else {
      var t := blocks[last..];
      assert t == [blocks[last]] && t[..|t| - 1] == [];
    }
  }

  lemma {:induction false} TiledGrows(lo: nat, blocks: seq<Block>, hi: nat)
    requires Tiled(lo, blocks, hi)
    ensures lo <= hi && (blocks != [] ==> lo < hi && blocks[0].start == lo)
    ensures forall k | 0 <= k < |blocks| :: lo <= blocks[k].start && End(blocks[k]) <= hi && blocks[k].size > 0
  {
    if blocks != [] {
      var last := |blocks| - 1;
      TiledGrows(lo, blocks[..last], blocks[last].start);
      forall k | 0 <= k < |blocks|
        ensures lo <= blocks[k].start && End(blocks[k]) <= hi && blocks[k].size > 0
      {
        if k < last { assert blocks[k] == blocks[..last][k]; }
      }
      if last > 0 { assert blocks[..last][0] == blocks[0]; }
    }
  }

  /** Earlier blocks end before later ones start. */
  lemma TiledOrder(lo: nat, blocks: seq<Block>, hi: nat, i: nat, j: nat)
    requires Tiled(lo, blocks, hi) && i < j < |blocks|
    ensures End(blocks[i]) <= blocks[j].start
    ensures j == i + 1 ==> End(blocks[i]) == blocks[j].start
  {
    TiledCut(lo, blocks, hi, j);
    TiledGrows(lo, blocks[..j], blocks[j].start);
    assert blocks[..j][i] == blocks[i];
    if j == i + 1 { assert blocks[..j][|blocks[..j]| - 1] == blocks[i]; }
  }

  lemma TiledOne(b: Block)
    requires b.size > 0
    ensures Tiled(b.start, [b], End(b))
  {
    assert [b][..0] == [];
  }

  /** Replacing blocks `from..=to` by a tiling of the same stretch keeps the tiling. */
  lemma TiledReplace(lo: nat, blocks: seq<Block>, hi: nat, from: nat, to: nat, middle: seq<Block>)
    requires Tiled(lo, blocks, hi) && from <= to < |blocks|
    requires Tiled(blocks[from].start, middle, End(blocks[to]))
    ensures Tiled(lo, blocks[..from] + middle + blocks[to + 1..], hi)
  {
    TiledCut(lo, blocks, hi, from);
    TiledJoin(lo, blocks[..from], blocks[from].start, middle, End(blocks[to]));
    if to + 1 < |blocks| {
      TiledCut(lo, blocks, hi, to + 1);
      TiledOrder(lo, blocks, hi, to, to + 1);
      TiledJoin(lo, blocks[..from] + middle, End(blocks[to]), blocks[to + 1..], hi);
    } else {
      assert blocks[to + 1..] == [];
      assert blocks[..from] + middle + [] == blocks[..from] + middle;
    }
  }

  lemma CarveTiled(lo: nat, blocks: seq<Block>, hi: nat, i: nat, taken: nat)
    requires Tiled(lo, blocks, hi) && i < |blocks| && 0 < taken <= blocks[i].size
    ensures Tiled(lo, Carve(blocks, i, taken), hi)
  {
    hide Tiled;
    var b := blocks[i];
    var first := Block(b.start, taken, true);
    TiledOne(first);
    if taken < b.size {
      var rest := Block(b.start + taken, b.size - taken, false);
      TiledOne(rest);
      TiledJoin(b.start, [first], rest.start, [rest], End(b));
      TiledReplace(lo, blocks, hi, i, i, [first] + [rest]);
      assert Carve(blocks, i, taken) == blocks[..i] + ([first] + [rest]) + blocks[i + 1..];
    } else {
      TiledReplace(lo, blocks, hi, i, i, [first]);
      assert Carve(blocks, i, taken) == blocks[..i] + [first] + blocks[i + 1..];
    }
  }

  lemma MergeTiled(lo: nat, blocks: seq<Block>, hi: nat, i: nat)
    requires Tiled(lo, blocks, hi) && i < |blocks|
    ensures Tiled(lo, Merge(blocks, i), hi)
  {
    hide Tiled;
    var from, to := MergeFrom(blocks, i), MergeTo(blocks, i);
    TiledGrows(lo, blocks, hi);
    if from < i { TiledOrder(lo, blocks, hi, from, i); }
    if i < to { TiledOrder(lo, blocks, hi, i, to); }
    var m := Block(blocks[from].start, End(blocks[to]) - blocks[from].start, false);
    TiledOne(m);
    TiledReplace(lo, blocks, hi, from, to, [m]);
  }

  lemma CarveNeighbours(blocks: seq<Block>, i: nat, taken: nat)
    requires NoFreeNeighbours(blocks) && i < |blocks| && taken <= blocks[i].size && !blocks[i].used
    ensures NoFreeNeighbours(Carve(blocks, i, taken))
  {
    var r := Carve(blocks, i, taken);
    var shift := |r| - |blocks|;
    forall k: nat ensures NotBothFree(r, k) {
      assert NotBothFree(blocks, k);
      assert NotBothFree(blocks, i + 1);
      if k > i + shift + 1 { assert NotBothFree(blocks, k - shift); }
    }
  }

  lemma MergeNeighbours(blocks: seq<Block>, i: nat)
    requires NoFreeNeighbours(blocks) && i < |blocks| && blocks[i].used
    ensures NoFreeNeighbours(Merge(blocks, i))
  {
    var r := Merge(blocks, i);
    var lo, hi := MergeFrom(blocks, i), MergeTo(blocks, i);
    forall k: nat ensures NotBothFree(r, k) {
      assert NotBothFree(blocks, k);
      assert NotBothFree(blocks, lo);
      assert NotBothFree(blocks, hi + 1);
      if k > lo + 1 { assert NotBothFree(blocks, k + (hi - lo)); }
    }
  }

  lemma CarveUsed(blocks: seq<Block>, i: nat, taken: nat)
    requires i < |blocks| && taken <= blocks[i].size && !blocks[i].used
    ensures UsedBlocks(Carve(blocks, i, taken)) == UsedBlocks(blocks) + {Block(blocks[i].start, taken, true)}
  {
    assert blocks == blocks[..i] + [blocks[i]] + blocks[i + 1..];
  }

  lemma MergeUsed(lo: nat, blocks: seq<Block>, hi: nat, i: nat)
    requires Tiled(lo, blocks, hi) && i < |blocks| && blocks[i].used
    ensures UsedBlocks(Merge(blocks, i)) == UsedBlocks(blocks) - {blocks[i]}
  {
    hide Tiled;
    var from, to := MergeFrom(blocks, i), MergeTo(blocks, i);
    assert blocks == blocks[..from] + blocks[from..to + 1] + blocks[to + 1..];
    forall k: nat | k < |blocks| && k != i ensures blocks[k] != blocks[i] {
      TiledGrows(lo, blocks, hi);
      if k < i { TiledOrder(lo, blocks, hi, k, i); } else { TiledOrder(lo, blocks, hi, i, k); }
    }
    forall b | b in blocks && b.used && b != blocks[i] ensures b in Merge(blocks, i) {
      var k :| 0 <= k < |blocks| && blocks[k] == b;
      if k < from { assert blocks[..from][k] == b; }
      else { assert k > to; assert blocks[to + 1..][k - (to + 1)] == b; }
    }
    forall b | b in Merge(blocks, i) && b.used ensures b in blocks && b != blocks[i] {
      if b in blocks[..from] {
        var k :| 0 <= k < from && blocks[..from][k] == b;
        assert blocks[k] == b;
      } else {
        var k :| 0 <= k < |blocks[to + 1..]| && blocks[to + 1..][k] == b;
        assert blocks[to + 1 + k] == b;
      }
    }
  }

  // The high-water mark.

  /** `mark` is the greatest end of a used block, or `base` if there is none. */
  predicate HighMark(used: set<Block>, base: nat, mark: nat) {
    && (forall b | b in used :: End(b) <= mark)
    && (mark == base || exists b :: b in used && End(b) == mark)
  }

  /** The mark after block `i`, which reached it, is freed. */
  function LoweredMark(blocks: seq<Block>, i: nat): (mark: nat)
    requires i < |blocks|
  {
    if i > 0 && !blocks[i - 1].used then blocks[i - 1].start else blocks[i].start
  }

  lemma MarkLowered(base: nat, blocks: seq<Block>, limit: nat, i: nat, mark: nat)
    requires Tiled(base, blocks, limit) && NoFreeNeighbours(blocks) && i < |blocks| && blocks[i].used
    requires HighMark(UsedBlocks(blocks), base, mark) && End(blocks[i]) == mark
    ensures HighMark(UsedBlocks(blocks) - {blocks[i]}, base, LoweredMark(blocks, i))
  {
    hide Tiled;
    var used := UsedBlocks(blocks);
    var from := MergeFrom(blocks, i);
    TiledGrows(base, blocks, limit);
    forall b | b in used && b != blocks[i] ensures End(b) <= blocks[from].start {
      var k :| 0 <= k < |blocks| && blocks[k] == b;
      if k > i { TiledOrder(base, blocks, limit, i, k); }
      if k < from { TiledOrder(base, blocks, limit, k, from); }
    }
    if from > 0 {
      assert NotBothFree(blocks, from);
      var before := blocks[from - 1];
      TiledOrder(base, blocks, limit, from - 1, from);
      if before == blocks[i] { TiledOrder(base, blocks, limit, from - 1, i); }
      assert before in used - {blocks[i]};
    }
  }

  lemma MarkStays(base: nat, blocks: seq<Block>, i: nat, mark: nat)
    requires i < |blocks| && HighMark(UsedBlocks(blocks), base, mark) && End(blocks[i]) != mark
    ensures HighMark(UsedBlocks(blocks) - {blocks[i]}, base, mark)
  {
    var used := UsedBlocks(blocks);
    if mark != base {
      var b :| b in used && End(b) == mark;
      assert b in used - {blocks[i]};
    }
  }

  lemma MarkRaised(used: set<Block>, base: nat, mark: nat, c: Block)
    requires HighMark(used, base, mark)
    ensures HighMark(used + {c}, base, if End(c) > mark then End(c) else mark)
  {
    if End(c) > mark {
      assert c in used + {c};
    } else if mark != base {
      var b :| b in used && End(b) == mark;
      assert b in used + {c};
    }
  }

  // The scan starts.

  /**
   * `v` is a bound on the offsets of the used blocks that start on page `p`, and either names
   * one of them, or no offset at all, or the sentinel.
   */
  predicate ScanStart(v: nat, used: set<Block>, limit: nat, p: nat) {
    && (forall b | b in used && Page(b.start) == p :: v <= Offset(b.start))
    && (|| v >= CardBytes
        || (Page(limit) == p && v == Offset(limit))
        || exists b :: b in used && Page(b.start) == p && Offset(b.start) == v)
  }

  predicate ScanStarts(sso: seq<nat>, used: set<Block>, base: nat, limit: nat) {
    forall k | 0 <= k < |sso| :: ScanStart(sso[k], used, limit, Page(base) + k)
  }

  lemma PageOrder(a: nat, b: nat)
    ensures a <= b ==> Page(a) <= Page(b)
    ensures Page(a) == Page(b) ==> (a <= b <==> Offset(a) <= Offset(b))
  {
  }

  lemma StartAdded(v: nat, used: set<Block>, limit: nat, p: nat, c: Block)
    requires ScanStart(v, used, limit, p)
    ensures Page(c.start) == p ==>
      ScanStart(if Offset(c.start) < v then Offset(c.start) else v, used + {c}, limit, p)
    ensures Page(c.start) != p ==> ScanStart(v, used + {c}, limit, p)
  {
    hide Page, Offset;
    if Page(c.start) == p && Offset(c.start) < v {
      assert c in used + {c};
    } else if b :| b in used && Page(b.start) == p && Offset(b.start) == v {
      assert b in used + {c};
    }
  }

  /** `next` is where the first used block after `c` starts, the sentinel included. */
  predicate Successor(used: set<Block>, limit: nat, c: Block, next: nat) {
    && c.start < next
    && (next == limit || exists b :: b in used && b != c && b.start == next)
    && (forall b | b in used && c.start < b.start :: next <= b.start)
  }

  predicate DistinctStarts(used: set<Block>) {
    forall a, b | a in used && b in used && a.start == b.start :: a == b
  }

  lemma StartRemoved(v: nat, used: set<Block>, limit: nat, p: nat, c: Block, next: nat)
    requires ScanStart(v, used, limit, p) && c in used && DistinctStarts(used)
    requires Page(c.start) == p && v == Offset(c.start) && Successor(used, limit, c, next)
    ensures ScanStart(if Page(next) == p then Offset(next) else NoStart, used - {c}, limit, p)
  {
    hide Page, Offset;
    var rest := used - {c};
    forall b | b in rest && Page(b.start) == p
      ensures Page(next) == p && Offset(next) <= Offset(b.start)
    {
      PageOrder(b.start, c.start);
      PageOrder(c.start, b.start);
      PageOrder(c.start, next);
      PageOrder(next, b.start);
    }
    if Page(next) == p && next != limit {
      var b :| b in used && b != c && b.start == next;
      assert b in rest;
    }
  }

  lemma StartStays(v: nat, used: set<Block>, limit: nat, p: nat, c: Block)
    requires ScanStart(v, used, limit, p) && (Page(c.start) != p || v != Offset(c.start))
    ensures ScanStart(v, used - {c}, limit, p)
  {
    hide Page, Offset;
    if b :| b in used && Page(b.start) == p && Offset(b.start) == v {
      assert b in used - {c};
    }
  }

  /** Where the block after block `i`, or after the free block that follows it, starts. */
  function NextUsed(blocks: seq<Block>, i: nat): (next: nat)
    requires i < |blocks|
  {
    if i + 1 < |blocks| && !blocks[i + 1].used then End(blocks[i + 1]) else End(blocks[i])
  }

  lemma NextIsSuccessor(base: nat, blocks: seq<Block>, limit: nat, i: nat)
    requires Tiled(base, blocks, limit) && NoFreeNeighbours(blocks) && i < |blocks| && blocks[i].used
    ensures Successor(UsedBlocks(blocks), limit, blocks[i], NextUsed(blocks, i))
  {
    hide Tiled;
    var used, to, next := UsedBlocks(blocks), MergeTo(blocks, i), NextUsed(blocks, i);
    assert next == End(blocks[to]);
    TiledGrows(base, blocks, limit);
    if i < to { TiledOrder(base, blocks, limit, i, to); }
    LastEnd(base, blocks, limit);
    if to + 1 < |blocks| {
      TiledOrder(base, blocks, limit, to, to + 1);
      TiledOrder(base, blocks, limit, i, to + 1);
      assert NotBothFree(blocks, to + 1);
      assert blocks[to + 1] in used;
    }
    forall b | b in used && blocks[i].start < b.start ensures next <= b.start {
      var k :| 0 <= k < |blocks| && blocks[k] == b;
      if k < i { TiledOrder(base, blocks, limit, k, i); }
      if k > to { TiledOrder(base, blocks, limit, to, k); }
    }
  }

  lemma LastEnd(lo: nat, blocks: seq<Block>, hi: nat)
    requires Tiled(lo, blocks, hi)
    ensures blocks != [] ==> End(blocks[|blocks| - 1]) == hi
  {
  }

  lemma StartsDistinct(base: nat, blocks: seq<Block>, limit: nat)
    requires Tiled(base, blocks, limit)
    ensures DistinctStarts(UsedBlocks(blocks))
  {
    hide Tiled;
    TiledGrows(base, blocks, limit);
    forall a, b | a in blocks && b in blocks && a.start == b.start ensures a == b {
      var i :| 0 <= i < |blocks| && blocks[i] == a;
      var j :| 0 <= j < |blocks| && blocks[j] == b;
      if i < j { TiledOrder(base, blocks, limit, i, j); }
      if j < i { TiledOrder(base, blocks, limit, j, i); }
    }
  }

  lemma AllStartsAdded(sso: seq<nat>, used: set<Block>, base: nat, limit: nat, c: Block)
    requires ScanStarts(sso, used, base, limit) && base <= c.start && 0 <= Page(c.start) - Page(base) < |sso|
    ensures var k := Page(c.start) - Page(base);
      var v := if Offset(c.start) < sso[k] then Offset(c.start) else sso[k];
      ScanStarts(sso[k := v], used + {c}, base, limit)
  {
    hide ScanStart, Page, Offset;
    var i := Page(c.start) - Page(base);
    var r := sso[i := if Offset(c.start) < sso[i] then Offset(c.start) else sso[i]];
    forall k | 0 <= k < |sso| ensures ScanStart(r[k], used + {c}, limit, Page(base) + k) {
      StartAdded(sso[k], used, limit, Page(base) + k, c);
    }
  }

  lemma AllStartsRemoved(sso: seq<nat>, used: set<Block>, base: nat, limit: nat, c: Block, next: nat)
    requires ScanStarts(sso, used, base, limit) && c in used && DistinctStarts(used)
    requires 0 <= Page(c.start) - Page(base) < |sso| && Successor(used, limit, c, next)
    ensures var k := Page(c.start) - Page(base);
      var v := if sso[k] != Offset(c.start) then sso[k]
               else if Page(next) == Page(c.start) then Offset(next) else NoStart;
      ScanStarts(sso[k := v], used - {c}, base, limit)
  {
    hide ScanStart, Page, Offset, Successor, DistinctStarts;
    var i := Page(c.start) - Page(base);
    var v := if sso[i] != Offset(c.start) then sso[i]
             else if Page(next) == Page(c.start) then Offset(next) else NoStart;
    var r := sso[i := v];
    forall k | 0 <= k < |sso| ensures ScanStart(r[k], used - {c}, limit, Page(base) + k) {
      if k == i && sso[k] == Offset(c.start) {
        StartRemoved(sso[k], used, limit, Page(base) + k, c, next);
      } else {
        StartStays(sso[k], used, limit, Page(base) + k, c);
      }
    }
  }

  /** The lowest used block that starts on page `p` starts at `a`. */
  predicate LowestOn(used: set<Block>, p: nat, a: nat) {
    && Page(a) == p
    && (exists b :: b in used && b.start == a)
    && (forall b | b in used && Page(b.start) == p :: a <= b.start)
  }

  lemma ScanStartIsLowest(v: nat, used: set<Block>, limit: nat, p: nat)
    requires ScanStart(v, used, limit, p) && forall b | b in used :: b.start < limit
    ensures if exists b :: b in used && Page(b.start) == p
            then v < CardBytes && LowestOn(used, p, p * CardBytes + v)
            else v >= CardBytes || p * CardBytes + v == limit
  {
    hide Page;
    if b :| b in used && Page(b.start) == p {
      PageOrder(b.start, limit);
      PageOrder(limit, b.start);
      var w :| w in used && Page(w.start) == p && Offset(w.start) == v;
      forall x | x in used && Page(x.start) == p ensures w.start <= x.start {
        PageOrder(w.start, x.start);
      }
    }
  }

  /** A block in the pool starts on a page that has a scan start. */
  lemma PageInRange(base: nat, limit: nat, pages: nat, a: nat)
    requires base % CardBytes == 0 && limit < base + pages * CardBytes && base <= a <= limit
    ensures 0 <= Page(a) - Page(base) < pages
    ensures (a - base) / CardBytes == Page(a) - Page(base)
  {
  }

  class Pool {
    const base: nat
    const limit: nat
    var blocks: seq<Block>
    var highwatermark: nat
    const sso: array<nat>

    ghost predicate Valid()
      reads this, sso
    {
      && base % CardBytes == 0 && base <= limit < base + sso.Length * CardBytes
      && Tiled(base, blocks, limit)
      && NoFreeNeighbours(blocks)
      && HighMark(UsedBlocks(blocks), base, highwatermark)
      && ScanStarts(sso[..], UsedBlocks(blocks), base, limit)
    }

    ghost function Used(): (u: set<Block>)
      reads this
    {
      UsedBlocks(blocks)
    }

    /** An empty pool of `pages` pages, of which the sentinel lies at `limit`. */
    constructor (base: nat, limit: nat, pages: nat)
      requires base % CardBytes == 0 && base < limit < base + pages * CardBytes
      ensures Valid() && Used() == {} && highwatermark == base && fresh(sso)
      ensures this.base == base && this.limit == limit
    {
      this.base := base;
      this.limit := limit;
      highwatermark := base;
      blocks := [Block(base, limit - base, false)];
      sso := new nat[pages](_ => 0xffffffff);
      new;
      TiledOne(blocks[0]);
    }

    /**
     * Allocates a code blob.  `choice` is what the allocator found, if anything: a free block
     * and how many of its bytes to take.  No used block moves, and the new one is disjoint.
     */
    method AllocCodeblob(choice: Option<(nat, nat)>) returns (c: Option<nat>)
      requires Valid()
      requires choice.Some? ==>
        var (i, taken) := choice.value;
        i < |blocks| && !blocks[i].used && 0 < taken <= blocks[i].size
      modifies this, sso
      ensures Valid()
      ensures choice.None? ==> c == None && Used() == old(Used())
      ensures choice.Some? ==>
        var b := Block(old(blocks)[choice.value.0].start, choice.value.1, true);
        c == Some(b.start) && b !in old(Used()) && Used() == old(Used()) + {b}
    {
      hide Tiled, HighMark, ScanStarts, NoFreeNeighbours, UsedBlocks, Page, Offset;
      if choice.None? { return None; }
      var (i, taken) := choice.value;
      var start := blocks[i].start;
      ghost var b := Block(start, taken, true);
      ghost var was, starts := blocks, sso[..];
      TiledGrows(base, blocks, limit);
      PageInRange(base, limit, sso.Length, start);
      FreeNotUsed(base, blocks, limit, i, taken);
      CarveTiled(base, blocks, limit, i, taken);
      CarveNeighbours(blocks, i, taken);
      CarveUsed(blocks, i, taken);
      MarkRaised(UsedBlocks(was), base, highwatermark, b);
      AllStartsAdded(sso[..], UsedBlocks(was), base, limit, b);
      blocks := Carve(blocks, i, taken);
      var end := start + taken;
      if end > highwatermark { highwatermark := end; }
      var page := (start - base) / CardBytes;
      var offset := Offset(start);
      if offset < sso[page] { sso[page] := offset; }
      assert sso[..] == starts[page := sso[page]];
      c := Some(start);
    }

    /** Moves the high-water mark down if block `i`, about to be freed, reaches it. */
    method LowerMark(i: nat)
      requires Valid() && i < |blocks| && blocks[i].used
      modifies this`highwatermark
      ensures HighMark(Used() - {blocks[i]}, base, highwatermark)
    {
      hide Tiled, HighMark, ScanStarts, NoFreeNeighbours, UsedBlocks;
      var code := blocks[i].start;
      if End(blocks[i]) == highwatermark {
        MarkLowered(base, blocks, limit, i, highwatermark);
        if i > 0 && !blocks[i - 1].used {
          highwatermark := blocks[i - 1].start;
        } else {
          highwatermark := code;
        }
      } else {
        MarkStays(base, blocks, i, highwatermark);
      }
    }

    /** Moves its page's scan start on if block `i`, about to be freed, is it. */
    method MoveScanStart(i: nat)
      requires base % CardBytes == 0 && limit < base + sso.Length * CardBytes
      requires Tiled(base, blocks, limit) && NoFreeNeighbours(blocks) && i < |blocks| && blocks[i].used
      requires ScanStarts(sso[..], Used(), base, limit)
      modifies sso
      ensures ScanStarts(sso[..], Used() - {blocks[i]}, base, limit)
    {
      hide Tiled, ScanStarts, NoFreeNeighbours, UsedBlocks, Page, Offset, Successor, DistinctStarts;
      var code := blocks[i].start;
      ghost var starts := sso[..];
      TiledGrows(base, blocks, limit);
      PageInRange(base, limit, sso.Length, code);
      MemberUsed(blocks, i);
      NextIsSuccessor(base, blocks, limit, i);
      StartsDistinct(base, blocks, limit);
      AllStartsRemoved(sso[..], Used(), base, limit, blocks[i], NextUsed(blocks, i));
      var page := (code - base) / CardBytes;
      var offset := Offset(code);
      if offset == sso[page] {
        var next := End(blocks[i]);
        if i + 1 < |blocks| && !blocks[i + 1].used {
          next := next + blocks[i + 1].size;
          TiledOrder(base, blocks, limit, i, i + 1);
        }
        if Page(next) == Page(code) {
          sso[page] := Offset(next);
        } else {
          sso[page] := NoStart;
        }
      }
      assert sso[..] == starts[page := sso[page]];
    }

    /** Frees the code blob that is block `i`. */
    method UnallocCodeblob(i: nat)
      requires Valid() && i < |blocks| && blocks[i].used
      modifies this, sso
      ensures Valid()
      ensures Used() == old(Used()) - {old(blocks[i])}
    {
      hide Tiled, HighMark, ScanStarts, NoFreeNeighbours, UsedBlocks, Merge;
      LowerMark(i);
      MoveScanStart(i);
      MergeTiled(base, blocks, limit, i);
      MergeNeighbours(blocks, i);
      MergeUsed(base, blocks, limit, i);
      blocks := Merge(blocks, i);
    }

    /** The lowest used block on a page of the pool; without one, nothing or the sentinel. */
    method PageScanStart(page: nat) returns (a: Option<nat>)
      requires Valid() && Page(base) <= page < Page(base) + sso.Length
      ensures if exists b :: b in Used() && Page(b.start) == page
              then a.Some? && LowestOn(Used(), page, a.value)
              else a == None || a == Some(limit)
    {
      var pagebase := page * CardBytes;
      TiledGrows(base, blocks, limit);
      if pagebase > highwatermark {
        return None;
      }
      var v := sso[(pagebase - base) / CardBytes];
      a := if v < CardBytes then Some(pagebase + v) else None;
      assert ScanStart(v, Used(), limit, page);
      ScanStartIsLowest(v, Used(), limit, page);
    }
  }

  lemma FreeNotUsed(lo: nat, blocks: seq<Block>, hi: nat, i: nat, size: nat)
    requires Tiled(lo, blocks, hi) && i < |blocks| && !blocks[i].used
    ensures Block(blocks[i].start, size, true) !in UsedBlocks(blocks)
  {
    hide Tiled;
    TiledGrows(lo, blocks, hi);
    forall k: nat | k < |blocks| && k != i ensures blocks[k].start != blocks[i].start {
      if k < i { TiledOrder(lo, blocks, hi, k, i); } else { TiledOrder(lo, blocks, hi, i, k); }
    }
  }

  lemma MemberUsed(blocks: seq<Block>, i: nat)
    requires i < |blocks| && blocks[i].used
    ensures blocks[i] in UsedBlocks(blocks)
  {
  }
}
