/** The work queue of the full mark phase: a chain of fixed-capacity blocks, each used as a
    ring, with emptied blocks kept for reuse. It refines an unbounded FIFO sequence. */
module BlockQueue {

  /** Concatenation of the blocks' contents. */
  ghost function Concat(parts: seq<seq<nat>>): seq<nat> {
    if parts == [] then [] else parts[0] + Concat(parts[1..])
  }

  lemma {:induction false} ConcatSnoc(parts: seq<seq<nat>>, part: seq<nat>)
    ensures Concat(parts + [part]) == Concat(parts) + part
  {
    if parts == [] {
      assert parts + [part] == [part];
      assert Concat([part]) == part + Concat([]);
    } else {
      assert (parts + [part])[1..] == parts[1..] + [part];
      ConcatSnoc(parts[1..], part);
    }
  }

  /** Appending to the last part appends to the concatenation. */
  lemma ConcatLast(parts: seq<seq<nat>>, x: nat)
    requires parts != []
    ensures var z := |parts| - 1; Concat(parts[z := parts[z] + [x]]) == Concat(parts) + [x]
  {
    var z := |parts| - 1;
    assert parts == parts[..z] + [parts[z]];
    assert parts[z := parts[z] + [x]] == parts[..z] + [parts[z] + [x]];
    ConcatSnoc(parts[..z], parts[z]);
    ConcatSnoc(parts[..z], parts[z] + [x]);
  }

  lemma ConcatFirst(parts: seq<seq<nat>>)
    requires parts != [] && parts[0] != []
    ensures Concat(parts) != [] && Concat(parts)[0] == parts[0][0]
    ensures Concat(parts[0 := parts[0][1..]]) == Concat(parts)[1..]
    ensures parts[0][1..] == [] ==> Concat(parts[1..]) == Concat(parts)[1..]
  {
    assert parts[0 := parts[0][1..]][1..] == parts[1..];
  }

  /** Position of the `i`th oldest of `count` elements in a ring whose next free slot is `tail`. */
  function Slot(cap: nat, tail: nat, count: nat, i: nat): (k: nat)
    requires tail < cap && i < count <= cap
    ensures k < cap
  {
    var k := tail - count + i;
    if k < 0 then k + cap else k
  }

  /** A block occupies a page of its own and links to the next one by page number. */
  datatype Block = Block(count: nat, tail: nat, next: Link, elements: seq<nat>)

  datatype Link = Null | To(page: nat)

  ghost predicate BlockOk(cap: nat, b: Block) {
    b.tail < cap && b.count <= cap && |b.elements| == cap
  }

  /** The elements of a block, oldest first. */
  ghost function Items(cap: nat, b: Block): (s: seq<nat>)
    requires BlockOk(cap, b)
    ensures |s| == b.count
  {
    seq(b.count, i requires 0 <= i < b.count => b.elements[Slot(cap, b.tail, b.count, i)])
  }

  function Append(cap: nat, b: Block, x: nat): Block
    requires b.tail < |b.elements|
  {
    b.(elements := b.elements[b.tail := x], tail := if b.tail + 1 == cap then 0 else b.tail + 1, count := b.count + 1)
  }

  lemma AppendItems(cap: nat, b: Block, x: nat)
    requires BlockOk(cap, b) && b.count < cap
    ensures BlockOk(cap, Append(cap, b, x)) && Items(cap, Append(cap, b, x)) == Items(cap, b) + [x]
  {
    var b' := Append(cap, b, x);
    assert BlockOk(cap, b');
    forall i | 0 <= i < b'.count ensures Items(cap, b')[i] == (Items(cap, b) + [x])[i] {
      if i < b.count { assert Slot(cap, b'.tail, b'.count, i) == Slot(cap, b.tail, b.count, i); }
    }
  }

  /** Where `gc_dequeue` reads. */
  function Oldest(cap: nat, b: Block): nat
    requires b.tail < cap && 0 < b.count <= cap && |b.elements| == cap
  {
    var index := b.tail - b.count;
    b.elements[index + if index < 0 then cap else 0]
  }

  lemma TakeItems(cap: nat, b: Block)
    requires BlockOk(cap, b) && b.count > 0
    ensures Oldest(cap, b) == Items(cap, b)[0]
    ensures BlockOk(cap, b.(count := b.count - 1)) && Items(cap, b.(count := b.count - 1)) == Items(cap, b)[1..]
  {
  }

  type Pages = map<nat, Block>

  function LinkAfter(list: seq<nat>, i: int): Link
    requires -1 <= i < |list|
  {
    if i + 1 < |list| then To(list[i + 1]) else Null
  }

  /** `list` is the sequence of pages met by following links from `first`. */
  ghost predicate Chain(pages: Pages, first: Link, list: seq<nat>) {
    && first == LinkAfter(list, -1)
    && (forall i :: 0 <= i < |list| ==> list[i] in pages && pages[list[i]].next == LinkAfter(list, i))
  }

  ghost predicate Distinct(list: seq<nat>) {
    forall i, j :: 0 <= i < j < |list| ==> list[i] != list[j]
  }

  lemma DistinctSplit(chain: seq<nat>, pool: seq<nat>)
    requires Distinct(chain + pool)
    ensures Distinct(chain) && Distinct(pool)
    ensures forall i, j :: 0 <= i < |chain| && 0 <= j < |pool| ==> chain[i] != pool[j]
  {
    var s := chain + pool;
    forall i, j | 0 <= i < j < |chain| ensures chain[i] != chain[j] { assert s[i] != s[j]; }
    forall i, j | 0 <= i < j < |pool| ensures pool[i] != pool[j] { assert s[|chain| + i] != s[|chain| + j]; }
    forall i, j | 0 <= i < |chain| && 0 <= j < |pool| ensures chain[i] != pool[j] { assert s[i] != s[|chain| + j]; }
  }

  ghost function Parts(cap: nat, pages: Pages, chain: seq<nat>): seq<seq<nat>>
    requires forall i :: 0 <= i < |chain| ==> chain[i] in pages && BlockOk(cap, pages[chain[i]])
  {
    seq(|chain|, i requires 0 <= i < |chain| => Items(cap, pages[chain[i]]))
  }

  ghost predicate Core(cap: nat, pages: Pages, head: nat, recycler: Link, chain: seq<nat>, pool: seq<nat>) {
    && cap > 0 && chain != []
    && Chain(pages, To(head), chain) && Chain(pages, recycler, pool)
    && Distinct(chain + pool)
    && (forall p :: p in pages ==> BlockOk(cap, pages[p]))
  }

  ghost function Contents(cap: nat, pages: Pages, chain: seq<nat>): seq<nat>
    requires forall i :: 0 <= i < |chain| ==> chain[i] in pages && BlockOk(cap, pages[chain[i]])
  {
    Concat(Parts(cap, pages, chain))
  }

  /** Only the sole block of the chain may be empty. */
  ghost predicate Counts(pages: Pages, chain: seq<nat>) {
    forall i :: 0 <= i < |chain| && chain[i] in pages && pages[chain[i]].count == 0 ==> |chain| == 1
  }

  lemma AppendLast(cap: nat, pages: Pages, head: nat, recycler: Link, chain: seq<nat>, pool: seq<nat>, x: nat)
    requires Core(cap, pages, head, recycler, chain, pool)
    requires pages[chain[|chain| - 1]].count < cap
    ensures var z := chain[|chain| - 1]; var pages' := pages[z := Append(cap, pages[z], x)];
      && Core(cap, pages', head, recycler, chain, pool)
      && Contents(cap, pages', chain) == Contents(cap, pages, chain) + [x]
  {
    hide Concat, Items;
    var n := |chain| - 1;
    var z := chain[n];
    AppendItems(cap, pages[z], x);
    var pages' := pages[z := Append(cap, pages[z], x)];
    DistinctSplit(chain, pool);
    var parts := Parts(cap, pages, chain);
    ConcatLast(parts, x);
    assert Parts(cap, pages', chain) == parts[n := parts[n] + [x]];
  }

  /** Link the page `p`, with an empty block, after the last block. */
  function LinkPage(pages: Pages, z: nat, p: nat, elements: seq<nat>): Pages
    requires z in pages
  {
    pages[z := pages[z].(next := To(p))][p := Block(0, 0, Null, elements)]
  }

  lemma GrowChain(cap: nat, pages: Pages, head: nat, chain: seq<nat>, p: nat, elements: seq<nat>)
    requires chain != [] && Chain(pages, To(head), chain) && Distinct(chain) && p !in chain
    ensures Chain(LinkPage(pages, chain[|chain| - 1], p, elements), To(head), chain + [p])
  {
    var n := |chain| - 1;
    var pages' := LinkPage(pages, chain[n], p, elements);
    forall i | 0 <= i < |chain + [p]| ensures (chain + [p])[i] in pages' && pages'[(chain + [p])[i]].next == LinkAfter(chain + [p], i) {
      if i < n { assert chain[i] != chain[n]; }
    }
  }

  lemma GrowContents(cap: nat, pages: Pages, chain: seq<nat>, p: nat, elements: seq<nat>)
    requires cap > 0 && chain != [] && Distinct(chain) && p !in chain && |elements| == cap
    requires forall i :: 0 <= i < |chain| ==> chain[i] in pages && BlockOk(cap, pages[chain[i]])
    ensures var pages' := LinkPage(pages, chain[|chain| - 1], p, elements);
      && (forall i :: 0 <= i < |chain + [p]| ==> (chain + [p])[i] in pages' && BlockOk(cap, pages'[(chain + [p])[i]]))
      && Contents(cap, pages', chain + [p]) == Contents(cap, pages, chain)
  {
    hide Concat;
    var pages' := LinkPage(pages, chain[|chain| - 1], p, elements);
    var parts := Parts(cap, pages, chain);
    forall i | 0 <= i < |chain| ensures Items(cap, pages'[chain[i]]) == Items(cap, pages[chain[i]]) { }
    assert Parts(cap, pages', chain + [p]) == parts + [[]];
    ConcatSnoc(parts, []);
  }

  lemma PoolKept(pages: Pages, first: Link, list: seq<nat>, z: nat, p: nat, elements: seq<nat>)
    requires Chain(pages, first, list) && z in pages && z !in list && p !in list
    ensures Chain(LinkPage(pages, z, p, elements), first, list)
  {
  }

  /** Taking the page of a recycled block, or a fresh page. */
  lemma GrowKeeps(cap: nat, pages: Pages, head: nat, recycler: Link, chain: seq<nat>, pool: seq<nat>, p: nat, elements: seq<nat>, recycler': Link, pool': seq<nat>)
    requires Core(cap, pages, head, recycler, chain, pool) && |elements| == cap
    requires (p !in pages && recycler' == recycler && pool' == pool)
          || (pool != [] && p == pool[0] && recycler' == pages[p].next && pool' == pool[1..])
    ensures var pages' := LinkPage(pages, chain[|chain| - 1], p, elements);
      && Core(cap, pages', head, recycler', chain + [p], pool')
      && Contents(cap, pages', chain + [p]) == Contents(cap, pages, chain)
  {
    hide Concat, Items;
    DistinctSplit(chain, pool);
    assert p !in chain && p !in pool' && chain[|chain| - 1] !in pool';
    GrowChain(cap, pages, head, chain, p, elements);
    GrowContents(cap, pages, chain, p, elements);
    if pool != [] { TailChain(pages, recycler, pool); }
    PoolKept(pages, recycler', pool', chain[|chain| - 1], p, elements);
    DistinctMove(chain, pool, p, pool');
  }

  lemma TailChain(pages: Pages, first: Link, list: seq<nat>)
    requires Chain(pages, first, list) && list != []
    ensures Chain(pages, pages[list[0]].next, list[1..])
  {
    assert pages[list[0]].next == LinkAfter(list, 0);
    forall i | 0 <= i < |list| - 1 ensures pages[list[1..][i]].next == LinkAfter(list[1..], i) {
      assert pages[list[i + 1]].next == LinkAfter(list, i + 1);
    }
  }

  lemma DistinctMove(chain: seq<nat>, pool: seq<nat>, p: nat, pool': seq<nat>)
    requires Distinct(chain + pool)
    requires (p !in chain && p !in pool && pool' == pool) || (pool != [] && p == pool[0] && pool' == pool[1..])
    ensures Distinct(chain + [p] + pool')
  {
    if pool' == pool {
      var s, s' := chain + pool, chain + [p] + pool;
      forall i, j | 0 <= i < j < |s'| ensures s'[i] != s'[j] {
        var i' := if i < |chain| then i else i - 1;
        var j' := if j < |chain| then j else j - 1;
        if i != |chain| && j != |chain| { assert s[i'] == s'[i] && s[j'] == s'[j]; }
      }
    } else {
      assert chain + [p] + pool' == chain + pool;
    }
  }

  /** Give the emptied head page to the recycler. */
  lemma RecycleKeeps(cap: nat, pages: Pages, head: nat, recycler: Link, chain: seq<nat>, pool: seq<nat>)
    requires Core(cap, pages, head, recycler, chain, pool) && |chain| > 1 && pages[head].count == 0
    ensures var pages' := pages[head := pages[head].(next := recycler)];
      && Core(cap, pages', chain[1], To(head), chain[1..], [head] + pool)
      && Contents(cap, pages', chain[1..]) == Contents(cap, pages, chain)
      && pages[head].next == To(chain[1])
  {
    hide Concat, Items;
    var pages' := pages[head := pages[head].(next := recycler)];
    CoreFacts(cap, pages, head, recycler, chain, pool);
    RecycleChains(pages, head, recycler, chain, pool);
    Rotated(chain, pool);
    hide Chain, Distinct;
    var parts := Parts(cap, pages, chain);
    assert forall i :: 0 < i < |chain| ==> pages'[chain[i]] == pages[chain[i]];
    assert Parts(cap, pages', chain[1..]) == parts[1..];
    EmptyFirst(parts);
  }

  lemma RecycleChains(pages: Pages, head: nat, recycler: Link, chain: seq<nat>, pool: seq<nat>)
    requires Chain(pages, To(head), chain) && Chain(pages, recycler, pool) && Distinct(chain + pool) && |chain| > 1
    ensures var pages' := pages[head := pages[head].(next := recycler)];
      Chain(pages', To(chain[1]), chain[1..]) && Chain(pages', To(head), [head] + pool) && head !in chain[1..]
  {
    var pages' := pages[head := pages[head].(next := recycler)];
    DistinctSplit(chain, pool);
    assert head == chain[0];
    TailChain(pages, To(head), chain);
    forall i | 0 <= i < |[head] + pool| ensures pages'[([head] + pool)[i]].next == LinkAfter([head] + pool, i) { }
  }

  lemma EmptyFirst(parts: seq<seq<nat>>)
    requires parts != [] && parts[0] == []
    ensures Concat(parts) == Concat(parts[1..])
  {
  }

  lemma Rotated(chain: seq<nat>, pool: seq<nat>)
    requires chain != [] && Distinct(chain + pool)
    ensures Distinct(chain[1..] + ([chain[0]] + pool))
  {
    var s, s', n := chain + pool, chain[1..] + ([chain[0]] + pool), |chain| - 1;
    forall i, j | 0 <= i < j < |s'| ensures s'[i] != s'[j] {
      var i' := if i < n then i + 1 else if i == n then 0 else i;
      var j' := if j < n then j + 1 else if j == n then 0 else j;
      assert s[i'] == s'[i] && s[j'] == s'[j];
    }
  }

  lemma TakeHead(cap: nat, pages: Pages, head: nat, recycler: Link, chain: seq<nat>, pool: seq<nat>)
    requires Core(cap, pages, head, recycler, chain, pool) && pages[head].count > 0
    ensures var pages' := pages[head := pages[head].(count := pages[head].count - 1)];
      && Core(cap, pages', head, recycler, chain, pool)
      && Contents(cap, pages, chain) != [] && Oldest(cap, pages[head]) == Contents(cap, pages, chain)[0]
      && Contents(cap, pages', chain) == Contents(cap, pages, chain)[1..]
  {
    hide Concat, Items;
    var pages' := pages[head := pages[head].(count := pages[head].count - 1)];
    CoreFacts(cap, pages, head, recycler, chain, pool);
    TakeItems(cap, pages[head]);
    var parts := Parts(cap, pages, chain);
    ConcatFirst(parts);
    assert Parts(cap, pages', chain) == parts[0 := parts[0][1..]];
  }

  /** The test of the mark loop: the head block's count is zero exactly when the queue is empty. */
  lemma HeadCount(cap: nat, pages: Pages, head: nat, recycler: Link, chain: seq<nat>, pool: seq<nat>)
    requires Core(cap, pages, head, recycler, chain, pool) && Counts(pages, chain)
    ensures pages[head].count == 0 <==> Contents(cap, pages, chain) == []
  {
    var parts := Parts(cap, pages, chain);
    if pages[head].count == 0 {
      assert pages[chain[0]].count == 0;
      assert parts == [[]];
      EmptyFirst(parts);
    } else {
      TakeHead(cap, pages, head, recycler, chain, pool);
    }
  }

  /** All but the last block hold something. */
  ghost predicate Filled(pages: Pages, chain: seq<nat>) {
    forall i :: 0 <= i < |chain| - 1 && chain[i] in pages ==> pages[chain[i]].count > 0
  }

  lemma AppendCounts(cap: nat, pages: Pages, chain: seq<nat>, x: nat)
    requires chain != [] && (forall i :: 0 <= i < |chain| ==> chain[i] in pages)
    requires Filled(pages, chain) && pages[chain[|chain| - 1]].tail < |pages[chain[|chain| - 1]].elements|
    ensures var z := chain[|chain| - 1]; Counts(pages[z := Append(cap, pages[z], x)], chain)
  {
    var z := chain[|chain| - 1];
    var pages' := pages[z := Append(cap, pages[z], x)];
    forall i | 0 <= i < |chain| ensures pages'[chain[i]].count > 0 { }
  }

  lemma CoreFacts(cap: nat, pages: Pages, head: nat, recycler: Link, chain: seq<nat>, pool: seq<nat>)
    requires Core(cap, pages, head, recycler, chain, pool)
    ensures chain != [] && (forall i :: 0 <= i < |chain| ==> chain[i] in pages && BlockOk(cap, pages[chain[i]]))
    ensures head == chain[0] && pages[head].next == LinkAfter(chain, 0)
    ensures Distinct(chain)
  {
    DistinctSplit(chain, pool);
    assert pages[chain[0]].next == LinkAfter(chain, 0);
  }

  lemma PoolFirst(cap: nat, pages: Pages, head: nat, recycler: Link, chain: seq<nat>, pool: seq<nat>)
    requires Core(cap, pages, head, recycler, chain, pool) && recycler.To?
    ensures pool != [] && pool[0] == recycler.page && pool[0] in pages && BlockOk(cap, pages[pool[0]]) && pool[0] !in chain
  {
    DistinctSplit(chain, pool);
  }

  /** Linking a page changes no count but its own. */
  lemma LinkCounts(pages: Pages, chain: seq<nat>, p: nat, elements: seq<nat>)
    requires chain != [] && (forall i :: 0 <= i < |chain| ==> chain[i] in pages) && p !in chain
    ensures var pages' := LinkPage(pages, chain[|chain| - 1], p, elements);
      && pages'[p].count == 0 && pages'.Keys == pages.Keys + {p}
      && forall i :: 0 <= i < |chain| ==> chain[i] in pages' && pages'[chain[i]].count == pages[chain[i]].count
  {
  }

  lemma StillCounts(pages: Pages, chain: seq<nat>, b: Block)
    requires Counts(pages, chain) && Distinct(chain) && chain != []
    ensures b.count > 0 || |chain| == 1 ==> Counts(pages[chain[0] := b], chain)
  {
  }

  lemma TakeCounts(pages: Pages, chain: seq<nat>, b: Block)
    requires Counts(pages, chain) && Distinct(chain) && chain != [] && b.count == 0
    ensures Counts(pages[chain[0] := b], chain[1..])
  {
  }

  class Queue {
    const cap: nat
    var pages: Pages
    var head: nat
    var last: nat
    var recycler: Link
    ghost var chain: seq<nat>    // pages from head to last
    ghost var pool: seq<nat>     // pages from recycler on

    ghost predicate Valid()
      reads this
    {
      && Core(cap, pages, head, recycler, chain, pool)
      && Counts(pages, chain)
      && last == chain[|chain| - 1]
    }

    ghost function Queued(): seq<nat>
      reads this
      requires Valid()
    {
      Contents(cap, pages, chain)
    }

    constructor (cap: nat, page: nat)
      requires cap > 0
      ensures Valid() && Queued() == [] && this.cap == cap && pages.Keys == {page}
    {
      this.cap := cap;
      pages := map[page := Block(0, 0, Null, seq(cap, _ => 0))];
      head, last, recycler, chain, pool := page, page, Null, [page], [];
      new;
      HeadCount(cap, pages, head, recycler, chain, pool);
    }

    /** Link another block after the last one: a recycled page if there is one, else `page`. */
    method Grow(page: nat)
      requires Valid() && page !in pages
      modifies this
      ensures Core(cap, pages, head, recycler, chain, pool) && last == chain[|chain| - 1]
      ensures Contents(cap, pages, chain) == old(Queued())
      ensures chain == old(chain) + [last] && pages[last].count == 0
      ensures forall i :: 0 <= i < |chain| - 1 ==> pages[chain[i]].count == old(pages)[chain[i]].count
      ensures pages.Keys == old(pages.Keys) + if old(recycler).To? then {} else {page}
    {
      hide Core, Contents, LinkPage;
      CoreFacts(cap, pages, head, recycler, chain, pool);
      if recycler.To? {
        PoolFirst(cap, pages, head, recycler, chain, pool);
        var next := recycler.page;
        GrowKeeps(cap, pages, head, recycler, chain, pool, next, pages[next].elements, pages[next].next, pool[1..]);
        LinkCounts(pages, chain, next, pages[next].elements);
        recycler := pages[next].next;
        pages := LinkPage(pages, last, next, pages[next].elements);
        last, chain, pool := next, chain + [next], pool[1..];
      } else {
        var elements := seq(cap, _ => 0);
        GrowKeeps(cap, pages, head, recycler, chain, pool, page, elements, recycler, pool);
        LinkCounts(pages, chain, page, elements);
        pages := LinkPage(pages, last, page, elements);
        last, chain := page, chain + [page];
      }
    }

    /** Add `x` at the back. `page` is what the page allocator would hand out next. */
    method Enqueue(x: nat, page: nat)
      requires Valid() && page !in pages
      modifies this
      ensures Valid() && Queued() == old(Queued()) + [x]
      ensures pages.Keys == old(pages.Keys) || (old(recycler) == Null && pages.Keys == old(pages.Keys) + {page})
    {
      hide Core, Contents;
      CoreFacts(cap, pages, head, recycler, chain, pool);
      if pages[last].count == cap { Grow(page); }
      CoreFacts(cap, pages, head, recycler, chain, pool);
      AppendCounts(cap, pages, chain, x);
      AppendLast(cap, pages, head, recycler, chain, pool, x);
      pages := pages[last := Append(cap, pages[last], x)];
    }

    /** Remove from the front; a block that empties and is not the last goes to the recycler. */
    method Dequeue() returns (x: nat)
      requires Valid() && Queued() != []
      modifies this
      ensures Valid() && x == old(Queued())[0] && Queued() == old(Queued())[1..]
      ensures pages.Keys == old(pages.Keys)
    {
      hide Core, Contents, Counts;
      HeadCount(cap, pages, head, recycler, chain, pool);
      CoreFacts(cap, pages, head, recycler, chain, pool);
      TakeHead(cap, pages, head, recycler, chain, pool);
      var block := head;
      x := Oldest(cap, pages[block]);
      ghost var before := pages;
      pages := pages[block := pages[block].(count := pages[block].count - 1)];
      StillCounts(before, chain, pages[block]);
      if pages[block].count == 0 {
        match pages[block].next {
          case To(next) =>
            RecycleKeeps(cap, pages, head, recycler, chain, pool);
            TakeCounts(before, chain, pages[block].(next := recycler));
            head := next;
            pages := pages[block := pages[block].(next := recycler)];
            assert pages == before[block := pages[block]];
            recycler := To(block);
            chain, pool := chain[1..], [block] + pool;
          case Null =>
        }
      }
    }

    /** What the mark loop tests. */
    lemma EmptyTest()
      requires Valid()
      ensures head in pages && (pages[head].count == 0 <==> Queued() == [])
    {
      CoreFacts(cap, pages, head, recycler, chain, pool);
      HeadCount(cap, pages, head, recycler, chain, pool);
    }
  }
}
