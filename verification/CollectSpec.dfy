/** Culling after the scan, and what a whole collection amounts to: the copies, the dead entries
    removed, and the lists of culled cells that culling itself allocates in new space. */
module CollectSpec {
  import opened HeapWords
  import opened CopySpec
  import W = WeakCull

  // ---- Entries ----

  /** What culling leaves of an entry. */
  function CullPair(f: map<nat, Cell>, kind: Kind, e: Pair): Pair
    requires kind.WeakTable?
  {
    if EntryAlive(f, kind, e) then Pair(Image(f, e.key), Image(f, e.value)) else EmptyPair
  }

  predicate BothSurvive(f: map<nat, Cell>, e: Pair) {
    Survived(f, e.key) && Survived(f, e.value)
  }

  /** A dead entry is gone; of a live one both halves have survived and point to the copies. */
  predicate FinalPair(f: map<nat, Cell>, kind: Kind, e: Pair, e': Pair)
    requires kind.WeakTable?
  {
    e' == CullPair(f, kind, e) && (EntryAlive(f, kind, e) ==> BothSurvive(f, e))
  }

  predicate ReadyPair(f: map<nat, Cell>, kind: Kind, e: Pair, e': Pair)
    requires kind.WeakTable?
  {
    (EntryAlive(f, kind, e) ==> BothSurvive(f, e)) && (e' == e || FinalPair(f, kind, e, e'))
  }

  /** The liveness test and the pointer fixing of this collection, for the walk over chains. */
  function RulesOf(f: map<nat, Cell>, kind: Kind): (rules: W.Rules) {
    W.Rules((p: Pair) => kind.WeakTable? && EntryAlive(f, kind, p),
            (p: Pair) => Pair(Image(f, p.key), Image(f, p.value)),
            (_: Word) => false)
  }

  /** The walk over linked chains culls every entry, if every entry present is in a chain. */
  lemma ChainWalkCulls(f: map<nat, Cell>, kind: Kind, chains: seq<seq<nat>>, was: seq<Pair>, now: seq<Pair>)
    requires kind.WeakTable? && Bucketed(chains, was)
    requires W.PairsDone(RulesOf(f, kind), was, now, W.CellsUpTo(chains, |chains|))
    ensures |now| == |was| && forall i :: 0 <= i < |was| ==> now[i] == CullPair(f, kind, was[i])
  {
    forall i | 0 <= i < |was| ensures now[i] == CullPair(f, kind, was[i]) {
      if was[i] != EmptyPair {
        assert InSomeBucket(chains, i);
        assert i in W.CellsUpTo(chains, |chains|);
      }
    }
  }

  /** Chains that are linked through vectors over the entries are buckets. */
  lemma LinkedIsBucketed(next: seq<nat>, index: seq<nat>, chains: seq<seq<nat>>, pairs: seq<Pair>)
    requires W.Chains(next, index, chains) && |next| == |pairs|
    requires forall i :: 0 <= i < |pairs| && pairs[i] != EmptyPair ==> InSomeBucket(chains, i)
    ensures Bucketed(chains, pairs)
  {
    hide W.Linked;
    forall b, j | 0 <= b < |chains| && 0 <= j < |chains[b]| ensures chains[b][j] < |pairs| {
      W.ChainTail(next, index[b], chains[b], j);
      W.FirstInside(next, chains[b][j], chains[b][j..]);
    }
  }

  // ---- Lists of culled cells ----

  function CellWords(c: W.CulledCell): (n: nat) {
    if c.Small? then 2 else 4
  }

  function ListWords(cells: seq<W.CulledCell>): (n: nat) {
    if cells == [] then 0 else CellWords(cells[0]) + ListWords(cells[1..])
  }

  function Cons(car: Word, cdr: Word): (o: Obj) {
    Obj(ConsCell, [car, cdr], [])
  }

  /** The cons at `p` records `c` and is followed by `cdr`. */
  ghost predicate CellAt(news: Heap, p: nat, c: W.CulledCell, cdr: Word) {
    p in news && match c
      case Small(bits) => news[p] == Cons(Imm(bits), cdr)
      case Large(index, bucket) =>
        news[p] == Cons(New(p + 2), cdr) && p + 2 in news && news[p + 2] == Cons(Imm(index), Imm(bucket))
  }

  /** The list at `w` consists of new conses, at `lo` or above, for `cells` and then of `tail`. */
  ghost predicate ListAt(lo: nat, news: Heap, w: Word, cells: seq<W.CulledCell>, tail: Word)
    decreases |cells|
  {
    if cells == [] then w == tail
    else
      && w.New? && lo <= w.addr && w.addr in news && |news[w.addr].words| == 2
      && CellAt(news, w.addr, cells[0], news[w.addr].words[1])
      && ListAt(lo, news, news[w.addr].words[1], cells[1..], tail)
  }

  /** The addresses of those conses. */
  ghost function Spots(news: Heap, w: Word, cells: seq<W.CulledCell>): (spots: set<nat>)
    decreases |cells|
  {
    if cells == [] || !w.New? || w.addr !in news || |news[w.addr].words| != 2 then {}
    else {w.addr} + (if cells[0].Large? then {w.addr + 2} else {}) + Spots(news, news[w.addr].words[1], cells[1..])
  }

  /** A list does not notice changes below it, nor new objects. */
  lemma {:induction false} ListFrame(lo: nat, news: Heap, news': Heap, w: Word, cells: seq<W.CulledCell>, tail: Word)
    requires ListAt(lo, news, w, cells, tail)
    requires forall q :: q in news && lo <= q ==> q in news' && news'[q] == news[q]
    ensures ListAt(lo, news', w, cells, tail) && Spots(news', w, cells) == Spots(news, w, cells)
    ensures forall q :: q in Spots(news, w, cells) ==> lo <= q && q in news
    decreases |cells|
  {
    if cells != [] { ListFrame(lo, news, news', news[w.addr].words[1], cells[1..], tail); }
  }

  /** Allocate the conses that record `c` in front of `cdr`. */
  function Allocate(news: Heap, free: nat, c: W.CulledCell, cdr: Word): (r: Heap) {
    match c
    case Small(bits) => news[free := Cons(Imm(bits), cdr)]
    case Large(index, bucket) => news[free := Cons(New(free + 2), cdr)][free + 2 := Cons(Imm(index), Imm(bucket))]
  }

  lemma Pushed(lo: nat, news: Heap, free: nat, c: W.CulledCell, w: Word, cells: seq<W.CulledCell>, tail: Word)
    requires ListAt(lo, news, w, cells, tail) && lo <= free && forall q :: q in news ==> q < free
    ensures var news' := Allocate(news, free, c, w);
      && ListAt(lo, news', New(free), [c] + cells, tail)
      && Spots(news', New(free), [c] + cells) == {free} + (if c.Large? then {free + 2} else {}) + Spots(news, w, cells)
      && (forall q :: q in news ==> q in news' && news'[q] == news[q])
      && (forall q :: q in news' ==> q < free + CellWords(c) && (q in news || q in Spots(news', New(free), [c] + cells)))
  {
    var news' := Allocate(news, free, c, w);
    ListFrame(lo, news, news', w, cells, tail);
    var more := [c] + cells;
    assert more[1..] == cells && news'[free].words[1] == w;
  }

  /** From `lo` to `free` new space consists of conses, one at every even address. */
  ghost predicate ConsArea(news: Heap, lo: nat, free: nat) {
    && lo <= free && lo % 2 == 0 && free % 2 == 0
    && (forall q :: q in news && lo <= q ==> q < free && q % 2 == 0 && news[q].kind.ConsCell?)
    && (forall q: nat :: lo <= q < free && q % 2 == 0 ==> q in news)
  }

  lemma AreaGrows(news: Heap, lo: nat, free: nat, c: W.CulledCell, cdr: Word)
    requires ConsArea(news, lo, free)
    ensures ConsArea(Allocate(news, free, c, cdr), lo, free + CellWords(c))
  {
  }

  lemma AreaFrame(news: Heap, lo: nat, free: nat, p: nat, o: Obj)
    requires ConsArea(news, lo, free) && p < lo && p in news
    ensures ConsArea(news[p := o], lo, free)
  {
  }

  // ---- One object under culling ----

  ghost function AllCells(kind: Kind): (cells: set<nat>)
    requires kind.WeakTable?
  {
    W.CellsUpTo(kind.chains, |kind.chains|)
  }

  /** Whether word `i` is the list of culled cells, which culling changes. */
  predicate IsCellList(kind: Kind, i: nat) {
    kind.WeakTable? && i == 0
  }

  /**
   * A scanned copy `o'` of `o` whose entries in `done` have been culled, with `cells` recording
   * those of them that died.  All other words have been scavenged.
   */
  ghost predicate CulledTo(f: map<nat, Cell>, o: Obj, o': Obj, cells: seq<W.CulledCell>, done: set<nat>) {
    && o'.kind == o.kind && |o'.words| == |o.words| && |o'.pairs| == |o.pairs|
    && (forall i :: 0 <= i < |o.words| ==> Survived(f, o.words[i]) && (IsCellList(o.kind, i) || Done(f, o.words[i], o'.words[i])))
    && (|o.pairs| > 0 ==> o.kind.WeakTable?)
    && (forall j :: 0 <= j < |o.pairs| ==> ReadyPair(f, o.kind, o.pairs[j], o'.pairs[j]))
    && (forall j :: 0 <= j < |o.pairs| && j in done ==> FinalPair(f, o.kind, o.pairs[j], o'.pairs[j]))
    && (forall j :: 0 <= j < |o.pairs| && j !in done && !EntryAlive(f, o.kind, o.pairs[j]) ==> o'.pairs[j] == o.pairs[j])
    && (if o.kind.WeakTable? then W.CellsDone(RulesOf(f, o.kind), o.pairs, o.kind.chains, cells, done) else cells == [])
  }

  /** With no trigger left to fire, a deferred entry that is alive has two surviving halves. */
  lemma DeferredQuiet(f: map<nat, Cell>, t: map<nat, seq<Word>>, kind: Kind, e: Pair)
    requires kind.WeakTable? && Deferred(f, t, kind, e) && Quiet(f, t)
    ensures EntryAlive(f, kind, e) ==> BothSurvive(f, e)
  {
    assert forall w: Word :: w.From? ==> Survived(f, w) == Survived(f, From(w.addr));
  }

  /** A scanned copy is ready to be culled; one that was not put off has nothing to cull. */
  lemma ScannedReady(heap: Heap, f: map<nat, Cell>, t: map<nat, seq<Word>>, l: bool, o: Obj, o': Obj)
    requires Scanned(f, t, l, o, o') && Quiet(f, t) && WfObj(heap, o)
    ensures CulledTo(f, o, o', [], {})
    ensures !l && o.kind.WeakTable? ==> CulledTo(f, o, o', [], AllCells(o.kind))
  {
    forall j | 0 <= j < |o.pairs|
      ensures ReadyPair(f, o.kind, o.pairs[j], o'.pairs[j])
      ensures !l ==> FinalPair(f, o.kind, o.pairs[j], o'.pairs[j]) && EntryAlive(f, o.kind, o.pairs[j])
    {
      if !DonePair(f, o.pairs[j], o'.pairs[j]) { DeferredQuiet(f, t, o.kind, o.pairs[j]); }
    }
  }

  /** The state of table `p` while it is being culled, its new conses lying at `lo` or above. */
  ghost predicate TableOk(f: map<nat, Cell>, o: Obj, lo: nat, news: Heap, free: nat, p: nat, cells: seq<W.CulledCell>, done: set<nat>) {
    && p in news && p < lo <= free && (forall q :: q in news ==> q < free) && ConsArea(news, lo, free)
    && o.kind.WeakTable? && |o.words| > 0 && |news[p].words| > 0
    && CulledTo(f, o, news[p], cells, done)
    && ListAt(lo, news, news[p].words[0], cells, Image(f, o.words[0]))
  }

  /** What culling table `p` does to the rest of new space: nothing, but for the conses it allocates. */
  ghost predicate Extended(p: nat, news: Heap, free: nat, cells: seq<W.CulledCell>, news': Heap, free': nat, cells': seq<W.CulledCell>) {
    && (forall q :: q in news ==> q in news' && (q != p ==> news'[q] == news[q]))
    && free' == free + ListWords(cells') - ListWords(cells)
    && p in news && |news[p].words| > 0 && p in news' && |news'[p].words| > 0
    && Spots(news, news[p].words[0], cells) <= Spots(news', news'[p].words[0], cells')
    && (forall q :: q in news' ==> q in news || q in Spots(news', news'[p].words[0], cells'))
  }

  lemma ExtendedRefl(p: nat, news: Heap, free: nat, cells: seq<W.CulledCell>)
    requires p in news && |news[p].words| > 0
    ensures Extended(p, news, free, cells, news, free, cells)
  {
  }

  lemma TableShape(f: map<nat, Cell>, o: Obj, o': Obj, cells: seq<W.CulledCell>, done: set<nat>)
    requires CulledTo(f, o, o', cells, done)
    ensures o'.kind == o.kind && |o'.words| == |o.words| && |o'.pairs| == |o.pairs|
  {
  }

  lemma BucketInside(chains: seq<seq<nat>>, pairs: seq<Pair>, b: nat)
    requires Bucketed(chains, pairs) && b < |chains|
    ensures forall i :: i in chains[b] ==> i < |pairs|
  {
  }

  lemma BucketNext(done: set<nat>, chains: seq<seq<nat>>, b: nat)
    requires b < |chains|
    ensures done + W.CellsUpTo(chains, b) + W.CellsOf(chains[b]) == done + W.CellsUpTo(chains, b + 1)
  {
  }

  /** An entry that is not dead: its pointers are followed, or it was empty. */
  lemma CullLive(f: map<nat, Cell>, o: Obj, o': Obj, cells: seq<W.CulledCell>, done: set<nat>, i: nat)
    requires CulledTo(f, o, o', cells, done) && o.kind.WeakTable? && i < |o.pairs|
    requires EntryAlive(f, o.kind, o'.pairs[i])
    ensures CulledTo(f, o, SetPair(o', i, CullPair(f, o.kind, o'.pairs[i])), cells, done + {i})
    ensures o'.pairs[i] == EmptyPair ==> CulledTo(f, o, o', cells, done + {i})
  {
    hide W.CellsDone;
    if EntryAlive(f, o.kind, o.pairs[i]) {
      W.CellsSame(RulesOf(f, o.kind), o.pairs, o.kind.chains, cells, done, i);
    } else {
      assert done + {i} == done;
    }
  }

  /** A dead entry is emptied and recorded. */
  lemma CullDead(f: map<nat, Cell>, o: Obj, o': Obj, cells: seq<W.CulledCell>, done: set<nat>, i: nat, b: nat, w: Word)
    requires CulledTo(f, o, o', cells, done) && o.kind.WeakTable? && i < |o.pairs| && |o.words| > 0
    requires !EntryAlive(f, o.kind, o'.pairs[i]) && b < |o.kind.chains| && i in o.kind.chains[b]
    ensures CulledTo(f, o, SetWord(SetPair(o', i, EmptyPair), 0, w), [W.PackCell(i, b)] + cells, done + {i})
  {
    hide W.CellsDone, W.PackCell;
    assert i !in done && o'.pairs[i] == o.pairs[i];
    W.CellsPush(RulesOf(f, o.kind), o.pairs, o.kind.chains, cells, done, i, b);
  }

  /** The same for the table in new space, with the cell allocated. */
  lemma CullDeadKeeps(f: map<nat, Cell>, o: Obj, lo: nat, news0: Heap, free0: nat, cells0: seq<W.CulledCell>,
                      news: Heap, free: nat, p: nat, cells: seq<W.CulledCell>, done: set<nat>, i: nat, b: nat)
    requires TableOk(f, o, lo, news, free, p, cells, done) && Extended(p, news0, free0, cells0, news, free, cells)
    requires i < |o.pairs| == |news[p].pairs| && !EntryAlive(f, o.kind, news[p].pairs[i])
    requires b < |o.kind.chains| && i in o.kind.chains[b]
    ensures var c := W.PackCell(i, b);
      var o' := SetWord(SetPair(news[p], i, EmptyPair), 0, New(free));
      var news' := Allocate(news, free, c, news[p].words[0])[p := o'];
      && TableOk(f, o, lo, news', free + CellWords(c), p, [c] + cells, done + {i})
      && Extended(p, news0, free0, cells0, news', free + CellWords(c), [c] + cells)
  {
    hide CulledTo, W.PackCell, ListAt, Spots, Allocate, ConsArea;
    var c := W.PackCell(i, b);
    var w := news[p].words[0];
    var o' := SetWord(SetPair(news[p], i, EmptyPair), 0, New(free));
    var grown := Allocate(news, free, c, w);
    CullDead(f, o, news[p], cells, done, i, b, New(free));
    Pushed(lo, news, free, c, w, cells, Image(f, o.words[0]));
    ListFrame(lo, grown, grown[p := o'], New(free), [c] + cells, Image(f, o.words[0]));
    ListWordsPush(c, cells);
    AreaGrows(news, lo, free, c, w);
    AreaFrame(grown, lo, free + CellWords(c), p, o');
  }

  lemma ListWordsPush(c: W.CulledCell, cells: seq<W.CulledCell>)
    ensures ListWords([c] + cells) == CellWords(c) + ListWords(cells)
  {
    assert ([c] + cells)[1..] == cells;
  }

  lemma CullLiveKeeps(f: map<nat, Cell>, o: Obj, lo: nat, news0: Heap, free0: nat, cells0: seq<W.CulledCell>,
                      news: Heap, free: nat, p: nat, cells: seq<W.CulledCell>, done: set<nat>, i: nat)
    requires TableOk(f, o, lo, news, free, p, cells, done) && Extended(p, news0, free0, cells0, news, free, cells)
    requires i < |o.pairs| == |news[p].pairs| && EntryAlive(f, o.kind, news[p].pairs[i])
    ensures var news' := news[p := SetPair(news[p], i, CullPair(f, o.kind, news[p].pairs[i]))];
      && TableOk(f, o, lo, news', free, p, cells, done + {i})
      && Extended(p, news0, free0, cells0, news', free, cells)
    ensures news[p].pairs[i] == EmptyPair ==> TableOk(f, o, lo, news, free, p, cells, done + {i})
  {
    hide CulledTo, ListAt, Spots, ConsArea;
    var news' := news[p := SetPair(news[p], i, CullPair(f, o.kind, news[p].pairs[i]))];
    CullLive(f, o, news[p], cells, done, i);
    AreaFrame(news, lo, free, p, news'[p]);
    ListFrame(lo, news, news', news[p].words[0], cells, Image(f, o.words[0]));
  }

  // ---- All objects under culling ----

  ghost function DoneSet(o: Obj, waiting: bool): (done: set<nat>) {
    if o.kind.WeakTable? && !waiting then AllCells(o.kind) else {}
  }

  function TotalWords(lists: seq<seq<W.CulledCell>>): (n: nat) {
    if lists == [] then 0 else TotalWords(lists[..|lists| - 1]) + ListWords(lists[|lists| - 1])
  }

  lemma {:induction false} TotalWordsUpdate(lists: seq<seq<W.CulledCell>>, k: nat, cells: seq<W.CulledCell>)
    requires k < |lists|
    ensures TotalWords(lists[k := cells]) == TotalWords(lists) - ListWords(lists[k]) + ListWords(cells)
  {
    var last := |lists| - 1;
    if k < last {
      TotalWordsUpdate(lists[..last], k, cells);
      assert lists[k := cells][..last] == lists[..last][k := cells];
    } else {
      assert lists[k := cells][..last] == lists[..last];
    }
  }

  lemma {:induction false} NoWords(lists: seq<seq<W.CulledCell>>)
    requires forall k :: 0 <= k < |lists| ==> lists[k] == []
    ensures TotalWords(lists) == 0
  {
    if lists != [] { NoWords(lists[..|lists| - 1]); }
  }

  /** Copy `k` of the scan, as it is in `news`, has been culled unless it is waiting. */
  ghost predicate CopyCulled(heap: Heap, s: Space, news: Heap, k: nat, cells: seq<W.CulledCell>, waiting: bool)
    requires k < |s.at| == |s.order|
  {
    && s.order[k] in heap && s.at[k] in news && s.at[k] < s.free
    && var o, o' := heap[s.order[k]], news[s.at[k]];
       && CulledTo(s.from, o, o', cells, DoneSet(o, waiting))
       && (o.kind.WeakTable? ==>
             |o.words| > 0 && |o'.words| > 0 && ListAt(s.free, news, o'.words[0], cells, Image(s.from, o.words[0])))
  }

  /** Object `q` is one of the conses in the list of copy `k`. */
  ghost predicate InList(s: Space, news: Heap, lists: seq<seq<W.CulledCell>>, k: nat, q: nat) {
    && k < |s.at| && k < |lists| && s.at[k] in news && |news[s.at[k]].words| > 0
    && q in Spots(news, news[s.at[k]].words[0], lists[k])
  }

  ghost predicate InSomeList(s: Space, news: Heap, lists: seq<seq<W.CulledCell>>, q: nat) {
    exists k: nat :: InList(s, news, lists, k, q)
  }

  /** The copies outside `rest` have been culled; `lists` are the cells recorded for each copy, and
      new space holds the copies and those cells. */
  ghost predicate Culling(heap: Heap, s: Space, news: Heap, free: nat, rest: set<nat>, lists: seq<seq<W.CulledCell>>) {
    && |lists| == |s.at| == |s.order|
    && (forall k: nat :: k < |s.at| ==> CopyCulled(heap, s, news, k, lists[k], s.at[k] in rest))
    && (forall q :: q in s.news ==> q in news)
    && (forall q :: q in news ==> q < free && (q in s.news || InSomeList(s, news, lists, q)))
    && s.free <= free == s.free + TotalWords(lists)
    && ConsArea(news, s.free, free)
  }

  lemma CullStart(heap: Heap, roots: seq<Word>, s: Space, lists: seq<seq<W.CulledCell>>)
    requires Inv(heap, roots, s, |s.order|) && Quiet(s.from, s.triggers)
    requires |lists| == |s.at| && forall k :: 0 <= k < |lists| ==> lists[k] == []
    ensures Culling(heap, s, s.news, s.free, s.deferred, lists)
  {
    hide Tiled, Linked, Sound, Scanned, Fresh, CulledTo, WfObj, Quiet;
    NoWords(lists);
    TiledEven(heap, s.order, s.at, s.free);
    forall k: nat | k < |s.at| ensures CopyCulled(heap, s, s.news, k, lists[k], s.at[k] in s.deferred) {
      var o, o' := heap[s.order[k]], s.news[s.at[k]];
      BelowFree(heap, s, k);
      ScannedReady(heap, s.from, s.triggers, s.at[k] in s.deferred, o, o');
      ScannedWords(heap, s.from, s.triggers, s.at[k] in s.deferred, o, o');
    }
    forall q | q in s.news ensures q < s.free { NewsBelow(heap, s, q); }
  }

  lemma ScannedWords(heap: Heap, f: map<nat, Cell>, t: map<nat, seq<Word>>, l: bool, o: Obj, o': Obj)
    requires Scanned(f, t, l, o, o') && WfObj(heap, o)
    ensures o.kind.WeakTable? ==> |o.words| > 0 && |o'.words| > 0 && o'.words[0] == Image(f, o.words[0])
  {
  }

  lemma NewsBelow(heap: Heap, s: Space, q: nat)
    requires Tiled(heap, s.order, s.at, s.free) && Linked(heap, s.from, s.news.Keys, s.order, s.at) && q in s.news
    ensures q < s.free
  {
    hide Tiled;
    var k: nat :| k < |s.at| && s.at[k] == q;
    BelowFree(heap, s, k);
  }

  /** The copy to be culled, and its state for the walk over its chains. */
  lemma CullIndex(heap: Heap, roots: seq<Word>, s: Space, news: Heap, free: nat, rest: set<nat>, lists: seq<seq<W.CulledCell>>, p: nat)
    returns (k: nat)
    requires Inv(heap, roots, s, |s.order|) && Culling(heap, s, news, free, rest, lists) && p in s.deferred
    ensures k < |s.at| == |s.order| == |lists| && s.at[k] == p && s.order[k] in heap
    ensures TableOk(s.from, heap[s.order[k]], s.free, news, free, p, lists[k], DoneSet(heap[s.order[k]], p in rest))
    ensures WfObj(heap, heap[s.order[k]]) && heap[s.order[k]].kind.WeakTable?
  {
    hide Tiled, Linked, Sound, Fresh, WfObj, InSomeList;
    k :| k < |s.at| && s.at[k] == p;
    assert Scanned(s.from, s.triggers, true, heap[s.order[k]], s.news[p]);
    assert CopyCulled(heap, s, news, k, lists[k], p in rest);
  }

  lemma AtDistinct(heap: Heap, s: Space, i: nat, j: nat)
    requires Tiled(heap, s.order, s.at, s.free) && i < |s.at| && j < |s.at| && s.at[i] == s.at[j]
    ensures i == j
  {
  }

  /** A copy other than the one being culled does not change. */
  lemma CopyStays(heap: Heap, s: Space, news: Heap, news': Heap, k: nat, cells: seq<W.CulledCell>, waiting: bool, p: nat)
    requires k < |s.at| == |s.order| && CopyCulled(heap, s, news, k, cells, waiting) && s.at[k] != p && p < s.free
    requires forall q :: q in news ==> q in news' && (q != p ==> news'[q] == news[q])
    ensures CopyCulled(heap, s, news', k, cells, waiting)
    ensures |news[s.at[k]].words| > 0 && heap[s.order[k]].kind.WeakTable? ==>
      Spots(news', news[s.at[k]].words[0], cells) == Spots(news, news[s.at[k]].words[0], cells)
    ensures heap[s.order[k]].kind.WeakTable? || cells == []
  {
    hide ListAt, Spots, W.CellsDone, FinalPair, ReadyPair;
    var o := heap[s.order[k]];
    if o.kind.WeakTable? {
      ListFrame(s.free, news, news', news[s.at[k]].words[0], cells, Image(s.from, o.words[0]));
    }
  }

  /** The step from `news` to `news'` culls copy `k`, which is a weak table. */
  ghost predicate OneCulled(heap: Heap, s: Space, news: Heap, free: nat, lists: seq<seq<W.CulledCell>>, k: nat,
                            news': Heap, free': nat, cells: seq<W.CulledCell>) {
    && k < |s.at| == |s.order| == |lists| && s.at[k] in news && s.at[k] < s.free && Tiled(heap, s.order, s.at, s.free)
    && s.order[k] in heap && heap[s.order[k]].kind.WeakTable?
    && TableOk(s.from, heap[s.order[k]], s.free, news', free', s.at[k], cells, AllCells(heap[s.order[k]].kind))
    && Extended(s.at[k], news, free, lists[k], news', free', cells)
  }

  lemma CopyAfter(heap: Heap, s: Space, news: Heap, free: nat, rest: set<nat>, lists: seq<seq<W.CulledCell>>, k: nat,
                  news': Heap, free': nat, cells: seq<W.CulledCell>, j: nat)
    requires Culling(heap, s, news, free, rest, lists) && j < |s.at|
    requires OneCulled(heap, s, news, free, lists, k, news', free', cells)
    ensures CopyCulled(heap, s, news', j, lists[k := cells][j], s.at[j] in rest - {s.at[k]})
  {
    hide CulledTo, ListAt, Spots, Tiled, InSomeList;
    if j != k {
      if s.at[j] == s.at[k] { AtDistinct(heap, s, j, k); }
      CopyStays(heap, s, news, news', j, lists[j], s.at[j] in rest, s.at[k]);
    }
  }

  lemma ListAfter(heap: Heap, s: Space, news: Heap, free: nat, rest: set<nat>, lists: seq<seq<W.CulledCell>>, k: nat,
                  news': Heap, free': nat, cells: seq<W.CulledCell>, q: nat)
    requires Culling(heap, s, news, free, rest, lists)
    requires OneCulled(heap, s, news, free, lists, k, news', free', cells) && q in news'
    ensures q in s.news || InSomeList(s, news', lists[k := cells], q)
  {
    hide CulledTo, ListAt, Spots, Tiled, CopyCulled, TableOk, AllCells, InList, Extended;
    if q !in news {
      OwnList(s, news, free, lists, k, news', free', cells, q);
    } else if q !in s.news {
      var j: nat :| InList(s, news, lists, j, q);
      if j == k {
        OwnList(s, news, free, lists, k, news', free', cells, q);
      } else {
        ListIndex(s, news, lists, j, q);
        if s.at[j] == s.at[k] { AtDistinct(heap, s, j, k); }
        ExtendedFrame(s.at[k], news, free, lists[k], news', free', cells);
        OtherList(heap, s, news, rest, lists, j, s.at[k], news', q);
        SameList(s, news', lists, j, k, cells, q);
      }
    }
  }

  lemma ListIndex(s: Space, news: Heap, lists: seq<seq<W.CulledCell>>, j: nat, q: nat)
    requires InList(s, news, lists, j, q)
    ensures j < |s.at|
  {
  }

  lemma ExtendedFrame(p: nat, news: Heap, free: nat, cells: seq<W.CulledCell>, news': Heap, free': nat, cells': seq<W.CulledCell>)
    requires Extended(p, news, free, cells, news', free', cells')
    ensures forall q :: q in news ==> q in news' && (q != p ==> news'[q] == news[q])
  {
  }

  /** What was in the list of the table culled, and what is new, is in its list now. */
  lemma OwnList(s: Space, news: Heap, free: nat, lists: seq<seq<W.CulledCell>>, k: nat, news': Heap, free': nat, cells: seq<W.CulledCell>, q: nat)
    requires k < |s.at| == |lists| && s.at[k] in news && Extended(s.at[k], news, free, lists[k], news', free', cells)
    requires q in news' && (q in news ==> InList(s, news, lists, k, q))
    ensures InSomeList(s, news', lists[k := cells], q)
  {
    hide Spots;
    assert InList(s, news', lists[k := cells], k, q);
  }

  lemma SameList(s: Space, news: Heap, lists: seq<seq<W.CulledCell>>, j: nat, k: nat, cells: seq<W.CulledCell>, q: nat)
    requires InList(s, news, lists, j, q) && j != k && k < |lists|
    ensures InSomeList(s, news, lists[k := cells], q)
  {
    hide Spots;
    assert InList(s, news, lists[k := cells], j, q);
  }

  lemma OtherList(heap: Heap, s: Space, news: Heap, rest: set<nat>, lists: seq<seq<W.CulledCell>>, j: nat, p: nat, news': Heap, q: nat)
    requires j < |s.at| == |s.order| == |lists| && s.at[j] != p && p < s.free
    requires CopyCulled(heap, s, news, j, lists[j], s.at[j] in rest) && InList(s, news, lists, j, q)
    requires forall q :: q in news ==> q in news' && (q != p ==> news'[q] == news[q])
    ensures InList(s, news', lists, j, q)
  {
    hide CulledTo, ListAt, Spots;
    CopyStays(heap, s, news, news', j, lists[j], s.at[j] in rest, p);
    NoSpots(news, news[s.at[j]].words[0]);
  }

  lemma NoSpots(news: Heap, w: Word)
    ensures Spots(news, w, []) == {}
  {
  }

  /** Put together: one table culled. */
  lemma CullOne(heap: Heap, s: Space, news: Heap, free: nat, rest: set<nat>, lists: seq<seq<W.CulledCell>>, k: nat,
                news': Heap, free': nat, cells: seq<W.CulledCell>)
    requires Culling(heap, s, news, free, rest, lists)
    requires OneCulled(heap, s, news, free, lists, k, news', free', cells)
    ensures Culling(heap, s, news', free', rest - {s.at[k]}, lists[k := cells])
  {
    hide CulledTo, ListAt, Spots, Tiled, CopyCulled, InSomeList;
    TotalWordsUpdate(lists, k, cells);
    forall j: nat | j < |s.at| ensures CopyCulled(heap, s, news', j, lists[k := cells][j], s.at[j] in rest - {s.at[k]}) {
      CopyAfter(heap, s, news, free, rest, lists, k, news', free', cells, j);
    }
    forall q | q in news' ensures q in s.news || InSomeList(s, news', lists[k := cells], q) {
      ListAfter(heap, s, news, free, rest, lists, k, news', free', cells, q);
    }
  }

  lemma TableBuckets(heap: Heap, o: Obj)
    requires WfObj(heap, o) && o.kind.WeakTable?
    ensures Bucketed(o.kind.chains, o.pairs)
  {
  }

  lemma CulledTogether(heap: Heap, roots: seq<Word>, s: Space, news: Heap, free: nat, rest: set<nat>, lists: seq<seq<W.CulledCell>>, k: nat,
                       news': Heap, free': nat, cells: seq<W.CulledCell>)
    requires Inv(heap, roots, s, |s.order|) && Culling(heap, s, news, free, rest, lists)
    requires k < |s.at| == |s.order| == |lists| && s.order[k] in heap && heap[s.order[k]].kind.WeakTable?
    requires TableOk(s.from, heap[s.order[k]], s.free, news', free', s.at[k], cells, AllCells(heap[s.order[k]].kind))
    requires Extended(s.at[k], news, free, lists[k], news', free', cells)
    ensures Culling(heap, s, news', free', rest - {s.at[k]}, lists[k := cells])
  {
    hide Tiled, Linked, Copies, Sound, WfHeap, TableOk, CulledTo, ListAt, Spots, InSomeList;
    assert CopyCulled(heap, s, news, k, lists[k], s.at[k] in rest);
    CullOne(heap, s, news, free, rest, lists, k, news', free', cells);
  }

  // ---- The result ----

  ghost function LiveSet(order: seq<nat>): set<nat> {
    set a | a in order
  }

  /** A word has survived exactly when it does not point to an uncopied from-space object. */
  lemma SurvivedIn(heap: Heap, s: Space, w: Word)
    requires Linked(heap, s.from, s.news.Keys, s.order, s.at) && (w.From? ==> w.addr in heap)
    ensures Survived(s.from, w) <==> In(LiveSet(s.order), w)
  {
    if w.From? && w.addr in s.order {
      var k :| 0 <= k < |s.order| && s.order[k] == w.addr;
      assert s.from[s.order[k]].Forwarded?;
    }
  }

  lemma ScannedClosed(heap: Heap, s: Space, l: bool, o: Obj, o': Obj)
    requires Linked(heap, s.from, s.news.Keys, s.order, s.at) && WfObj(heap, o)
    requires Scanned(s.from, s.triggers, l, o, o') && Quiet(s.from, s.triggers)
    ensures ClosedAt(o, LiveSet(s.order))
  {
    hide Linked, LiveSet;
    forall i | 0 <= i < |o.words| ensures In(LiveSet(s.order), o.words[i]) { SurvivedIn(heap, s, o.words[i]); }
    if o.kind.WeakTable? {
      forall i | 0 <= i < |o.pairs| ensures Rule(o.kind, LiveSet(s.order), o.pairs[i]) {
        SurvivedIn(heap, s, o.pairs[i].key);
        SurvivedIn(heap, s, o.pairs[i].value);
        if !DonePair(s.from, o.pairs[i], o'.pairs[i]) { DeferredQuiet(s.from, s.triggers, o.kind, o.pairs[i]); }
      }
    }
  }

  /** At the fixed point, what has been copied is the least closed set. */
  lemma FixedPointIsLeast(heap: Heap, roots: seq<Word>, s: Space)
    requires Inv(heap, roots, s, |s.order|) && Quiet(s.from, s.triggers)
    requires forall i :: 0 <= i < |roots| ==> WfWord(heap, roots[i]) && Survived(s.from, roots[i])
    ensures Least(heap, roots, LiveSet(s.order))
  {
    hide Tiled, Fresh, Scanned, Quiet, Forced, ClosedAt, WfObj;
    var live := LiveSet(s.order);
    forall i | 0 <= i < |roots| ensures In(live, roots[i]) { SurvivedIn(heap, s, roots[i]); }
    forall a | a in live && a in heap ensures ClosedAt(heap[a], live) {
      var k :| 0 <= k < |s.order| && s.order[k] == a;
      ScannedClosed(heap, s, s.at[k] in s.deferred, heap[a], s.news[s.at[k]]);
    }
  }

  ghost function TotalSize(heap: Heap, order: seq<nat>): nat
    requires forall k :: 0 <= k < |order| ==> order[k] in heap
  {
    if order == [] then 0 else TotalSize(heap, order[..|order| - 1]) + Size(heap[order[|order| - 1]])
  }

  lemma TiledPrefix(heap: Heap, order: seq<nat>, at: seq<nat>, free: nat)
    requires Tiled(heap, order, at, free) && order != []
    ensures var z := |order| - 1; Tiled(heap, order[..z], at[..z], at[z]) && at[z] + Size(heap[order[z]]) == free
  {
    hide Size;
    var z := |order| - 1;
    assert at[z] + Size(heap[order[z]]) == NextAt(at, free, z);
    var at', order' := at[..z], order[..z];
    forall k | 0 <= k < z ensures at'[k] + Size(heap[order'[k]]) == NextAt(at', at[z], k) {
      assert at[k] + Size(heap[order[k]]) == NextAt(at, free, k);
    }
  }

  /** Words allocated are the sum of the sizes of the objects copied. */
  lemma {:induction false} TiledTotal(heap: Heap, order: seq<nat>, at: seq<nat>, free: nat)
    requires Tiled(heap, order, at, free)
    ensures free == TotalSize(heap, order)
    decreases |order|
  {
    hide Size;
    if order != [] {
      var z := |order| - 1;
      TiledPrefix(heap, order, at, free);
      TiledTotal(heap, order[..z], at[..z], at[z]);
    }
  }

  /** The addresses of the copies. */
  ghost function Addresses(from: map<nat, Cell>, order: seq<nat>): (copies: set<nat>) {
    set a | a in order && a in from && from[a].Forwarded? :: from[a].to
  }

  lemma {:induction false} TiledEven(heap: Heap, order: seq<nat>, at: seq<nat>, free: nat)
    requires Tiled(heap, order, at, free)
    ensures free % 2 == 0 && forall k :: 0 <= k < |at| ==> at[k] % 2 == 0
    decreases |order|
  {
    hide Size;
    if order != [] {
      var z := |order| - 1;
      TiledPrefix(heap, order, at, free);
      TiledEven(heap, order[..z], at[..z], at[z]);
      forall k | 0 <= k < |at| ensures at[k] % 2 == 0 {
        if k < z { assert at[k] == at[..z][k]; }
      }
    }
  }

  /** Every address below the bump pointer lies in some copy. */
  lemma {:induction false} TiledCover(heap: Heap, order: seq<nat>, at: seq<nat>, free: nat, x: nat) returns (k: nat)
    requires Tiled(heap, order, at, free) && x < free
    ensures k < |order| == |at| && order[k] in heap && at[k] <= x < at[k] + Size(heap[order[k]])
    decreases |order|
  {
    hide Size;
    var z := |order| - 1;
    TiledPrefix(heap, order, at, free);
    if x < at[z] {
      k := TiledCover(heap, order[..z], at[..z], at[z], x);
    } else {
      k := z;
    }
  }

  /** Earlier copies end before later ones begin. */
  lemma TiledApart(heap: Heap, order: seq<nat>, at: seq<nat>, free: nat, k: nat, l: nat)
    requires Tiled(heap, order, at, free) && k < |at| && l < |at| && at[k] < at[l]
    ensures order[k] in heap && at[k] + Size(heap[order[k]]) <= at[l]
  {
    hide Size;
    assert k < l;
    assert at[k] + Size(heap[order[k]]) == NextAt(at, free, k);
  }

  lemma TiledEnd(heap: Heap, order: seq<nat>, at: seq<nat>, free: nat, k: nat)
    requires Tiled(heap, order, at, free) && k < |at|
    ensures order[k] in heap && at[k] + Size(heap[order[k]]) <= free
  {
    hide Size;
    assert at[k] + Size(heap[order[k]]) == NextAt(at, free, k);
    if k + 1 < |at| {
      var z := |at| - 1;
      assert at[z] + Size(heap[order[z]]) == NextAt(at, free, z);
      assert at[k + 1] <= at[z];
    }
  }

  /** The addresses of the copies, in the order in which they were made. */
  ghost function CopyAt(from: map<nat, Cell>, order: seq<nat>): (at: seq<nat>)
    ensures |at| == |order|
  {
    seq(|order|, k requires 0 <= k < |order| =>
      if order[k] in from && from[order[k]].Forwarded? then from[order[k]].to else 0)
  }

  /** The forwarding map is a bijection from `live` to the copies. */
  ghost predicate Forwards(heap: Heap, live: set<nat>, from: map<nat, Cell>, copies: set<nat>) {
    && live <= heap.Keys == from.Keys
    && (forall a :: a in heap ==> (from[a].Forwarded? <==> a in live))
    && (forall a, b :: a in live && b in live && from[a] == from[b] ==> a == b)
    && (forall p :: p in copies <==> exists a :: a in live && from[a] == Forwarded(p))
  }

  /** `cells` records each dead entry of the table once, with the bucket it was in, and nothing else. */
  ghost predicate Records(f: map<nat, Cell>, o: Obj, cells: seq<W.CulledCell>)
    requires o.kind.WeakTable?
  {
    && (forall k :: 0 <= k < |cells| ==>
          && W.CellIndex(cells[k]) < |o.pairs| && !EntryAlive(f, o.kind, o.pairs[W.CellIndex(cells[k])])
          && W.CellBucket(cells[k]) < |o.kind.chains| && W.CellIndex(cells[k]) in o.kind.chains[W.CellBucket(cells[k])])
    && (forall k, l :: 0 <= k < l < |cells| ==> W.CellIndex(cells[k]) != W.CellIndex(cells[l]))
    && (forall i: nat :: i < |o.pairs| && !EntryAlive(f, o.kind, o.pairs[i]) ==> Recorded(cells, i))
  }

  ghost predicate Recorded(cells: seq<W.CulledCell>, i: nat) {
    exists k :: 0 <= k < |cells| && W.CellIndex(cells[k]) == i
  }

  /**
   * The copy at `p` of `o`: strong words point to copies; an entry is present, and points to copies,
   * exactly when it is alive; and in front of a table's list of culled cells stand new conses, at
   * `lo` or above, for the entries that died.
   */
  ghost predicate FinalObj(f: map<nat, Cell>, o: Obj, news: Heap, p: nat, lo: nat, cells: seq<W.CulledCell>) {
    && p in news
    && var o' := news[p];
       && o'.kind == o.kind && |o'.words| == |o.words| && |o'.pairs| == |o.pairs|
       && (forall i :: 0 <= i < |o.words| ==> Survived(f, o.words[i]) && (IsCellList(o.kind, i) || Done(f, o.words[i], o'.words[i])))
       && (forall i :: 0 <= i < |o.pairs| ==> o.kind.WeakTable? && FinalPair(f, o.kind, o.pairs[i], o'.pairs[i]))
       && (if o.kind.WeakTable? then
             |o.words| > 0 && Records(f, o, cells) && ListAt(lo, news, o'.words[0], cells, Image(f, o.words[0]))
           else cells == [])
  }

  /** Object `q` is one of the conses in the list of the `k`th object copied. */
  ghost predicate InCellList(from: map<nat, Cell>, news: Heap, order: seq<nat>, lists: seq<seq<W.CulledCell>>, k: nat, q: nat) {
    && k < |order| && k < |lists| && order[k] in from && from[order[k]].Forwarded? && from[order[k]].to in news
    && |news[from[order[k]].to].words| > 0 && q in Spots(news, news[from[order[k]].to].words[0], lists[k])
  }

  ghost predicate IsCulledCell(from: map<nat, Cell>, news: Heap, order: seq<nat>, lists: seq<seq<W.CulledCell>>, q: nat) {
    exists k: nat :: InCellList(from, news, order, lists, k, q)
  }

  /**
   * The whole effect of a collection, given the order in which objects were copied and the cells
   * culled from each: what is live is the least closed set; it is forwarded one to one to the
   * copies; each copy is the image of its object, minus the dead entries, which are recorded; the
   * roots point to copies; each live object was copied once; new space holds the copies end to end
   * and, above them, the conses that record culled cells; the space used is the sum of their sizes.
   */
  ghost predicate Collected(heap: Heap, start: seq<Word>, from: map<nat, Cell>, news: Heap, free: nat, roots: seq<Word>,
                            order: seq<nat>, lists: seq<seq<W.CulledCell>>) {
    var live := LiveSet(order);
    && Least(heap, start, live)
    && Forwards(heap, live, from, Addresses(from, order))
    && |roots| == |start| && (forall i :: 0 <= i < |roots| ==> Done(from, start[i], roots[i]))
    && |lists| == |order| && (forall i, j :: 0 <= i < j < |order| ==> order[i] != order[j])
    && (forall k :: 0 <= k < |order| ==> order[k] in heap && order[k] in from && from[order[k]].Forwarded?)
    && var base := TotalSize(heap, order);
       && (forall k :: 0 <= k < |order| ==> FinalObj(from, heap[order[k]], news, from[order[k]].to, base, lists[k]))
       && Tiled(heap, order, CopyAt(from, order), base) && ConsArea(news, base, free)
       && (forall q :: q in Addresses(from, order) ==> q < base)
       && (forall q :: q in news <==> q in Addresses(from, order) || IsCulledCell(from, news, order, lists, q))
       && free == base + TotalWords(lists)
  }

  lemma LinkedLive(heap: Heap, from: map<nat, Cell>, copies: set<nat>, order: seq<nat>, at: seq<nat>, a: nat) returns (k: nat)
    requires Linked(heap, from, copies, order, at) && a in order
    ensures k < |order| == |at| && order[k] == a && a in heap && from[a] == Forwarded(at[k])
  {
    k :| 0 <= k < |order| && order[k] == a;
  }

  lemma Injective(at: seq<nat>, i: nat, j: nat)
    requires forall i, j :: 0 <= i < j < |at| ==> at[i] < at[j]
    requires i < |at| && j < |at| && at[i] == at[j]
    ensures i == j
  {
  }

  lemma CopyOwner(heap: Heap, s: Space, p: nat)
    requires Linked(heap, s.from, s.news.Keys, s.order, s.at)
    ensures p in s.news.Keys <==> exists a :: a in s.order && s.from[a] == Forwarded(p)
  {
    if p in s.news {
      var k :| 0 <= k < |s.at| && s.at[k] == p;
      assert s.order[k] in s.order && s.from[s.order[k]] == Forwarded(p);
    }
    if a :| a in s.order && s.from[a] == Forwarded(p) {
      var k := LinkedLive(heap, s.from, s.news.Keys, s.order, s.at, a);
      assert s.at[k] == p;
    }
  }

  lemma LinkedForwards(heap: Heap, s: Space)
    requires Linked(heap, s.from, s.news.Keys, s.order, s.at) && Tiled(heap, s.order, s.at, s.free)
    ensures Addresses(s.from, s.order) == s.news.Keys
    ensures Forwards(heap, LiveSet(s.order), s.from, s.news.Keys)
  {
    hide Size;
    var live := LiveSet(s.order);
    forall a | a in live ensures a in heap && s.from[a].Forwarded? {
      var _ := LinkedLive(heap, s.from, s.news.Keys, s.order, s.at, a);
    }
    forall a, b | a in live && b in live && s.from[a] == s.from[b] ensures a == b {
      var i := LinkedLive(heap, s.from, s.news.Keys, s.order, s.at, a);
      var j := LinkedLive(heap, s.from, s.news.Keys, s.order, s.at, b);
      Injective(s.at, i, j);
    }
    hide Tiled;
    forall p ensures p in s.news.Keys <==> exists a :: a in live && s.from[a] == Forwarded(p) {
      CopyOwner(heap, s, p);
    }
  }

  /** A table with every bucket culled has recorded exactly its dead entries. */
  lemma AllRecorded(f: map<nat, Cell>, o: Obj, cells: seq<W.CulledCell>)
    requires o.kind.WeakTable? && Bucketed(o.kind.chains, o.pairs)
    requires W.CellsDone(RulesOf(f, o.kind), o.pairs, o.kind.chains, cells, AllCells(o.kind))
    ensures Records(f, o, cells)
  {
    forall i: nat | i < |o.pairs| && !EntryAlive(f, o.kind, o.pairs[i]) ensures Recorded(cells, i) {
      assert InSomeBucket(o.kind.chains, i);
      assert W.IsCulledCell(RulesOf(f, o.kind), o.pairs, AllCells(o.kind), i);
    }
  }

  lemma CulledFinal(heap: Heap, s: Space, news: Heap, k: nat, cells: seq<W.CulledCell>)
    requires k < |s.at| == |s.order| && CopyCulled(heap, s, news, k, cells, false) && WfObj(heap, heap[s.order[k]])
    ensures FinalObj(s.from, heap[s.order[k]], news, s.at[k], s.free, cells)
  {
    hide ListAt, Records, W.CellsDone;
    var o, o' := heap[s.order[k]], news[s.at[k]];
    if o.kind.WeakTable? {
      AllRecorded(s.from, o, cells);
      forall i: nat | i < |o.pairs| ensures FinalPair(s.from, o.kind, o.pairs[i], o'.pairs[i]) {
        if i !in AllCells(o.kind) { EmptyFinal(s.from, o, o', i); }
      }
    }
  }

  /** An entry in no bucket was empty and still is. */
  lemma EmptyFinal(f: map<nat, Cell>, o: Obj, o': Obj, i: nat)
    requires o.kind.WeakTable? && Bucketed(o.kind.chains, o.pairs) && i < |o.pairs| == |o'.pairs| && i !in AllCells(o.kind)
    requires ReadyPair(f, o.kind, o.pairs[i], o'.pairs[i])
    ensures FinalPair(f, o.kind, o.pairs[i], o'.pairs[i])
  {
  }

  /** The conses of the lists are in new space. */
  lemma SpotsInside(heap: Heap, s: Space, news: Heap, k: nat, cells: seq<W.CulledCell>, q: nat)
    requires k < |s.at| == |s.order| && CopyCulled(heap, s, news, k, cells, false)
    requires |news[s.at[k]].words| > 0 && q in Spots(news, news[s.at[k]].words[0], cells)
    ensures q in news
  {
    hide ListAt, Spots;
    var o := heap[s.order[k]];
    NoSpots(news, news[s.at[k]].words[0]);
    if o.kind.WeakTable? { ListFrame(s.free, news, news, news[s.at[k]].words[0], cells, Image(s.from, o.words[0])); }
  }

  lemma Finish(heap: Heap, start: seq<Word>, s: Space, news: Heap, free: nat, roots: seq<Word>, lists: seq<seq<W.CulledCell>>)
    requires Inv(heap, start, s, |s.order|) && Quiet(s.from, s.triggers) && Culling(heap, s, news, free, {}, lists)
    requires |roots| == |start|
    requires forall i :: 0 <= i < |roots| ==> WfWord(heap, start[i]) && Done(s.from, start[i], roots[i])
    ensures Collected(heap, start, s.from, news, free, roots, s.order, lists)
  {
    hide Copies, Sound, Size, CopyCulled, FinalObj, Least, Quiet, Forwards, Addresses, TotalSize, WfObj, InSomeList, IsCulledCell, ConsArea;
    FixedPointIsLeast(heap, start, s);
    TiledTotal(heap, s.order, s.at, s.free);
    LinkedForwards(heap, s);
    forall k | 0 <= k < |s.order|
      ensures s.order[k] in heap && s.from[s.order[k]] == Forwarded(s.at[k])
      ensures FinalObj(s.from, heap[s.order[k]], news, s.at[k], s.free, lists[k])
    {
      assert CopyCulled(heap, s, news, k, lists[k], s.at[k] in {});
      CulledFinal(heap, s, news, k, lists[k]);
    }
    assert CopyAt(s.from, s.order) == s.at;
    forall q | q in s.news.Keys ensures q < s.free { NewsBelow(heap, s, q); }
    forall q ensures q in news <==> q in s.news.Keys || IsCulledCell(s.from, news, s.order, lists, q) {
      CellsInside(heap, s, news, free, lists, q);
    }
  }

  lemma CellsInside(heap: Heap, s: Space, news: Heap, free: nat, lists: seq<seq<W.CulledCell>>, q: nat)
    requires Culling(heap, s, news, free, {}, lists) && Linked(heap, s.from, s.news.Keys, s.order, s.at)
    ensures q in news <==> q in s.news.Keys || IsCulledCell(s.from, news, s.order, lists, q)
  {
    hide Spots, CopyCulled;
    if q in news && q !in s.news {
      var k: nat :| InList(s, news, lists, k, q);
      assert InCellList(s.from, news, s.order, lists, k, q);
    }
    if k: nat :| InCellList(s.from, news, s.order, lists, k, q) {
      assert CopyCulled(heap, s, news, k, lists[k], s.at[k] in {});
      SpotsInside(heap, s, news, k, lists[k], q);
    }
  }

  /** No word of the object is a from-space pointer. */
  ghost predicate Clean(o: Obj) {
    && (forall i :: 0 <= i < |o.words| ==> !o.words[i].From?)
    && (forall i :: 0 <= i < |o.pairs| ==> !o.pairs[i].key.From? && !o.pairs[i].value.From?)
  }

  lemma {:induction false} ListClean(lo: nat, news: Heap, w: Word, cells: seq<W.CulledCell>, tail: Word, q: nat)
    requires ListAt(lo, news, w, cells, tail) && !tail.From?
    ensures !w.From?
    ensures q in Spots(news, w, cells) ==> q in news && Clean(news[q])
    decreases |cells|
  {
    if cells != [] { ListClean(lo, news, news[w.addr].words[1], cells[1..], tail, q); }
  }

  lemma FinalClean(f: map<nat, Cell>, o: Obj, news: Heap, p: nat, lo: nat, cells: seq<W.CulledCell>, q: nat)
    requires FinalObj(f, o, news, p, lo, cells)
    ensures p in news && Clean(news[p])
    ensures |news[p].words| > 0 && q in Spots(news, news[p].words[0], cells) ==> q in news && Clean(news[q])
  {
    hide ListAt, Spots, Records;
    if |news[p].words| > 0 { NoSpots(news, news[p].words[0]); }
    if o.kind.WeakTable? { ListClean(lo, news, news[p].words[0], cells, Image(f, o.words[0]), q); }
  }

  /** No root and no word of new space, the recorded cells included, refers to an object left behind. */
  lemma NothingLeftBehind(heap: Heap, start: seq<Word>, from: map<nat, Cell>, news: Heap, free: nat, roots: seq<Word>,
                          order: seq<nat>, lists: seq<seq<W.CulledCell>>)
    requires Collected(heap, start, from, news, free, roots, order, lists)
    ensures forall i :: 0 <= i < |roots| ==> !roots[i].From?
    ensures forall q :: q in news ==> Clean(news[q])
  {
    hide Least, TotalSize, FinalObj, Clean, Spots;
    forall q | q in news ensures Clean(news[q]) {
      if q in Addresses(from, order) {
        var k: nat :| k < |order| && from[order[k]].to == q;
        FinalClean(from, heap[order[k]], news, q, TotalSize(heap, order), lists[k], q);
      } else {
        var k: nat :| InCellList(from, news, order, lists, k, q);
        FinalClean(from, heap[order[k]], news, from[order[k]].to, TotalSize(heap, order), lists[k], q);
      }
    }
  }

  /** An object of new space is a copy of the same shape as its object, or a cons that records a cell. */
  lemma CopyOrCons(heap: Heap, start: seq<Word>, from: map<nat, Cell>, news: Heap, free: nat, roots: seq<Word>,
                   order: seq<nat>, lists: seq<seq<W.CulledCell>>, p: nat) returns (k: nat)
    requires Collected(heap, start, from, news, free, roots, order, lists) && p in news
    ensures var base := TotalSize(heap, order);
      if p < base then
        && k < |order| && CopyAt(from, order)[k] == p && order[k] in heap
        && news[p].kind == heap[order[k]].kind && |news[p].words| == |heap[order[k]].words|
        && |news[p].pairs| == |heap[order[k]].pairs|
      else p % 2 == 0 && p < free && news[p].kind.ConsCell?
  {
    hide Least, Tiled, TotalSize, ListAt, Records, Spots, Forwards;
    k := 0;
    if p in Addresses(from, order) {
      k :| k < |order| && from[order[k]].to == p;
      assert FinalObj(from, heap[order[k]], news, p, TotalSize(heap, order), lists[k]);
    } else {
      var j: nat :| InCellList(from, news, order, lists, j, p);
      CellsAbove(heap, start, from, news, free, roots, order, lists, j, p);
    }
  }

  /** The conses that record culled cells lie above the copies. */
  lemma CellsAbove(heap: Heap, start: seq<Word>, from: map<nat, Cell>, news: Heap, free: nat, roots: seq<Word>,
                   order: seq<nat>, lists: seq<seq<W.CulledCell>>, k: nat, q: nat)
    requires Collected(heap, start, from, news, free, roots, order, lists) && InCellList(from, news, order, lists, k, q)
    ensures TotalSize(heap, order) <= q
  {
    hide Least, Tiled, TotalSize, ListAt, Records, Spots, Forwards, ConsArea, Addresses;
    var o, p, base := heap[order[k]], from[order[k]].to, TotalSize(heap, order);
    assert FinalObj(from, o, news, p, base, lists[k]);
    NoSpots(news, news[p].words[0]);
    if o.kind.WeakTable? { ListFrame(base, news, news, news[p].words[0], lists[k], Image(from, o.words[0])); }
  }

  /** Address `x` is in an object, or in the word that pads one to an even size. */
  ghost predicate InsideObject(news: Heap, x: nat) {
    exists p :: p in news && p <= x
      && x < p + if news[p].kind.ConsCell? then 2 else 3 + |news[p].words| + 2 * |news[p].pairs|
  }

  /**
   * The objects of new space lie at even addresses, one after the other without overlapping, and
   * leave no gap but the padding of an object to an even size.  A cons is 2 words; any other object
   * is a header, a length, its words and two words for each entry.
   */
  lemma NewSpaceTiled(heap: Heap, start: seq<Word>, from: map<nat, Cell>, news: Heap, free: nat, roots: seq<Word>,
                      order: seq<nat>, lists: seq<seq<W.CulledCell>>)
    requires Collected(heap, start, from, news, free, roots, order, lists)
    ensures forall p :: p in news ==>
      p % 2 == 0 && p + (if news[p].kind.ConsCell? then 2 else 2 + |news[p].words| + 2 * |news[p].pairs|) <= free
    ensures forall p, q :: p in news && q in news && p < q ==>
      p + (if news[p].kind.ConsCell? then 2 else 2 + |news[p].words| + 2 * |news[p].pairs|) <= q
    ensures forall x: nat :: x < free ==> InsideObject(news, x)
  {
    hide Collected, Tiled, Size, TotalSize;
    forall p | p in news
      ensures p % 2 == 0 && p + (if news[p].kind.ConsCell? then 2 else 2 + |news[p].words| + 2 * |news[p].pairs|) <= free
    {
      ObjectFits(heap, start, from, news, free, roots, order, lists, p);
    }
    forall p, q | p in news && q in news && p < q
      ensures p + (if news[p].kind.ConsCell? then 2 else 2 + |news[p].words| + 2 * |news[p].pairs|) <= q
    {
      ObjectsApart(heap, start, from, news, free, roots, order, lists, p, q);
    }
    forall x: nat | x < free ensures InsideObject(news, x)
    {
      var p := ObjectAround(heap, start, from, news, free, roots, order, lists, x);
    }
  }

  lemma Placement(heap: Heap, start: seq<Word>, from: map<nat, Cell>, news: Heap, free: nat, roots: seq<Word>,
                  order: seq<nat>, lists: seq<seq<W.CulledCell>>)
    requires Collected(heap, start, from, news, free, roots, order, lists)
    ensures forall k :: 0 <= k < |order| ==> order[k] in heap
    ensures Tiled(heap, order, CopyAt(from, order), TotalSize(heap, order))
    ensures ConsArea(news, TotalSize(heap, order), free)
    ensures forall k :: 0 <= k < |order| ==>
      var p, o := CopyAt(from, order)[k], heap[order[k]];
      p in news && news[p].kind == o.kind && |news[p].words| == |o.words| && |news[p].pairs| == |o.pairs|
  {
    hide Least, Tiled, TotalSize, ListAt, Records, Spots, Forwards, ConsArea, Addresses, IsCulledCell;
  }

  lemma ObjectFits(heap: Heap, start: seq<Word>, from: map<nat, Cell>, news: Heap, free: nat, roots: seq<Word>,
                   order: seq<nat>, lists: seq<seq<W.CulledCell>>, p: nat)
    requires Collected(heap, start, from, news, free, roots, order, lists) && p in news
    ensures p % 2 == 0 && p + (if news[p].kind.ConsCell? then 2 else 2 + |news[p].words| + 2 * |news[p].pairs|) <= free
  {
    hide Collected, Tiled, Size, TotalSize;
    Placement(heap, start, from, news, free, roots, order, lists);
    var at, base := CopyAt(from, order), TotalSize(heap, order);
    var k := CopyOrCons(heap, start, from, news, free, roots, order, lists, p);
    if p < base {
      TiledEven(heap, order, at, base);
      TiledEnd(heap, order, at, base, k);
    }
  }

  lemma ObjectsApart(heap: Heap, start: seq<Word>, from: map<nat, Cell>, news: Heap, free: nat, roots: seq<Word>,
                     order: seq<nat>, lists: seq<seq<W.CulledCell>>, p: nat, q: nat)
    requires Collected(heap, start, from, news, free, roots, order, lists) && p in news && q in news && p < q
    ensures p + (if news[p].kind.ConsCell? then 2 else 2 + |news[p].words| + 2 * |news[p].pairs|) <= q
  {
    hide Collected, Tiled, Size, TotalSize;
    Placement(heap, start, from, news, free, roots, order, lists);
    var at, base := CopyAt(from, order), TotalSize(heap, order);
    var k := CopyOrCons(heap, start, from, news, free, roots, order, lists, p);
    var l := CopyOrCons(heap, start, from, news, free, roots, order, lists, q);
    if p < base {
      if q < base { TiledApart(heap, order, at, base, k, l); } else { TiledEnd(heap, order, at, base, k); }
    }
  }

  lemma ObjectAround(heap: Heap, start: seq<Word>, from: map<nat, Cell>, news: Heap, free: nat, roots: seq<Word>,
                     order: seq<nat>, lists: seq<seq<W.CulledCell>>, x: nat) returns (p: nat)
    requires Collected(heap, start, from, news, free, roots, order, lists) && x < free
    ensures p in news && p <= x && x < p + if news[p].kind.ConsCell? then 2 else 3 + |news[p].words| + 2 * |news[p].pairs|
  {
    hide Collected, Tiled, Size, TotalSize;
    Placement(heap, start, from, news, free, roots, order, lists);
    var at, base := CopyAt(from, order), TotalSize(heap, order);
    if x < base {
      var k := TiledCover(heap, order, at, base, x);
      p := at[k];
    } else {
      p := x - x % 2;
      assert p % 2 == 0;
      assert p in news;
    }
  }

  /** If no entry of a live table dies, new space holds exactly the copies, and takes the sum of their sizes. */
  lemma NothingCulled(heap: Heap, start: seq<Word>, from: map<nat, Cell>, news: Heap, free: nat, roots: seq<Word>,
                      order: seq<nat>, lists: seq<seq<W.CulledCell>>)
    requires Collected(heap, start, from, news, free, roots, order, lists)
    requires forall a, i :: a in LiveSet(order) && a in heap && heap[a].kind.WeakTable? && 0 <= i < |heap[a].pairs| ==>
      EntryAlive(from, heap[a].kind, heap[a].pairs[i])
    ensures free == TotalSize(heap, order) && news.Keys == Addresses(from, order)
  {
    hide Least, TotalSize, FinalObj, Spots, Forwards, Addresses;
    forall k: nat | k < |order| ensures lists[k] == [] {
      assert order[k] in LiveSet(order);
      NoDeadNoCells(from, heap[order[k]], news, from[order[k]].to, TotalSize(heap, order), lists[k]);
    }
    NoWords(lists);
    forall q | q in news ensures q in Addresses(from, order) {
      if k: nat :| InCellList(from, news, order, lists, k, q) { NoSpots(news, news[from[order[k]].to].words[0]); }
    }
  }

  lemma NoDeadNoCells(f: map<nat, Cell>, o: Obj, news: Heap, p: nat, lo: nat, cells: seq<W.CulledCell>)
    requires FinalObj(f, o, news, p, lo, cells)
    requires o.kind.WeakTable? ==> forall i :: 0 <= i < |o.pairs| ==> EntryAlive(f, o.kind, o.pairs[i])
    ensures cells == []
  {
    hide ListAt, Records;
    if o.kind.WeakTable? && cells != [] { FirstIsDead(f, o, cells); }
  }

  lemma FirstIsDead(f: map<nat, Cell>, o: Obj, cells: seq<W.CulledCell>)
    requires o.kind.WeakTable? && Records(f, o, cells) && cells != []
    ensures W.CellIndex(cells[0]) < |o.pairs| && !EntryAlive(f, o.kind, o.pairs[W.CellIndex(cells[0])])
  {
  }

  /** A pointer to the space collected has become the pointer to the copy; any other word is unchanged. */
  ghost predicate Relocated(f: map<nat, Cell>, w: Word, w': Word) {
    if w.From? then w.addr in f && f[w.addr].Forwarded? && w' == New(f[w.addr].to) else w' == w
  }

  ghost predicate Kept(f: map<nat, Cell>, w: Word) {
    w.From? ==> w.addr in f && f[w.addr].Forwarded?
  }

  /**
   * Every entry of a live table, by its weakness: it survives, with both halves relocated, if the key
   * is live (key), the value is (value), either is (key or value), or both are (key and value);
   * otherwise both halves hold the empty marker.
   */
  lemma EntriesByWeakness(heap: Heap, start: seq<Word>, from: map<nat, Cell>, news: Heap, free: nat, roots: seq<Word>,
                          order: seq<nat>, lists: seq<seq<W.CulledCell>>, a: nat, i: nat)
    requires Collected(heap, start, from, news, free, roots, order, lists)
    requires a in heap && from[a].Forwarded? && heap[a].kind.WeakTable? && i < |heap[a].pairs|
    ensures from[a].to in news && |news[from[a].to].pairs| == |heap[a].pairs|
    ensures var kind, e, e' := heap[a].kind, heap[a].pairs[i], news[from[a].to].pairs[i];
      var survives := if kind.byKey && kind.byValue then Kept(from, e.key) || Kept(from, e.value)
        else if kind.byKey then Kept(from, e.key)
        else if kind.byValue then Kept(from, e.value)
        else Kept(from, e.key) && Kept(from, e.value);
      if survives then Relocated(from, e.key, e'.key) && Relocated(from, e.value, e'.value)
      else e' == Pair(Imm(-1), Imm(-1))
  {
    hide Least, Tiled, TotalSize, ListAt, Records, Spots, ConsArea, Addresses, IsCulledCell;
    assert a in LiveSet(order);
    var k: nat :| k < |order| && order[k] == a;
    assert FinalObj(from, heap[order[k]], news, from[a].to, TotalSize(heap, order), lists[k]);
  }

  // ---- Heaps without weak tables ----

  ghost predicate Edge(heap: Heap, a: nat, b: nat) {
    a in heap && exists i :: 0 <= i < |heap[a].words| && heap[a].words[i] == From(b)
  }

  /** `path` leads from a root to its last address along strong edges. */
  ghost predicate IsPath(heap: Heap, roots: seq<Word>, path: seq<nat>) {
    && path != []
    && From(path[0]) in roots
    && forall i :: 0 < i < |path| ==> Edge(heap, path[i - 1], path[i])
  }

  ghost predicate Reachable(heap: Heap, roots: seq<Word>, a: nat) {
    exists path :: IsPath(heap, roots, path) && path[|path| - 1] == a
  }

  lemma {:induction false} PathInClosed(heap: Heap, roots: seq<Word>, live: set<nat>, path: seq<nat>)
    requires Closed(heap, roots, live) && IsPath(heap, roots, path)
    ensures path[|path| - 1] in live
    decreases |path|
  {
    var z := |path| - 1;
    if z == 0 {
      var i :| 0 <= i < |roots| && roots[i] == From(path[0]);
      assert In(live, roots[i]);
    } else {
      PathInClosed(heap, roots, live, path[..z]);
      assert Edge(heap, path[z - 1], path[z]);
      assert ClosedAt(heap[path[z - 1]], live);
    }
  }

  lemma PathExtend(heap: Heap, roots: seq<Word>, a: nat, i: nat)
    requires a in heap && Reachable(heap, roots, a) && i < |heap[a].words| && heap[a].words[i].From?
    ensures Reachable(heap, roots, heap[a].words[i].addr)
  {
    var path :| IsPath(heap, roots, path) && path[|path| - 1] == a;
    var b := heap[a].words[i].addr;
    assert Edge(heap, a, b);
    assert IsPath(heap, roots, path + [b]);
  }

  /** Without weak tables, live means reachable. */
  lemma LiveIsReachable(heap: Heap, roots: seq<Word>, live: set<nat>)
    requires WfHeap(heap) && (forall i :: 0 <= i < |roots| ==> WfWord(heap, roots[i]))
    requires forall a :: a in heap ==> !heap[a].kind.WeakTable?
    requires Least(heap, roots, live)
    ensures forall a :: a in live <==> Reachable(heap, roots, a)
  {
    forall a | Reachable(heap, roots, a) ensures a in live {
      var path :| IsPath(heap, roots, path) && path[|path| - 1] == a;
      PathInClosed(heap, roots, live, path);
    }
    var r := set a | a in heap && Reachable(heap, roots, a);
    assert Closed(heap, roots, r) by {
      forall i | 0 <= i < |roots| ensures In(r, roots[i]) {
        if roots[i].From? { assert IsPath(heap, roots, [roots[i].addr]); }
      }
      forall a | a in r ensures ClosedAt(heap[a], r) {
        assert WfObj(heap, heap[a]);
        forall i | 0 <= i < |heap[a].words| ensures In(r, heap[a].words[i]) {
          if heap[a].words[i].From? {
            PathExtend(heap, roots, a, i);
            assert WfWord(heap, heap[a].words[i]);
          }
        }
      }
    }
    LeastIsLeast(heap, roots, live, r);
  }

  /** Without weak tables, collection yields an isomorphic graph: the forwarding map is a bijection from
      the reachable objects to new space that commutes with every word of every object, and new space
      takes exactly the sum of their sizes. */
  lemma CollectionIsIsomorphism(heap: Heap, start: seq<Word>, from: map<nat, Cell>, news: Heap, free: nat, roots: seq<Word>,
                                order: seq<nat>, lists: seq<seq<W.CulledCell>>)
    requires WfHeap(heap) && (forall i :: 0 <= i < |start| ==> WfWord(heap, start[i]))
    requires forall a :: a in heap ==> !heap[a].kind.WeakTable?
    requires Collected(heap, start, from, news, free, roots, order, lists)
    ensures forall a :: a in heap ==> (from[a].Forwarded? <==> Reachable(heap, start, a))
    ensures forall a, b :: a in heap && b in heap && from[a].Forwarded? && from[a] == from[b] ==> a == b
    ensures forall p :: p in news <==> exists a :: a in heap && from[a] == Forwarded(p)
    ensures forall a :: a in heap && from[a].Forwarded? ==> from[a].to in news && SameShape(from, heap[a], news[from[a].to])
    ensures free == TotalSize(heap, order)
  {
    hide Least, Reachable, TotalSize, FinalObj, Done, WfObj, IsCulledCell;
    LiveIsReachable(heap, start, LiveSet(order));
    NothingCulled(heap, start, from, news, free, roots, order, lists);
    forall p ensures p in news <==> exists a :: a in heap && from[a] == Forwarded(p) {
      assert p in news <==> p in Addresses(from, order);
      if a :| a in heap && from[a] == Forwarded(p) { assert a in LiveSet(order); }
    }
    forall a | a in heap && from[a].Forwarded? ensures from[a].to in news && SameShape(from, heap[a], news[from[a].to]) {
      assert a in LiveSet(order);
      var k: nat :| k < |order| && order[k] == a;
      ShapeOfFinal(heap, from, heap[a], news, from[a].to, TotalSize(heap, order), lists[k]);
    }
  }

  /** The copy has the same shape, and its words are the images of the object's. */
  ghost predicate SameShape(f: map<nat, Cell>, o: Obj, o': Obj) {
    && o'.kind == o.kind && o'.pairs == o.pairs && |o'.words| == |o.words|
    && forall i :: 0 <= i < |o.words| ==> Relocated(f, o.words[i], o'.words[i])
  }

  lemma ShapeOfFinal(heap: Heap, f: map<nat, Cell>, o: Obj, news: Heap, p: nat, lo: nat, cells: seq<W.CulledCell>)
    requires FinalObj(f, o, news, p, lo, cells) && WfObj(heap, o) && !o.kind.WeakTable?
    ensures p in news && SameShape(f, o, news[p])
  {
  }

  lemma {:induction false} ConsTotal(heap: Heap, order: seq<nat>)
    requires forall k :: 0 <= k < |order| ==> order[k] in heap && heap[order[k]].kind.ConsCell?
    ensures TotalSize(heap, order) == 2 * |order|
  {
    if order != [] { ConsTotal(heap, order[..|order| - 1]); }
  }

  lemma {:induction false} LiveCount(order: seq<nat>)
    requires forall i, j :: 0 <= i < j < |order| ==> order[i] != order[j]
    ensures |LiveSet(order)| == |order|
  {
    if order != [] {
      var z := |order| - 1;
      LiveCount(order[..z]);
      assert LiveSet(order) == LiveSet(order[..z]) + {order[z]};
    }
  }

  /** In a heap of conses, collection leaves exactly 2 words for each reachable one. */
  lemma TwoWordsEach(heap: Heap, start: seq<Word>, from: map<nat, Cell>, news: Heap, free: nat, roots: seq<Word>,
                     order: seq<nat>, lists: seq<seq<W.CulledCell>>)
    requires WfHeap(heap) && (forall i :: 0 <= i < |start| ==> WfWord(heap, start[i]))
    requires forall a :: a in heap ==> heap[a].kind.ConsCell?
    requires Collected(heap, start, from, news, free, roots, order, lists)
    ensures free == 2 * |set a | a in heap && Reachable(heap, start, a)|
  {
    hide Reachable, TotalSize, FinalObj, Done, WfObj, IsCulledCell, Tiled, ConsArea;
    CollectionIsIsomorphism(heap, start, from, news, free, roots, order, lists);
    LiveIsReachable(heap, start, LiveSet(order));
    ConsTotal(heap, order);
    LiveCount(order);
    assert (set a | a in heap && Reachable(heap, start, a)) == LiveSet(order);
  }

  lemma RestStep(listed: seq<nat>, i: nat, rest: set<nat>)
    requires i < |listed| && forall p :: p in rest ==> p in listed[i..]
    ensures forall p :: p in rest - {listed[i]} ==> p in listed[i + 1..]
  {
    assert listed[i..] == [listed[i]] + listed[i + 1..];
  }
}
