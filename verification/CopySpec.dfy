/** Copying collection with weak hash tables, seen as a relation between the heap before
    the collection and the space copied to: what may be live, what a copy must look like,
    and the invariant of the scan. */
module CopySpec {
  import opened HeapWords

  /** `byKey`: a live key keeps its value alive. `byValue`: a live value keeps its key alive.
      Neither is the key-and-value weakness, both is key-or-value. `chains` lists the entries
      of each hash bucket, by index. The words of a weak table are its pointer slots, of which
      word 0 is its list of culled cells; its count and its rehash mark are not among them. */
  datatype Kind = ConsCell | Vector | WeakTable(byKey: bool, byValue: bool, chains: seq<seq<nat>>)

  datatype Obj = Obj(kind: Kind, words: seq<Word>, pairs: seq<Pair>)

  /** The from-space view of an object: still there, or overwritten by a forwarding pointer. */
  datatype Cell = Live(obj: Obj) | Forwarded(to: nat)

  type Heap = map<nat, Obj>

  /** A cons is two words. Any other object has a header, a length word, its words and two for each
      entry, padded to an even number. */
  function Size(o: Obj): (n: nat)
    ensures n > 0 && n % 2 == 0
    ensures if o.kind.ConsCell? then n == 2 else 2 + |o.words| + 2 * |o.pairs| <= n <= 3 + |o.words| + 2 * |o.pairs|
  {
    if o.kind.ConsCell? then 2 else (1 + |o.words| + 2 * |o.pairs|) / 2 * 2 + 2
  }

  predicate WfWord(heap: Heap, w: Word) {
    match w
    case From(a) => a in heap
    case New(_) => false
    case _ => true
  }

  /** Every entry present is in a bucket, and no entry is in two. */
  ghost predicate Bucketed(chains: seq<seq<nat>>, pairs: seq<Pair>) {
    && (forall b, j :: 0 <= b < |chains| && 0 <= j < |chains[b]| ==> chains[b][j] < |pairs|)
    && (forall b, c, i :: 0 <= b < |chains| && 0 <= c < |chains| && i in chains[b] && i in chains[c] ==> b == c)
    && (forall i :: 0 <= i < |pairs| && pairs[i] != EmptyPair ==> InSomeBucket(chains, i))
  }

  ghost predicate InSomeBucket(chains: seq<seq<nat>>, i: nat) {
    exists b :: 0 <= b < |chains| && i in chains[b]
  }

  ghost predicate WfObj(heap: Heap, o: Obj) {
    && (o.kind.ConsCell? ==> |o.words| == 2)
    && (!o.kind.WeakTable? ==> o.pairs == [])
    && (o.kind.WeakTable? ==> |o.words| > 0 && Bucketed(o.kind.chains, o.pairs))
    && (forall i :: 0 <= i < |o.words| ==> WfWord(heap, o.words[i]))
    && (forall i :: 0 <= i < |o.pairs| ==> WfWord(heap, o.pairs[i].key) && WfWord(heap, o.pairs[i].value))
  }

  ghost predicate WfHeap(heap: Heap) {
    forall a :: a in heap ==> WfObj(heap, heap[a])
  }

  // ---- Liveness ----

  predicate In(live: set<nat>, w: Word) {
    w.From? ==> w.addr in live
  }

  /** The entry rule of a weak table. */
  predicate Rule(kind: Kind, live: set<nat>, p: Pair)
    requires kind.WeakTable?
  {
    && (kind.byKey && In(live, p.key) ==> In(live, p.value))
    && (kind.byValue && In(live, p.value) ==> In(live, p.key))
  }

  ghost predicate ClosedAt(o: Obj, live: set<nat>) {
    && (forall i :: 0 <= i < |o.words| ==> In(live, o.words[i]))
    && (o.kind.WeakTable? ==> forall i :: 0 <= i < |o.pairs| ==> Rule(o.kind, live, o.pairs[i]))
  }

  /** Holds the roots and is closed under strong edges and under the entries of live weak tables. */
  ghost predicate Closed(heap: Heap, roots: seq<Word>, live: set<nat>) {
    && (forall i :: 0 <= i < |roots| ==> In(live, roots[i]))
    && (forall a :: a in live && a in heap ==> ClosedAt(heap[a], live))
  }

  /** In every closed set. */
  ghost predicate Forced(heap: Heap, roots: seq<Word>, w: Word) {
    forall s: set<nat> :: Closed(heap, roots, s) ==> In(s, w)
  }

  /** The least closed set. */
  ghost predicate Least(heap: Heap, roots: seq<Word>, live: set<nat>) {
    Closed(heap, roots, live) && forall a :: a in live ==> a in heap && Forced(heap, roots, From(a))
  }

  lemma LeastIsLeast(heap: Heap, roots: seq<Word>, live: set<nat>, other: set<nat>)
    requires Least(heap, roots, live) && Closed(heap, roots, other)
    ensures live <= other
  {
    forall a | a in live ensures a in other { assert In(other, From(a)); }
  }

  lemma RootForced(heap: Heap, roots: seq<Word>, i: nat)
    requires i < |roots|
    ensures Forced(heap, roots, roots[i])
  {
  }

  lemma ChildForced(heap: Heap, roots: seq<Word>, a: nat, i: nat)
    requires Forced(heap, roots, From(a)) && a in heap && i < |heap[a].words|
    ensures Forced(heap, roots, heap[a].words[i])
  {
    forall s: set<nat> | Closed(heap, roots, s) ensures In(s, heap[a].words[i]) {
      assert In(s, From(a));
      assert ClosedAt(heap[a], s);
    }
  }

  /** The other half of an entry is forced once the half that keeps it alive is. */
  lemma EntryForced(heap: Heap, roots: seq<Word>, a: nat, i: nat)
    requires Forced(heap, roots, From(a)) && a in heap && i < |heap[a].pairs| && heap[a].kind.WeakTable?
    ensures heap[a].kind.byKey && Forced(heap, roots, heap[a].pairs[i].key) ==> Forced(heap, roots, heap[a].pairs[i].value)
    ensures heap[a].kind.byValue && Forced(heap, roots, heap[a].pairs[i].value) ==> Forced(heap, roots, heap[a].pairs[i].key)
  {
    var p := heap[a].pairs[i];
    forall s: set<nat> | Closed(heap, roots, s) ensures Rule(heap[a].kind, s, p) {
      assert In(s, From(a));
      assert ClosedAt(heap[a], s);
    }
  }

  // ---- Copies ----

  /** What a word becomes once its object has been forwarded. */
  function Image(from: map<nat, Cell>, w: Word): Word {
    if w.From? && w.addr in from && from[w.addr].Forwarded? then New(from[w.addr].to) else w
  }

  predicate Survived(from: map<nat, Cell>, w: Word) {
    w.From? ==> w.addr in from && from[w.addr].Forwarded?
  }

  /** `w'` is `w` scavenged. */
  predicate Done(from: map<nat, Cell>, w: Word, w': Word) {
    Survived(from, w) && w' == Image(from, w)
  }

  ghost predicate DonePair(from: map<nat, Cell>, p: Pair, p': Pair) {
    Done(from, p.key, p'.key) && Done(from, p.value, p'.value)
  }

  /** A copy not fully scanned yet: a word or an entry is as it was, or scavenged. */
  ghost predicate Fresh(from: map<nat, Cell>, o: Obj, o': Obj) {
    && o'.kind == o.kind && |o'.words| == |o.words| && |o'.pairs| == |o.pairs|
    && (forall i :: 0 <= i < |o.words| ==> o'.words[i] == o.words[i] || Done(from, o.words[i], o'.words[i]))
    && (forall i :: 0 <= i < |o.pairs| ==> o'.pairs[i] == o.pairs[i] || DonePair(from, o.pairs[i], o'.pairs[i]))
  }

  /** `v` has survived, or will be livened when `k` is found to have survived. */
  predicate Watched(from: map<nat, Cell>, triggers: map<nat, seq<Word>>, k: Word, v: Word) {
    Survived(from, v) || (k.From? && k.addr in triggers && v in triggers[k.addr])
  }

  predicate Deferred(from: map<nat, Cell>, triggers: map<nat, seq<Word>>, kind: Kind, p: Pair)
    requires kind.WeakTable?
  {
    && (kind.byKey ==> Watched(from, triggers, p.key, p.value))
    && (kind.byValue ==> Watched(from, triggers, p.value, p.key))
  }

  /** A scanned copy: every strong word scavenged, every entry scavenged or deferred. */
  ghost predicate Scanned(from: map<nat, Cell>, triggers: map<nat, seq<Word>>, listed: bool, o: Obj, o': Obj) {
    && o'.kind == o.kind && |o'.words| == |o.words| && |o'.pairs| == |o.pairs|
    && (forall i :: 0 <= i < |o.words| ==> Done(from, o.words[i], o'.words[i]))
    && (forall i :: 0 <= i < |o.pairs| ==>
          || DonePair(from, o.pairs[i], o'.pairs[i])
          || (listed && o.kind.WeakTable? && o'.pairs[i] == o.pairs[i] && Deferred(from, triggers, o.kind, o.pairs[i])))
  }

  /** The collector's memory. `order` lists the objects copied, in order, and `at` their new addresses. */
  datatype Space = Space(from: map<nat, Cell>, news: Heap, free: nat, order: seq<nat>, at: seq<nat>,
                         triggers: map<nat, seq<Word>>, deferred: set<nat>)

  function NextAt(at: seq<nat>, free: nat, k: nat): nat {
    if k + 1 < |at| then at[k + 1] else free
  }

  /** Copies are distinct, and laid end to end from 0 to the bump pointer. */
  ghost predicate Tiled(heap: Heap, order: seq<nat>, at: seq<nat>, free: nat) {
    && |at| == |order|
    && (forall k :: 0 <= k < |order| ==> order[k] in heap)
    && (forall i, j :: 0 <= i < j < |order| ==> order[i] != order[j])
    && (forall i, j :: 0 <= i < j < |at| ==> at[i] < at[j])
    && (if at == [] then free == 0 else at[0] == 0)
    && (forall k {:trigger NextAt(at, free, k)} :: 0 <= k < |at| ==> at[k] + Size(heap[order[k]]) == NextAt(at, free, k))
  }

  /** Exactly the copied objects have been forwarded, each to its copy. */
  ghost predicate Linked(heap: Heap, from: map<nat, Cell>, copies: set<nat>, order: seq<nat>, at: seq<nat>) {
    && |at| == |order|
    && from.Keys == heap.Keys
    && (forall a :: a in heap ==> from[a] == Live(heap[a]) || (from[a].Forwarded? && a in order))
    && (forall k :: 0 <= k < |order| ==> order[k] in heap && from[order[k]] == Forwarded(at[k]))
    && (forall p :: p in copies <==> p in at)
  }

  /** The first `n` copies have been scanned and the others have not. */
  ghost predicate Copies(heap: Heap, s: Space, n: nat) {
    && n <= |s.order| == |s.at|
    && (forall k :: 0 <= k < |s.at| ==> s.at[k] in s.news && s.order[k] in heap)
    && (forall p :: p in s.deferred ==> p in s.at && p in s.news && s.news[p].kind.WeakTable?)
    && (forall k :: 0 <= k < n ==>
          Scanned(s.from, s.triggers, s.at[k] in s.deferred, heap[s.order[k]], s.news[s.at[k]]))
    && (forall k :: n <= k < |s.order| ==> Fresh(s.from, heap[s.order[k]], s.news[s.at[k]]))
  }

  /** Everything copied is forced, and so is everything a live trigger would liven. */
  ghost predicate Sound(heap: Heap, roots: seq<Word>, order: seq<nat>, triggers: map<nat, seq<Word>>) {
    && (forall k :: 0 <= k < |order| ==> Forced(heap, roots, From(order[k])))
    && (forall t, i :: t in triggers && 0 <= i < |triggers[t]| ==> TriggerOk(heap, roots, t, triggers[t][i]))
  }

  ghost predicate TriggerOk(heap: Heap, roots: seq<Word>, t: nat, w: Word) {
    WfWord(heap, w) && (Forced(heap, roots, From(t)) ==> Forced(heap, roots, w))
  }

  ghost predicate Inv(heap: Heap, roots: seq<Word>, s: Space, n: nat) {
    && WfHeap(heap)
    && Tiled(heap, s.order, s.at, s.free)
    && Linked(heap, s.from, s.news.Keys, s.order, s.at)
    && Copies(heap, s, n)
    && Sound(heap, roots, s.order, s.triggers)
  }

  // ---- Steps ----

  /** Copy the object at `a` to the bump pointer and leave a forwarding pointer. */
  function CopyOne(s: Space, a: nat, o: Obj): Space {
    s.(from := s.from[a := Forwarded(s.free)], news := s.news[s.free := o], free := s.free + Size(o),
       order := s.order + [a], at := s.at + [s.free])
  }

  /** Nothing already forwarded or copied changes. */
  ghost predicate Grows(s: Space, s': Space) {
    && s.order <= s'.order && s.at <= s'.at
    && s'.triggers == s.triggers && s'.deferred == s.deferred
    && (forall a :: a in s.from && s.from[a].Forwarded? ==> a in s'.from && s'.from[a] == s.from[a])
    && (forall p :: p in s.news ==> p in s'.news && s'.news[p] == s.news[p])
  }

  lemma FreshMono(f: map<nat, Cell>, f': map<nat, Cell>, o: Obj, o': Obj)
    requires Fresh(f, o, o') && forall a :: a in f && f[a].Forwarded? ==> a in f' && f'[a] == f[a]
    ensures Fresh(f', o, o')
  {
  }

  lemma ScannedMono(f: map<nat, Cell>, f': map<nat, Cell>, t: map<nat, seq<Word>>, l: bool, o: Obj, o': Obj)
    requires Scanned(f, t, l, o, o') && forall a :: a in f && f[a].Forwarded? ==> a in f' && f'[a] == f[a]
    ensures Scanned(f', t, l, o, o')
  {
    forall i | 0 <= i < |o.pairs| && DonePair(f, o.pairs[i], o'.pairs[i]) ensures DonePair(f', o.pairs[i], o'.pairs[i]) { }
  }

  lemma FreshStart(f: map<nat, Cell>, o: Obj)
    ensures Fresh(f, o, o)
  {
  }

  lemma LiveNotCopied(heap: Heap, s: Space, a: nat)
    requires Linked(heap, s.from, s.news.Keys, s.order, s.at) && a in heap && s.from[a].Live?
    ensures a !in s.order && s.from[a] == Live(heap[a])
  {
  }

  lemma BelowFree(heap: Heap, s: Space, k: nat)
    requires Tiled(heap, s.order, s.at, s.free) && k < |s.at|
    ensures s.at[k] < s.free
  {
    hide Size;
    var z := |s.at| - 1;
    assert s.at[z] + Size(heap[s.order[z]]) == NextAt(s.at, s.free, z);
    assert k < z ==> s.at[k] < s.at[z];
  }

  lemma FreeIsNew(heap: Heap, s: Space)
    requires Tiled(heap, s.order, s.at, s.free) && Linked(heap, s.from, s.news.Keys, s.order, s.at)
    ensures s.free !in s.news
  {
    hide Size;
    if s.free in s.at {
      var k :| 0 <= k < |s.at| && s.at[k] == s.free;
      BelowFree(heap, s, k);
    }
  }

  lemma CopyTiled(heap: Heap, s: Space, a: nat)
    requires Tiled(heap, s.order, s.at, s.free) && a in heap && a !in s.order
    ensures var s' := CopyOne(s, a, heap[a]); Tiled(heap, s'.order, s'.at, s'.free)
  {
    hide Size;
    var s' := CopyOne(s, a, heap[a]);
    forall k | 0 <= k < |s.at| ensures s.at[k] < s.free { BelowFree(heap, s, k); }
    forall k | 0 <= k < |s'.at| ensures s'.at[k] + Size(heap[s'.order[k]]) == NextAt(s'.at, s'.free, k) {
      if k < |s.at| { assert s.at[k] + Size(heap[s.order[k]]) == NextAt(s.at, s.free, k); }
    }
  }

  lemma CopyLinked(heap: Heap, s: Space, a: nat)
    requires Tiled(heap, s.order, s.at, s.free) && Linked(heap, s.from, s.news.Keys, s.order, s.at) && a in heap && a !in s.order
    ensures var s' := CopyOne(s, a, heap[a]); Linked(heap, s'.from, s'.news.Keys, s'.order, s'.at)
  {
    var s' := CopyOne(s, a, heap[a]);
    forall k | 0 <= k < |s'.order| ensures s'.order[k] in heap && s'.from[s'.order[k]] == Forwarded(s'.at[k]) { }
    forall b | b in heap ensures s'.from[b] == Live(heap[b]) || (s'.from[b].Forwarded? && b in s'.order) {
      if b == a { assert s'.order[|s.order|] == a; }
    }
    forall p ensures p in s'.news <==> p in s'.at {
      if p == s.free { assert s'.at[|s.at|] == p; }
    }
  }

  lemma CopyGrows(heap: Heap, s: Space, a: nat)
    requires Tiled(heap, s.order, s.at, s.free) && Linked(heap, s.from, s.news.Keys, s.order, s.at) && a in heap && s.from[a].Live?
    ensures Grows(s, CopyOne(s, a, heap[a]))
  {
    FreeIsNew(heap, s);
    hide Size, Tiled;
  }

  /** The invariant about copies survives any growth that adds unscanned copies. */
  lemma CopiesGrow(heap: Heap, s: Space, s': Space, n: nat)
    requires Copies(heap, s, n) && Grows(s, s') && |s'.order| == |s'.at|
    requires forall k :: |s.order| <= k < |s'.order| ==>
      s'.order[k] in heap && s'.at[k] in s'.news && Fresh(s'.from, heap[s'.order[k]], s'.news[s'.at[k]])
    ensures Copies(heap, s', n)
  {
    hide Scanned, Fresh;
    forall k | 0 <= k < n
      ensures Scanned(s'.from, s'.triggers, s'.at[k] in s'.deferred, heap[s'.order[k]], s'.news[s'.at[k]])
    {
      ScannedMono(s.from, s'.from, s.triggers, s.at[k] in s.deferred, heap[s.order[k]], s.news[s.at[k]]);
    }
    forall k | n <= k < |s.order| ensures Fresh(s'.from, heap[s'.order[k]], s'.news[s'.at[k]]) {
      FreshMono(s.from, s'.from, heap[s.order[k]], s.news[s.at[k]]);
    }
  }

  lemma CopySound(heap: Heap, roots: seq<Word>, s: Space, a: nat)
    requires Sound(heap, roots, s.order, s.triggers) && Forced(heap, roots, From(a)) && a in heap
    ensures Sound(heap, roots, s.order + [a], s.triggers)
  {
    hide Forced, TriggerOk;
  }

  lemma CopyKeeps(heap: Heap, roots: seq<Word>, s: Space, n: nat, a: nat)
    requires Inv(heap, roots, s, n) && a in heap && s.from[a].Live? && Forced(heap, roots, From(a))
    ensures s.from[a] == Live(heap[a])
    ensures Inv(heap, roots, CopyOne(s, a, heap[a]), n)
    ensures Grows(s, CopyOne(s, a, heap[a]))
  {
    hide Forced, WfHeap, Tiled, Sound, Grows, Scanned, Fresh, Size;
    LiveNotCopied(heap, s, a);
    hide Linked;
    CopyTiled(heap, s, a);
    CopyLinked(heap, s, a);
    CopyGrows(heap, s, a);
    FreshStart(CopyOne(s, a, heap[a]).from, heap[a]);
    CopiesGrow(heap, s, CopyOne(s, a, heap[a]), n);
    CopySound(heap, roots, s, a);
  }

  /** Replace the copy `k`, not scanned yet, by one in which more has been scavenged. */
  function Rewrite(s: Space, k: nat, o: Obj): Space
    requires k < |s.at|
  {
    s.(news := s.news[s.at[k] := o])
  }

  lemma RewriteKeeps(heap: Heap, roots: seq<Word>, s: Space, n: nat, k: nat, o: Obj)
    requires Inv(heap, roots, s, n) && n <= k < |s.order| && Fresh(s.from, heap[s.order[k]], o)
    ensures k < |s.at| && Inv(heap, roots, Rewrite(s, k, o), n)
  {
    hide WfHeap, Tiled, Sound, Fresh, Scanned;
    assert Rewrite(s, k, o).news.Keys == s.news.Keys;
    hide Linked;
    RewriteCopies(heap, s, n, k, o);
  }

  lemma RewriteCopies(heap: Heap, s: Space, n: nat, k: nat, o: Obj)
    requires Tiled(heap, s.order, s.at, s.free) && Copies(heap, s, n) && n <= k < |s.order| && Fresh(s.from, heap[s.order[k]], o)
    ensures Copies(heap, Rewrite(s, k, o), n)
  {
    hide Fresh, Scanned, Size;
    var s' := Rewrite(s, k, o);
    forall j | 0 <= j < |s.at| && j != k ensures s'.news[s'.at[j]] == s.news[s.at[j]] {
      assert if j < k then s.at[j] < s.at[k] else s.at[k] < s.at[j];
    }
    ShapeOfFresh(s.from, heap[s.order[k]], o);
    ShapeOfFresh(s.from, heap[s.order[k]], s.news[s.at[k]]);
  }

  /** Record that copy `n` has been scanned. */
  lemma ScanStep(heap: Heap, roots: seq<Word>, s: Space, n: nat)
    requires Inv(heap, roots, s, n) && n < |s.order|
    requires Scanned(s.from, s.triggers, s.at[n] in s.deferred, heap[s.order[n]], s.news[s.at[n]])
    ensures Inv(heap, roots, s, n + 1)
  {
  }

  /** The address at which copy `k` is, or will be if it is the next one. */
  function Pos(s: Space, k: nat): nat {
    if k < |s.at| then s.at[k] else s.free
  }

  /** The order in which things were copied only ever grows, and addresses once given out stay. */
  ghost predicate Later(s: Space, s': Space) {
    && s.order <= s'.order && s.at <= s'.at
    && (forall a :: a in s.from && s.from[a].Forwarded? ==> a in s'.from && s'.from[a] == s.from[a])
  }

  lemma PosStable(heap: Heap, s: Space, s': Space, k: nat)
    requires Tiled(heap, s.order, s.at, s.free) && Tiled(heap, s'.order, s'.at, s'.free) && Later(s, s') && k <= |s.at|
    ensures Pos(s', k) == Pos(s, k)
  {
    hide Size;
    if k == |s.at| && k > 0 {
      assert s.at[k - 1] + Size(heap[s.order[k - 1]]) == NextAt(s.at, s.free, k - 1);
      assert s'.at[k - 1] + Size(heap[s'.order[k - 1]]) == NextAt(s'.at, s'.free, k - 1);
      assert s.at[k - 1] == s'.at[k - 1] && s.order[k - 1] == s'.order[k - 1];
    }
  }

  lemma PosNext(heap: Heap, roots: seq<Word>, s: Space, n: nat, k: nat)
    requires Inv(heap, roots, s, n) && k < |s.at|
    ensures s.at[k] in s.news && Pos(s, k) + Size(s.news[s.at[k]]) == Pos(s, k + 1)
    ensures Pos(s, k) < Pos(s, k + 1)
  {
    CopyShape(heap, s, n, k);
    hide Linked, Copies, Sound, WfHeap, Size;
    assert s.at[k] + Size(heap[s.order[k]]) == NextAt(s.at, s.free, k);
  }

  lemma CopyShape(heap: Heap, s: Space, n: nat, k: nat)
    requires Copies(heap, s, n) && k < |s.at|
    ensures s.at[k] in s.news && Size(s.news[s.at[k]]) == Size(heap[s.order[k]])
  {
    var o, o' := heap[s.order[k]], s.news[s.at[k]];
    if k < n {
      assert Scanned(s.from, s.triggers, s.at[k] in s.deferred, o, o');
    } else {
      assert Fresh(s.from, o, o');
    }
  }

  function SetWord(o: Obj, j: nat, w: Word): Obj
    requires j < |o.words|
  {
    o.(words := o.words[j := w])
  }

  lemma FreshSetWord(f: map<nat, Cell>, o: Obj, o': Obj, j: nat, w: Word)
    requires Fresh(f, o, o') && j < |o.words| && Done(f, o.words[j], w)
    ensures Fresh(f, o, SetWord(o', j, w))
  {
  }

  lemma GrowsTrans(s1: Space, s2: Space, s3: Space)
    requires Grows(s1, s2) && Grows(s2, s3)
    ensures Grows(s1, s3)
  {
  }

  /** Rewriting a copy made since `s` leaves what was there at `s` alone. */
  lemma RewriteGrows(heap: Heap, s: Space, s': Space, k: nat, o: Obj)
    requires Tiled(heap, s'.order, s'.at, s'.free) && Grows(s, s') && |s.at| <= k < |s'.at| && forall p :: p in s.news ==> p in s.at
    ensures Grows(s, Rewrite(s', k, o))
  {
    hide Size;
    forall p | p in s.news ensures p != s'.at[k] {
      var i :| 0 <= i < |s.at| && s.at[i] == p;
      assert s'.at[i] < s'.at[k];
    }
  }

  lemma GrowsKeeps(s: Space, s': Space, a: nat, k: nat)
    requires Grows(s, s') && k < |s.at| && k < |s.order|
    ensures k < |s'.at| && s'.at[k] == s.at[k] && k < |s'.order| && s'.order[k] == s.order[k]
    ensures a in s.from && s.from[a].Forwarded? ==> a in s'.from && s'.from[a] == s.from[a]
  {
  }

  lemma NewestCopy(heap: Heap, roots: seq<Word>, s: Space, n: nat, a: nat)
    requires a in heap && Inv(heap, roots, CopyOne(s, a, heap[a]), n) && |s.order| == |s.at|
    ensures var s' := CopyOne(s, a, heap[a]);
      && |s'.order| == |s'.at| == |s.at| + 1 && s'.order[|s.at|] == a && s'.at[|s.at|] == s.free
      && s'.from[a] == Forwarded(s.free) && s'.news[s.free] == heap[a]
  {
  }

  lemma Lengths(heap: Heap, roots: seq<Word>, s: Space, n: nat)
    requires Inv(heap, roots, s, n)
    ensures n <= |s.order| == |s.at| && s.from.Keys == heap.Keys
    ensures forall p :: p in s.news ==> p in s.at
    ensures forall k :: 0 <= k < |s.at| ==> s.at[k] in s.news && s.order[k] in heap
  {
  }

  lemma FreshAt(heap: Heap, roots: seq<Word>, s: Space, n: nat, k: nat)
    requires Inv(heap, roots, s, n) && n <= k < |s.order|
    ensures |s.order| == |s.at| && s.order[k] in heap && s.at[k] in s.news
    ensures Fresh(s.from, heap[s.order[k]], s.news[s.at[k]])
    ensures Forced(heap, roots, From(s.order[k])) && WfObj(heap, heap[s.order[k]])
  {
  }

  lemma ShapeOfFresh(f: map<nat, Cell>, o: Obj, o': Obj)
    requires Fresh(f, o, o')
    ensures o'.kind == o.kind && |o'.words| == |o.words| && |o'.pairs| == |o.pairs|
  {
  }

  lemma CdrOf(heap: Heap, roots: seq<Word>, s: Space, n: nat, a: nat)
    requires Inv(heap, roots, s, n) && a in heap && heap[a].kind.ConsCell? && Forced(heap, roots, From(a))
    ensures |heap[a].words| == 2 && WfWord(heap, heap[a].words[1]) && Forced(heap, roots, heap[a].words[1])
  {
    assert WfObj(heap, heap[a]);
    ChildForced(heap, roots, a, 1);
  }

  ghost function Uncopied(heap: Heap, order: seq<nat>): set<nat> {
    set a | a in heap && a !in order
  }

  lemma UncopiedShrinks(heap: Heap, roots: seq<Word>, s: Space, n: nat, a: nat)
    requires Inv(heap, roots, s, n) && a in heap && s.from[a].Live?
    ensures s.from[a] == Live(heap[a])
    ensures Uncopied(heap, s.order + [a]) < Uncopied(heap, s.order)
  {
    LiveNotCopied(heap, s, a);
    assert a in Uncopied(heap, s.order) && a !in Uncopied(heap, s.order + [a]);
  }

  lemma GrowsRefl(s: Space)
    ensures Grows(s, s)
  {
  }

  lemma LaterRefl(s: Space)
    ensures Later(s, s)
  {
  }

  lemma LaterStep(s0: Space, s1: Space, s2: Space, s3: Space)
    requires Later(s0, s1) && Grows(s1, s2) && s3.order == s2.order && s3.at == s2.at && s3.from == s2.from
    ensures Later(s0, s3)
  {
  }

  /** The first `i` strong words have been scavenged. */
  ghost predicate Half(f: map<nat, Cell>, o: Obj, o': Obj, i: nat) {
    && o'.kind == o.kind && i <= |o'.words| == |o.words| && |o'.pairs| == |o.pairs|
    && forall j :: 0 <= j < i ==> Done(f, o.words[j], o'.words[j])
  }

  lemma HalfStart(f: map<nat, Cell>, o: Obj, o': Obj)
    requires Fresh(f, o, o')
    ensures Half(f, o, o', 0)
  {
  }

  lemma OutsideForced(heap: Heap, roots: seq<Word>, w: Word)
    ensures !w.From? ==> Forced(heap, roots, w)
  {
  }

  /** A word of an unscanned copy may be scavenged. */
  lemma FreshWord(heap: Heap, roots: seq<Word>, s: Space, o: Obj, n: nat, i: nat)
    requires Inv(heap, roots, s, n) && n < |s.order| && s.order[n] in heap && heap[s.order[n]] == o
    requires i < |s.news[s.at[n]].words|
    ensures var w := s.news[s.at[n]].words[i];
      (w.From? ==> WfWord(heap, w)) && Forced(heap, roots, w) && i < |o.words| && (w == o.words[i] || Done(s.from, o.words[i], w))
  {
    hide Inv, Forced;
    FreshAt(heap, roots, s, n, n);
    ChildForced(heap, roots, s.order[n], i);
    OutsideForced(heap, roots, s.news[s.at[n]].words[i]);
  }

  lemma HalfGrows(heap: Heap, s: Space, s': Space, o: Obj, p: nat, n: nat, i: nat, w: Word)
    requires Grows(s, s') && p in s.news && n < |s.at| && n < |s.order|
    requires Half(s.from, o, s.news[p], i) && i < |o.words|
    requires s.news[p].words[i] == o.words[i] || Done(s.from, o.words[i], s.news[p].words[i])
    requires Done(s'.from, s.news[p].words[i], w)
    ensures p in s'.news && s'.news[p] == s.news[p]
    ensures Half(s'.from, o, SetWord(s.news[p], i, w), i + 1) && Done(s'.from, o.words[i], w)
    ensures n < |s'.at| && s'.at[n] == s.at[n] && n < |s'.order| && s'.order[n] == s.order[n]
  {
  }

  // ---- Weak tables ----

  /** The entry liveness test of each weakness. */
  predicate EntryAlive(f: map<nat, Cell>, kind: Kind, p: Pair)
    requires kind.WeakTable?
  {
    if kind.byKey && kind.byValue then Survived(f, p.key) || Survived(f, p.value)
    else if kind.byKey then Survived(f, p.key)
    else if kind.byValue then Survived(f, p.value)
    else Survived(f, p.key) && Survived(f, p.value)
  }

  ghost predicate MoreTriggers(t: map<nat, seq<Word>>, t': map<nat, seq<Word>>) {
    forall k :: k in t ==> k in t' && forall w :: w in t[k] ==> w in t'[k]
  }

  lemma ScannedMore(f: map<nat, Cell>, t: map<nat, seq<Word>>, t': map<nat, seq<Word>>, l: bool, l': bool, o: Obj, o': Obj)
    requires Scanned(f, t, l, o, o') && (l ==> l') && MoreTriggers(t, t')
    ensures Scanned(f, t', l', o, o')
  {
  }

  function Watch(t: map<nat, seq<Word>>, k: nat, w: Word): map<nat, seq<Word>> {
    t[k := [w] + if k in t then t[k] else []]
  }

  lemma WatchMore(t: map<nat, seq<Word>>, k: nat, w: Word)
    ensures MoreTriggers(t, Watch(t, k, w)) && w in Watch(t, k, w)[k]
  {
    var t' := Watch(t, k, w);
    assert t'[k][0] == w;
    forall q, v | q in t && v in t[q] ensures v in t'[q] {
      if q == k { assert t'[k][1..] == t[k]; }
    }
  }

  /** Adding triggers and listing tables for culling changes nothing for the copies. */
  lemma CopiesMore(heap: Heap, s: Space, t: map<nat, seq<Word>>, d: set<nat>, n: nat)
    requires Copies(heap, s, n) && MoreTriggers(s.triggers, t) && s.deferred <= d
    requires forall p :: p in d ==> p in s.at && p in s.news && s.news[p].kind.WeakTable?
    ensures Copies(heap, s.(triggers := t, deferred := d), n)
  {
    hide Scanned, Fresh, MoreTriggers;
    forall k | 0 <= k < n ensures Scanned(s.from, t, s.at[k] in d, heap[s.order[k]], s.news[s.at[k]]) {
      ScannedMore(s.from, s.triggers, t, s.at[k] in s.deferred, s.at[k] in d, heap[s.order[k]], s.news[s.at[k]]);
    }
  }

  lemma WatchSound(heap: Heap, roots: seq<Word>, s: Space, k: nat, w: Word)
    requires Sound(heap, roots, s.order, s.triggers) && TriggerOk(heap, roots, k, w)
    ensures Sound(heap, roots, s.order, Watch(s.triggers, k, w))
  {
    hide Forced, TriggerOk;
    var t := Watch(s.triggers, k, w);
    forall q, i | q in t && 0 <= i < |t[q]| ensures TriggerOk(heap, roots, q, t[q][i]) {
      if q == k && i > 0 { assert t[q][i] == s.triggers[k][i - 1]; }
    }
  }

  lemma WatchKeeps(heap: Heap, roots: seq<Word>, s: Space, n: nat, k: nat, w: Word)
    requires Inv(heap, roots, s, n) && TriggerOk(heap, roots, k, w)
    ensures Inv(heap, roots, s.(triggers := Watch(s.triggers, k, w)), n)
  {
    hide WfHeap, Tiled, Linked, Sound, Watch, MoreTriggers, TriggerOk, Scanned, Fresh;
    WatchMore(s.triggers, k, w);
    CopiesMore(heap, s, Watch(s.triggers, k, w), s.deferred, n);
    WatchSound(heap, roots, s, k, w);
  }

  lemma ListKeeps(heap: Heap, roots: seq<Word>, s: Space, n: nat, p: nat)
    requires Inv(heap, roots, s, n) && p in s.at && p in s.news && s.news[p].kind.WeakTable?
    ensures Inv(heap, roots, s.(deferred := s.deferred + {p}), n)
  {
    hide WfHeap, Tiled, Linked, Sound, Scanned, Fresh, MoreTriggers;
    MoreRefl(s.triggers);
    CopiesMore(heap, s, s.triggers, s.deferred + {p}, n);
  }

  /** The entries below `i` have been scavenged, or deferred with their triggers set; the rest are untouched. */
  ghost predicate PairsHalf(f: map<nat, Cell>, t: map<nat, seq<Word>>, o: Obj, o': Obj, i: nat, some: bool) {
    && o.kind.WeakTable? && o'.kind == o.kind && i <= |o'.pairs| == |o.pairs|
    && (forall j :: 0 <= j < i ==>
          || DonePair(f, o.pairs[j], o'.pairs[j])
          || (some && o'.pairs[j] == o.pairs[j] && Deferred(f, t, o.kind, o.pairs[j])))
    && (forall j :: i <= j < |o.pairs| ==> o'.pairs[j] == o.pairs[j] || DonePair(f, o.pairs[j], o'.pairs[j]))
  }

  lemma PairsHalfGrows(f: map<nat, Cell>, f': map<nat, Cell>, t: map<nat, seq<Word>>, t': map<nat, seq<Word>>, o: Obj, o': Obj, i: nat, some: bool)
    requires PairsHalf(f, t, o, o', i, some) && MoreTriggers(t, t')
    requires forall a :: a in f && f[a].Forwarded? ==> a in f' && f'[a] == f[a]
    ensures PairsHalf(f', t', o, o', i, some)
  {
    forall j | 0 <= j < i
      ensures DonePair(f', o.pairs[j], o'.pairs[j])
           || (some && o'.pairs[j] == o.pairs[j] && Deferred(f', t', o.kind, o.pairs[j]))
    {
      if DonePair(f, o.pairs[j], o'.pairs[j]) { assert DonePair(f', o.pairs[j], o'.pairs[j]); }
    }
    forall j | i <= j < |o.pairs| ensures o'.pairs[j] == o.pairs[j] || DonePair(f', o.pairs[j], o'.pairs[j]) {
      if DonePair(f, o.pairs[j], o'.pairs[j]) { assert DonePair(f', o.pairs[j], o'.pairs[j]); }
    }
  }

  function SetPair(o: Obj, i: nat, p: Pair): Obj
    requires i < |o.pairs|
  {
    o.(pairs := o.pairs[i := p])
  }

  lemma PairDone(f: map<nat, Cell>, t: map<nat, seq<Word>>, o: Obj, o': Obj, i: nat, some: bool, p: Pair)
    requires PairsHalf(f, t, o, o', i, some) && i < |o.pairs| && DonePair(f, o.pairs[i], p)
    ensures PairsHalf(f, t, o, SetPair(o', i, p), i + 1, some)
  {
  }

  lemma PairDeferred(f: map<nat, Cell>, t: map<nat, seq<Word>>, o: Obj, o': Obj, i: nat, some: bool)
    requires PairsHalf(f, t, o, o', i, some) && i < |o.pairs| && o'.pairs[i] == o.pairs[i] && Deferred(f, t, o.kind, o.pairs[i])
    ensures PairsHalf(f, t, o, o', i + 1, true)
  {
  }

  lemma FreshSetPair(f: map<nat, Cell>, o: Obj, o': Obj, i: nat, p: Pair)
    requires Fresh(f, o, o') && i < |o.pairs| && DonePair(f, o.pairs[i], p)
    ensures Fresh(f, o, SetPair(o', i, p))
  {
  }

  /** An entry found alive has both halves forced, be it as it was or scavenged before. */
  lemma AliveForced(heap: Heap, roots: seq<Word>, s: Space, n: nat, k: nat, i: nat, p: Pair)
    requires Inv(heap, roots, s, n) && k < |s.order| && s.order[k] in heap && heap[s.order[k]].kind.WeakTable?
    requires i < |heap[s.order[k]].pairs| && EntryAlive(s.from, heap[s.order[k]].kind, p)
    requires p == heap[s.order[k]].pairs[i] || DonePair(s.from, heap[s.order[k]].pairs[i], p)
    ensures Forced(heap, roots, p.key) && Forced(heap, roots, p.value)
  {
    hide Tiled, Copies, WfHeap;
    OutsideForced(heap, roots, p.key);
    OutsideForced(heap, roots, p.value);
    if p != heap[s.order[k]].pairs[i] { return; }
    if Survived(s.from, p.key) { SurvivedForced(heap, roots, s, p.key); }
    if Survived(s.from, p.value) { SurvivedForced(heap, roots, s, p.value); }
    hide Forced;
    EntryForced(heap, roots, s.order[k], i);
  }

  lemma SurvivedForced(heap: Heap, roots: seq<Word>, s: Space, w: Word)
    requires Linked(heap, s.from, s.news.Keys, s.order, s.at) && Sound(heap, roots, s.order, s.triggers) && Survived(s.from, w)
    ensures Forced(heap, roots, w)
  {
    if w.From? {
      var k :| 0 <= k < |s.order| && s.order[k] == w.addr;
    }
  }

  lemma DeferredOk(heap: Heap, roots: seq<Word>, s: Space, n: nat, k: nat, i: nat)
    requires Inv(heap, roots, s, n) && k < |s.order| && s.order[k] in heap && heap[s.order[k]].kind.WeakTable?
    requires i < |heap[s.order[k]].pairs|
    ensures var o, p := heap[s.order[k]], heap[s.order[k]].pairs[i];
      && WfWord(heap, p.key) && WfWord(heap, p.value)
      && (o.kind.byKey && p.key.From? ==> TriggerOk(heap, roots, p.key.addr, p.value))
      && (o.kind.byValue && p.value.From? ==> TriggerOk(heap, roots, p.value.addr, p.key))
  {
    hide Tiled, Linked, Copies, Forced;
    assert WfObj(heap, heap[s.order[k]]);
    EntryForced(heap, roots, s.order[k], i);
    ForcedAddr(heap, roots, heap[s.order[k]].pairs[i].key);
    ForcedAddr(heap, roots, heap[s.order[k]].pairs[i].value);
  }

  lemma ForcedAddr(heap: Heap, roots: seq<Word>, w: Word)
    ensures w.From? && Forced(heap, roots, From(w.addr)) ==> Forced(heap, roots, w)
  {
  }

  /** A table all of whose words and entries have been dealt with has been scanned. */
  lemma WholeScan(f: map<nat, Cell>, t: map<nat, seq<Word>>, l: bool, o: Obj, o': Obj, some: bool)
    requires Half(f, o, o', |o.words|) && PairsHalf(f, t, o, o', |o.pairs|, some) && (some ==> l)
    ensures Scanned(f, t, l, o, o')
  {
  }

  lemma PairsStart(f: map<nat, Cell>, t: map<nat, seq<Word>>, o: Obj, o': Obj)
    requires Fresh(f, o, o') && o.kind.WeakTable?
    ensures PairsHalf(f, t, o, o', 0, false)
    ensures !o.kind.byKey && !o.kind.byValue ==> PairsHalf(f, t, o, o', |o.pairs|, true)
  {
  }

  lemma MoreRefl(t: map<nat, seq<Word>>)
    ensures MoreTriggers(t, t)
  {
  }

  lemma MoreTrans(t1: map<nat, seq<Word>>, t2: map<nat, seq<Word>>, t3: map<nat, seq<Word>>)
    requires MoreTriggers(t1, t2) && MoreTriggers(t2, t3)
    ensures MoreTriggers(t1, t3)
  {
  }

  lemma WatchedMore(f: map<nat, Cell>, t: map<nat, seq<Word>>, t': map<nat, seq<Word>>, k: Word, v: Word)
    requires MoreTriggers(t, t')
    ensures Watched(f, t, k, v) ==> Watched(f, t', k, v)
  {
  }

  lemma PairAt(f: map<nat, Cell>, t: map<nat, seq<Word>>, o: Obj, o': Obj, i: nat, some: bool)
    requires PairsHalf(f, t, o, o', i, some) && i < |o.pairs|
    ensures i < |o'.pairs| && o'.kind == o.kind
    ensures o'.pairs[i] == o.pairs[i] || DonePair(f, o.pairs[i], o'.pairs[i])
  {
  }

  lemma EntryScavenged(s0: Space, s1: Space, s2: Space, o: Obj, p: nat, i: nat, some: bool, e: Pair, e': Pair, n: nat)
    requires Grows(s0, s1) && Grows(s1, s2) && p in s0.news && PairsHalf(s0.from, s0.triggers, o, s0.news[p], i, some)
    requires Done(s1.from, e.key, e'.key) && Done(s2.from, e.value, e'.value)
    requires i < |o.pairs| && (e == o.pairs[i] || DonePair(s0.from, o.pairs[i], e))
    requires n < |s0.order| && n < |s0.at|
    ensures p in s2.news && s2.news[p] == s0.news[p] && s2.triggers == s0.triggers && Later(s0, s2)
    ensures PairsHalf(s2.from, s2.triggers, o, s2.news[p], i, some) && DonePair(s2.from, o.pairs[i], e')
    ensures n < |s2.order| && s2.order[n] == s0.order[n] && n < |s2.at| && s2.at[n] == s0.at[n]
  {
    hide PairsHalf, MoreTriggers;
    MoreRefl(s0.triggers);
    PairsHalfGrows(s0.from, s2.from, s0.triggers, s0.triggers, o, s0.news[p], i, some);
  }

  lemma LaterTrans(s1: Space, s2: Space, s3: Space)
    requires Later(s1, s2) && Later(s2, s3)
    ensures Later(s1, s3)
  {
  }

  lemma LaterAt(s: Space, s': Space, k: nat)
    requires Later(s, s') && k < |s.order| && k < |s.at|
    ensures k < |s'.order| && s'.order[k] == s.order[k] && k < |s'.at| && s'.at[k] == s.at[k]
  {
  }

  lemma PlainScan(f: map<nat, Cell>, t: map<nat, seq<Word>>, l: bool, o: Obj, o': Obj)
    requires Half(f, o, o', |o.words|) && |o.pairs| == 0
    ensures Scanned(f, t, l, o, o')
  {
  }

  lemma KindOfHalf(f: map<nat, Cell>, o: Obj, o': Obj, i: nat)
    requires Half(f, o, o', i)
    ensures o'.kind == o.kind && |o'.words| == |o.words| && |o'.pairs| == |o.pairs|
  {
  }

  lemma LaterHalf(s: Space, s': Space, o: Obj, o1: Obj, o2: Obj, i: nat, some: bool)
    requires Later(s, s') && Half(s.from, o, o1, |o.words|) && PairsHalf(s'.from, s'.triggers, o, o2, i, some)
    requires o2.words == o1.words
    ensures Half(s'.from, o, o2, |o.words|) && o2.kind == o.kind && |o2.pairs| == |o.pairs|
  {
  }

  lemma LaterOnlyList(s0: Space, s: Space, s': Space)
    requires Later(s0, s) && s'.order == s.order && s'.at == s.at && s'.from == s.from
    ensures Later(s0, s')
  {
  }

  lemma PosOrder(heap: Heap, roots: seq<Word>, s: Space, n: nat, i: nat, m: nat)
    requires Inv(heap, roots, s, n) && i <= m <= |s.at|
    ensures i < m <==> Pos(s, i) < Pos(s, m)
  {
    hide Size, Linked, Copies, Sound, WfHeap;
    if i < |s.at| { BelowFree(heap, s, i); }
  }

  lemma Positions(heap: Heap, roots: seq<Word>, s: Space, n: nat, s': Space, n': nat, k: nat)
    requires Inv(heap, roots, s, n) && Inv(heap, roots, s', n') && Later(s, s') && k <= |s.at|
    ensures Pos(s', k) == Pos(s, k) && k <= |s'.at|
  {
    PosStable(heap, s, s', k);
  }

  /** No trigger is left whose object has survived. */
  ghost predicate Quiet(f: map<nat, Cell>, t: map<nat, seq<Word>>) {
    forall k :: k in t ==> !Survived(f, From(k))
  }

  /** If nothing was copied, nothing was forwarded. */
  lemma SameOrder(heap: Heap, roots: seq<Word>, s0: Space, s1: Space, s2: Space, n: nat)
    requires Inv(heap, roots, s0, n) && Inv(heap, roots, s2, n) && Later(s0, s1) && Later(s1, s2)
    ensures s2.order == s0.order ==> s1.order == s0.order && s2.from == s0.from
  {
    hide Tiled, Copies, Sound, WfHeap;
    if s2.order == s0.order {
      assert s2.at == s0.at;
      forall a | a in heap ensures s2.from[a] == s0.from[a] {
        if a in s0.order {
          var k :| 0 <= k < |s0.order| && s0.order[k] == a;
          assert s2.from[s2.order[k]] == Forwarded(s2.at[k]) && s0.from[s0.order[k]] == Forwarded(s0.at[k]);
        }
      }
    }
  }

  lemma LivenedForced(heap: Heap, roots: seq<Word>, s0: Space, s: Space, n: nat, t: nat, i: nat)
    requires Inv(heap, roots, s, n) && Grows(s0, s) && t in s0.triggers && i < |s0.triggers[t]|
    requires Survived(s0.from, From(t))
    ensures WfWord(heap, s0.triggers[t][i]) && Forced(heap, roots, s0.triggers[t][i])
  {
    hide Tiled, Copies, WfHeap, Forced;
    SurvivedForced(heap, roots, s, From(t));
    assert TriggerOk(heap, roots, t, s.triggers[t][i]);
  }

  lemma SurvivalGrows(s: Space, s': Space)
    requires Grows(s, s')
    ensures forall w :: Survived(s.from, w) ==> Survived(s'.from, w)
  {
  }

  lemma GrowsLater(s0: Space, s: Space, s': Space)
    requires Grows(s0, s) && s'.order == s.order && s'.at == s.at && s'.from == s.from
    ensures Later(s0, s')
  {
  }

  lemma ScannedDrop(f: map<nat, Cell>, t: map<nat, seq<Word>>, k: nat, l: bool, o: Obj, o': Obj)
    requires Scanned(f, t, l, o, o') && k in t && forall w :: w in t[k] ==> Survived(f, w)
    ensures Scanned(f, t - {k}, l, o, o')
  {
  }

  /** A trigger all of whose words have survived can be dropped. */
  lemma DropKeeps(heap: Heap, roots: seq<Word>, s: Space, n: nat, t: nat)
    requires Inv(heap, roots, s, n) && t in s.triggers && forall w :: w in s.triggers[t] ==> Survived(s.from, w)
    ensures Inv(heap, roots, s.(triggers := s.triggers - {t}), n)
  {
    hide WfHeap, Tiled, Linked, Scanned, Fresh, Forced, TriggerOk;
    forall k | 0 <= k < n
      ensures Scanned(s.from, s.triggers - {t}, s.at[k] in s.deferred, heap[s.order[k]], s.news[s.at[k]])
    {
      ScannedDrop(s.from, s.triggers, t, s.at[k] in s.deferred, heap[s.order[k]], s.news[s.at[k]]);
    }
  }

  lemma StartPos(heap: Heap, roots: seq<Word>, s: Space)
    requires Inv(heap, roots, s, 0)
    ensures Pos(s, 0) == 0
  {
  }

  lemma {:induction false} DistinctBound(heap: Heap, order: seq<nat>)
    requires forall k :: 0 <= k < |order| ==> order[k] in heap
    requires forall i, j :: 0 <= i < j < |order| ==> order[i] != order[j]
    ensures |order| <= |heap|
    decreases |order|
  {
    if order != [] {
      var z := order[|order| - 1];
      DistinctBound(heap - {z}, order[..|order| - 1]);
      assert (heap - {z}).Keys == heap.Keys - {z};
      assert |(heap - {z}).Keys| == |heap.Keys| - 1;
    }
  }

  lemma Bounded(heap: Heap, roots: seq<Word>, s: Space, n: nat)
    requires Inv(heap, roots, s, n)
    ensures |s.order| <= |heap|
  {
    hide Size;
    DistinctBound(heap, s.order);
  }

  lemma Caught(heap: Heap, roots: seq<Word>, s: Space, k: nat)
    requires Inv(heap, roots, s, k)
    ensures k <= |s.at| == |s.order| <= |heap| && (k < |s.at| <==> s.free > Pos(s, k))
  {
    Bounded(heap, roots, s, k);
    PosOrder(heap, roots, s, k, k, |s.at|);
  }

  lemma Fired(heap: Heap, roots: seq<Word>, s: Space, s': Space, n: nat)
    requires Inv(heap, roots, s, n) && Inv(heap, roots, s', n) && Later(s, s') && n == |s.order|
    ensures n <= |s'.at| == |s'.order| <= |heap| && (n < |s'.at| <==> s'.free > Pos(s', n))
    ensures Pos(s', n) == s.free && (n == |s'.order| ==> s'.order == s.order)
  {
    Caught(heap, roots, s', n);
    Lengths(heap, roots, s, n);
    Positions(heap, roots, s, n, s', n, n);
  }

  lemma DoneGrows(s: Space, s': Space)
    requires Grows(s, s')
    ensures forall w, w' :: Done(s.from, w, w') ==> Done(s'.from, w, w')
  {
  }

  lemma DoneLater(s: Space, s': Space)
    requires Later(s, s')
    ensures forall w, w' :: Done(s.from, w, w') ==> Done(s'.from, w, w')
  {
  }
}
