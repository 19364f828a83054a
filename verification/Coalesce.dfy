/**
 * `coalesce_obj` and `coalesce_range`: slots are rewritten in place so that equal constants are
 * shared.  The hash table is an association list from the hash a key had when it went in.
 */
module Coalesce {
  import opened CoalesceSpec

  /** A slot: which object, and which of its words. */
  datatype Slot = Slot(a: Addr, i: nat)

  class Coalescer {
    var heap: Heap
    var table: Keys
    const mix: Mixer
    const aggressive: bool

    constructor (heap: Heap, mix: Mixer, aggressive: bool)
      requires WellFormed(heap)
      ensures this.heap == heap && table == [] && this.mix == mix && this.aggressive == aggressive
      ensures Valid()
    {
      this.heap := heap;
      this.mix := mix;
      this.aggressive := aggressive;
      table := [];
    }

    ghost predicate Valid()
      reads this
    {
      WellFormed(heap) && TableOk(heap, table, mix, aggressive)
    }

    /** 1 for a slot that leads to a simple vector, whose elements are visited first. */
    ghost function Rank(a: Addr, i: nat): (r: nat)
      reads this
      requires SlotExists(heap, a, i)
    {
      var w := heap[a].words[i];
      if w.Ref? && w.a in heap && heap[w.a].kind.SimpleVector? then 1 else 0
    }

    /**
     * Coalesces the object a slot leads to.  Nothing changes its meaning; the slot ends up
     * leading to a key if to anything coalescible; and a slot that did so already is left alone.
     */
    method CoalesceObj(a: Addr, i: nat)
      requires Valid() && SlotExists(heap, a, i)
      modifies this`heap, this`table
      ensures Steps(old(heap), old(table), heap, table, mix, aggressive)
      ensures SettledAt(heap, table, a, i, aggressive)
      ensures old(SettledAt(heap, table, a, i, aggressive)) ==> heap == old(heap) && table == old(table)
      ensures old(Rank(a, i)) == 0 ==> forall x | x in heap && x in old(heap) && x != a :: heap[x] == old(heap)[x]
      decreases 2 * Rank(a, i)
    {
      hide TableOk, WellFormed, Steps, Settled, SettledWords, Coalescible, CoalescibleVector;
      StepsRefl(heap, table, mix, aggressive);
      var ptr := heap[a].words[i];
      if ptr.Ref? { PointsInside(heap, a, i); }
      if !ptr.Ref? || !heap[ptr.a].managed {
        UnmanagedSettled(heap, table, ptr, aggressive);
        return;
      }
      var obj := ptr.a;
      if !Coalescible(heap, obj, aggressive) {
        NotCoalescibleSettled(heap, table, ptr, aggressive);
        return;
      }
      ghost var h, t := heap, table;
      if heap[obj].kind.SimpleVector? {
        VectorByKind(heap, obj, aggressive);
        if a == obj { VectorIsFlat(heap, obj, i, aggressive); }
        if SettledAt(heap, table, a, i, aggressive) {
          SettledKey(heap, table, obj, aggressive);
          KeyWordsSettled(heap, table, obj, mix, aggressive);
        }
        CoalesceElements(obj);
        StepsValid(h, t, heap, table, mix, aggressive);
        StepsObject(h, t, heap, table, mix, aggressive, obj);
      } else {
        LeafWordsSettled(heap, table, obj, aggressive);
      }
      ghost var k, u := heap, table;
      Share(a, i, obj);
      StepsTrans(h, t, k, u, heap, table, mix, aggressive);
    }

    /** The last part of `coalesce_obj`: look the object up, then insert it or redirect the slot. */
    method Share(a: Addr, i: nat, obj: Addr)
      requires Valid() && SlotExists(heap, a, i) && heap[a].words[i] == Ref(obj)
      requires Coalescible(heap, obj, aggressive) && SettledWords(heap, table, obj, aggressive)
      modifies this`heap, this`table
      ensures Steps(old(heap), old(table), heap, table, mix, aggressive)
      ensures SettledAt(heap, table, a, i, aggressive)
      ensures old(SettledAt(heap, table, a, i, aggressive)) ==> heap == old(heap) && table == old(table)
      ensures forall x | x in heap && x in old(heap) && x != a :: heap[x] == old(heap)[x]
    {
      hide TableOk, WellFormed, Steps, Settled, SettledWords, Coalescible, Find, HashOf, CanRedirect;
      PointsInside(heap, a, i);
      ghost var wasKey := IsKey(table, obj);
      if wasKey { FindSelf(heap, table, obj, mix, aggressive); }
      if SettledAt(heap, table, a, i, aggressive) { SettledKey(heap, table, obj, aggressive); }
      match Find(table, heap, obj, HashOf(heap[obj], mix)) {
        case None =>
          InsertSteps(heap, table, obj, mix, aggressive);
          table := table + [Entry(HashOf(heap[obj], mix), obj)];
          KeySettled(heap, table, obj, aggressive);
        case Some(key) =>
          FoundKey(heap, table, a, i, obj, key, mix, aggressive);
          RedirectIsSlot(heap, a, i, obj, key, aggressive);
          RedirectSteps(heap, a, i, obj, key, table, mix, aggressive);
          heap := Redirected(heap, a, i, key);
      }
    }

    /** Coalesces each element of a coalescible simple vector. */
    method CoalesceElements(v: Addr)
      requires Valid() && v in heap && CoalescibleVector(heap, heap[v], aggressive)
      modifies this`heap, this`table
      ensures Steps(old(heap), old(table), heap, table, mix, aggressive)
      ensures SettledWords(heap, table, v, aggressive)
      ensures old(SettledWords(heap, table, v, aggressive)) ==> heap == old(heap) && table == old(table)
      ensures forall x | x in heap && x in old(heap) && x != v :: heap[x] == old(heap)[x]
      decreases 1
    {
      hide TableOk, WellFormed, Steps, Settled, SettledWords, Coalescible, CoalescibleVector, SettledAt;
      StepsRefl(heap, table, mix, aggressive);
      VectorCoalescible(heap, v, aggressive);
      ghost var h, t := heap, table;
      ghost var was := SettledWords(heap, table, v, aggressive);
      var n := |heap[v].words|;
      var j: nat := 0;
      while j < n
        invariant Valid() && Steps(h, t, heap, table, mix, aggressive)
        invariant j <= n && v in heap && |heap[v].words| == n && heap.Keys == h.Keys
        invariant Coalescible(heap, v, aggressive) && heap[v].kind.SimpleVector?
        invariant forall i: nat | i < j :: SettledAt(heap, table, v, i, aggressive)
        invariant was ==> heap == h && table == t
        invariant forall x | x in heap && x in h && x != v :: heap[x] == h[x]
      {
        ghost var k, u := heap, table;
        VectorByKind(heap, v, aggressive);
        VectorIsFlat(heap, v, j, aggressive);
        if was { WordSettled(heap, table, v, j, aggressive); }
        CoalesceObj(v, j);
        StepsValid(k, u, heap, table, mix, aggressive);
        StepsObject(k, u, heap, table, mix, aggressive, v);
        StepsTrans(h, t, k, u, heap, table, mix, aggressive);
        forall i: nat | i < j ensures SettledAt(heap, table, v, i, aggressive) {
          SettledAtStays(k, u, heap, table, mix, aggressive, v, i);
        }
        j := j + 1;
      }
      AllSettled(heap, table, v, aggressive);
    }

    /** Visits slots in any order; a slot may occur more than once. */
    method CoalesceRange(slots: seq<Slot>)
      requires Valid()
      requires forall s | s in slots :: SlotExists(heap, s.a, s.i)
      modifies this`heap, this`table
      ensures Steps(old(heap), old(table), heap, table, mix, aggressive)
      ensures forall s | s in slots :: SettledAt(heap, table, s.a, s.i, aggressive)
      ensures Valid()
      ensures forall a, i: nat | SlotExists(old(heap), a, i) :: SlotExists(heap, a, i) && SlotKept(old(heap), heap, aggressive, a, i)
      ensures forall p, q | p in slots && q in slots && LedAlike(old(heap), aggressive, p, q) ::
        SameWord(heap, p, q)
    {
      hide TableOk, WellFormed, Steps, SettledAt, SlotExists, SlotKept, LedAlike, SameWord;
      StepsRefl(heap, table, mix, aggressive);
      ghost var h, t := heap, table;
      for n := 0 to |slots|
        invariant Valid() && Steps(h, t, heap, table, mix, aggressive)
        invariant forall s | s in slots[..n] :: SettledAt(heap, table, s.a, s.i, aggressive)
      {
        var s := slots[n];
        ghost var k, u := heap, table;
        SlotStays(h, t, heap, table, mix, aggressive, s.a, s.i);
        CoalesceObj(s.a, s.i);
        StepsValid(k, u, heap, table, mix, aggressive);
        StepsTrans(h, t, k, u, heap, table, mix, aggressive);
        forall s | s in slots[..n] ensures SettledAt(heap, table, s.a, s.i, aggressive) {
          SettledAtStays(k, u, heap, table, mix, aggressive, s.a, s.i);
        }
        assert slots[..n + 1] == slots[..n] + [s];
      }
      assert slots[..|slots|] == slots;
      forall a, i: nat | SlotExists(h, a, i) ensures SlotExists(heap, a, i) && SlotKept(h, heap, aggressive, a, i) {
        OnlySharedMoves(h, t, heap, table, mix, aggressive, a, i);
      }
      forall p, q | p in slots && q in slots && LedAlike(h, aggressive, p, q)
        ensures SameWord(heap, p, q)
      {
        AlikeShared(h, t, heap, table, mix, aggressive, p, q);
      }
    }
  }

  lemma SettledKey(h: Heap, t: Keys, v: Addr, aggressive: bool)
    requires Settled(h, t, Ref(v), aggressive) && Coalescible(h, v, aggressive)
    ensures IsKey(t, v)
  {
  }

  lemma KeySettled(h: Heap, t: Keys, v: Addr, aggressive: bool)
    requires IsKey(t, v)
    ensures Settled(h, t, Ref(v), aggressive)
  {
  }

  lemma WordSettled(h: Heap, t: Keys, v: Addr, j: nat, aggressive: bool)
    requires SettledWords(h, t, v, aggressive) && SlotExists(h, v, j)
    ensures SettledAt(h, t, v, j, aggressive)
  {
    assert h[v].words[j] in h[v].words;
  }

  lemma AllSettled(h: Heap, t: Keys, v: Addr, aggressive: bool)
    requires v in h && forall j: nat | j < |h[v].words| :: SettledAt(h, t, v, j, aggressive)
    ensures SettledWords(h, t, v, aggressive)
  {
    forall w | w in h[v].words ensures Settled(h, t, w, aggressive) {
      var j :| 0 <= j < |h[v].words| && h[v].words[j] == w;
      assert SettledAt(h, t, v, j, aggressive);
    }
  }

  lemma RedirectIsSlot(h: Heap, a: Addr, i: nat, b: Addr, key: Addr, aggressive: bool)
    requires CanRedirect(h, a, i, b, key, aggressive)
    ensures SlotExists(h, a, i)
  {
  }

  // Which objects are shared, from their kind, header, space and words alone.

  /**
   * Bignums and floats, ratios and complex rationals of two fixnums; specialized vectors with a
   * shareable flag, and simple vectors with one whose elements are fixnums, NIL, bignums, symbols and
   * strings: each only in a managed space.  The first flag always counts, the second if `aggressive`.
   */
  ghost predicate MayShare(h: Heap, o: Object, aggressive: bool) {
    && o.managed
    && match o.kind
       case Bignum => true
       case Float(_) => true
       case Rational(_) => |o.words| == 2 && o.words[0].Fixnum? && o.words[1].Fixnum?
       case Specialized(_, _) => o.header % 2 == 1 || (aggressive && o.header / 2 % 2 == 1)
       case SimpleVector =>
         && (o.header % 2 == 1 || (aggressive && o.header / 2 % 2 == 1))
         && forall w | w in o.words :: w.Fixnum? || w == Nil || (w.Ref? && w.a in h &&
              (h[w.a].kind.Bignum? || h[w.a].kind.Symbol? || (h[w.a].kind.Specialized? && h[w.a].kind.isString)))
       case Symbol => false
       case Other(_) => false
  }

  /** Equal objects: of the same kind with the same words, and for numbers the same header. */
  ghost predicate Alike(x: Object, y: Object) {
    && x.kind == y.kind && x.words == y.words
    && (x.kind.Bignum? || x.kind.Float? || x.kind.Rational? ==> x.header == y.header)
  }

  /** The slot holds the same word, or both old and new word lead to objects that may be shared. */
  ghost predicate SlotKept(h: Heap, k: Heap, aggressive: bool, a: Addr, i: nat)
    requires SlotExists(h, a, i) && SlotExists(k, a, i)
  {
    k[a].words[i] != h[a].words[i] ==>
      var w, v := h[a].words[i], k[a].words[i];
      && w.Ref? && w.a in h && MayShare(h, h[w.a], aggressive)
      && v.Ref? && v.a in h && MayShare(h, h[v.a], aggressive)
      && h[v.a].kind == h[w.a].kind && (h[w.a].kind.SimpleVector? || Alike(h[w.a], h[v.a]))
  }

  /** Two slots lead to alike objects that may be shared. */
  ghost predicate LedAlike(h: Heap, aggressive: bool, p: Slot, q: Slot) {
    && SlotExists(h, p.a, p.i) && SlotExists(h, q.a, q.i)
    && var v, w := h[p.a].words[p.i], h[q.a].words[q.i];
       && v.Ref? && w.Ref? && v.a in h && w.a in h && Alike(h[v.a], h[w.a])
       && MayShare(h, h[v.a], aggressive) && MayShare(h, h[w.a], aggressive)
  }

  ghost predicate SameWord(h: Heap, p: Slot, q: Slot) {
    SlotExists(h, p.a, p.i) && SlotExists(h, q.a, q.i) && h[p.a].words[p.i] == h[q.a].words[q.i]
  }

  lemma ShareMeans(h: Heap, a: Addr, aggressive: bool)
    requires a in h
    ensures Coalescible(h, a, aggressive) <==> MayShare(h, h[a], aggressive)
  {
  }

  /**
   * A slot that changed led to an object that may be shared, and leads to another of the same kind
   * now, alike if it holds no pointers.  So a slot that led to an unmanaged object, a symbol, or a
   * vector without its flag holds the very same word.
   */
  lemma OnlySharedMoves(h: Heap, t: Keys, k: Heap, u: Keys, mix: Mixer, aggressive: bool, a: Addr, i: nat)
    requires Steps(h, t, k, u, mix, aggressive) && SlotExists(h, a, i)
    ensures SlotExists(k, a, i)
    ensures SlotKept(h, k, aggressive, a, i)
  {
    hide TableOk, Evolves, WellFormed, CoalescibleNumber, Shareable, EqlComparable, ElementMeanings, MayShare;
    SlotStays(h, t, k, u, mix, aggressive, a, i);
    var w, v := h[a].words[i], k[a].words[i];
    SameRoot(h, k, w, v, aggressive);
    if v != w {
      ShareMeans(h, w.a, aggressive);
      ShareMeans(h, v.a, aggressive);
    }
  }

  /** Two visited slots that led to alike objects that may be shared hold the same pointer afterwards. */
  lemma AlikeShared(h: Heap, t: Keys, k: Heap, u: Keys, mix: Mixer, aggressive: bool, p: Slot, q: Slot)
    requires Steps(h, t, k, u, mix, aggressive)
    requires SettledAt(k, u, p.a, p.i, aggressive) && SettledAt(k, u, q.a, q.i, aggressive)
    requires LedAlike(h, aggressive, p, q)
    ensures SameWord(k, p, q)
  {
    hide TableOk, Evolves, Preserves, WellFormed;
    var v, w := h[p.a].words[p.i], h[q.a].words[q.i];
    ShareMeans(h, v.a, aggressive);
    ShareMeans(h, w.a, aggressive);
    EqualMeaning(h, v.a, w.a, aggressive);
    Canonical(h, t, k, u, mix, aggressive, p, q);
  }

  // What coalescing is for.

  /**
   * Coalescing preserves values: in whatever heap it leaves, every slot of every object unfolds,
   * to any depth, to the same tree as before.
   */
  lemma ValuesPreserved(h: Heap, t: Keys, k: Heap, u: Keys, mix: Mixer, aggressive: bool, a: Addr, i: nat, depth: nat)
    requires WellFormed(h) && Steps(h, t, k, u, mix, aggressive) && SlotExists(h, a, i)
    ensures SlotExists(k, a, i)
    ensures Unfold(h, h[a].words[i], depth, aggressive) == Unfold(k, k[a].words[i], depth, aggressive)
  {
    hide TableOk, Evolves, Unfold, MeaningOf, Coalescible;
    SlotStays(h, t, k, u, mix, aggressive, a, i);
    SameUnfolding(h, k, h[a].words[i], k[a].words[i], depth, aggressive);
  }

  /**
   * Coalescing is canonical: two settled slots that meant the same coalescible thing before any
   * of it began hold the same pointer at the end.
   */
  lemma Canonical(h: Heap, t: Keys, k: Heap, u: Keys, mix: Mixer, aggressive: bool, p: Slot, q: Slot)
    requires Steps(h, t, k, u, mix, aggressive) && SlotExists(h, p.a, p.i) && SlotExists(h, q.a, q.i)
    requires SettledAt(k, u, p.a, p.i, aggressive) && SettledAt(k, u, q.a, q.i, aggressive)
    requires h[p.a].words[p.i].Ref? && Coalescible(h, h[p.a].words[p.i].a, aggressive)
    requires MeaningOf(h, h[p.a].words[p.i], aggressive) == MeaningOf(h, h[q.a].words[q.i], aggressive)
    ensures k[p.a].words[p.i] == k[q.a].words[q.i]
  {
    hide TableOk, Evolves, MeaningOf, Coalescible, WellFormed;
    var v, w := k[p.a].words[p.i], k[q.a].words[q.i];
    CoalescibleInside(h, h[p.a].words[p.i].a, aggressive);
    SameRoot(h, k, h[p.a].words[p.i], v, aggressive);
    SameRoot(h, k, h[p.a].words[p.i], w, aggressive);
    KeysCanonical(k, u, mix, aggressive, v.a, w.a);
  }

  lemma CoalescibleInside(h: Heap, a: Addr, aggressive: bool)
    requires Coalescible(h, a, aggressive)
    ensures a in h
  {
  }
}
