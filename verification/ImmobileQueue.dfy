/** Scavenging of newly live immobile objects: a bounded circular queue of grey objects that
    degrades, on overflow, to a scan over all objects. */
module ImmobileQueue {

  /** White: in the generation being collected. Grey: live, not scanned. Black: live, scanned or
      with nothing to scan. */
  datatype Colour = White | Grey | Black

  /** Managed objects in address order, what each points to, and which have no pointers. */
  datatype Space = Space(order: seq<nat>, kids: map<nat, seq<nat>>, leaf: set<nat>, page: map<nat, nat>)

  ghost predicate Wf(sp: Space) {
    && sp.kids.Keys == sp.page.Keys == (set o | o in sp.order)
    && (forall o, i :: o in sp.kids && 0 <= i < |sp.kids[o]| ==> sp.kids[o][i] in sp.kids)
    && (forall o :: o in sp.leaf && o in sp.kids ==> sp.kids[o] == [])
  }

  ghost predicate ClosedSet(sp: Space, s: set<nat>) {
    forall o, i :: o in s && o in sp.kids && 0 <= i < |sp.kids[o]| ==> sp.kids[o][i] in s
  }

  /** `x & (cap - 1)`, the capacity being a power of two. */
  function Wrap(cap: nat, x: nat): (i: nat)
    requires x < 2 * cap
    ensures i < cap && i == x % cap
  {
    ModOne(cap, x);
    if x < cap then x else x - cap
  }

  /** Position of the `k`th of the `count` latest entries of a ring. */
  function At(cap: nat, head: nat, count: nat, k: nat): (i: nat)
    requires head < cap && k < count <= cap
    ensures i < cap
  {
    Wrap(cap, head + cap - count + k)
  }

  /** `o` is one of the `count` latest entries. */
  ghost predicate Queued(queue: seq<nat>, head: nat, count: nat, o: nat)
    requires head < |queue| && count <= |queue|
  {
    exists k :: 0 <= k < count && queue[At(|queue|, head, count, k)] == o
  }

  /** A new entry goes where no current entry is, and becomes the latest. */
  lemma PushQueued(queue: seq<nat>, head: nat, count: nat, x: nat, o: nat)
    requires head < |queue| && count < |queue|
    ensures var queue', head' := queue[head := x], Wrap(|queue|, head + 1);
      Queued(queue', head', count + 1, o) <==> o == x || Queued(queue, head, count, o)
  {
    var queue', head', cap := queue[head := x], Wrap(|queue|, head + 1), |queue|;
    forall k | 0 <= k < count ensures At(cap, head', count + 1, k) == At(cap, head, count, k) != head {
      PushAt(cap, head, count, k);
    }
    PushAt(cap, head, count, count);
    if Queued(queue', head', count + 1, o) {
      var k :| 0 <= k < count + 1 && queue'[At(cap, head', count + 1, k)] == o;
      if k < count { assert queue[At(cap, head, count, k)] == o; }
    }
    if Queued(queue, head, count, o) {
      var k :| 0 <= k < count && queue[At(cap, head, count, k)] == o;
      assert queue'[At(cap, head', count + 1, k)] == o;
    }
  }

  lemma PushAt(cap: nat, head: nat, count: nat, k: nat)
    requires head < cap && count < cap && k <= count
    ensures At(cap, Wrap(cap, head + 1), count + 1, k) == if k == count then head else At(cap, head, count, k)
    ensures k < count ==> At(cap, head, count, k) != head
  {
  }

  lemma ModOne(cap: nat, x: nat)
    requires 0 < cap && x < 2 * cap
    ensures x % cap == if x < cap then x else x - cap
  {
    if x >= cap { assert x == cap + (x - cap); }
  }

  /** Dropping the oldest entry. */
  lemma PopQueued(queue: seq<nat>, head: nat, count: nat, o: nat)
    requires head < |queue| && 0 < count <= |queue|
    ensures Queued(queue, head, count, o) <==> o == queue[At(|queue|, head, count, 0)] || Queued(queue, head, count - 1, o)
  {
    if Queued(queue, head, count, o) {
      var k :| 0 <= k < count && queue[At(|queue|, head, count, k)] == o;
      if k > 0 { assert queue[At(|queue|, head, count - 1, k - 1)] == o; }
    }
    if Queued(queue, head, count - 1, o) {
      var k :| 0 <= k < count - 1 && queue[At(|queue|, head, count - 1, k)] == o;
      assert queue[At(|queue|, head, count, k + 1)] == o;
    }
  }

  /** A drain in progress: `n` entries ending before `to` were captured, `done` of them processed. */
  datatype Drain = Drain(to: nat, n: nat, done: nat, captured: seq<nat>)

  /** The captured entries not processed yet are still in place, and unless the queue has
      overflowed they are followed by exactly the entries added since. */
  ghost predicate Intact(d: Drain, queue: seq<nat>, head: nat, count: nat) {
    && 0 < |queue| && head < |queue| && d.to < |queue| && d.done <= d.n == |d.captured| <= |queue|
    && (forall j :: d.done <= j < d.n ==> queue[At(|queue|, d.to, d.n, j)] == d.captured[j])
    && (count <= |queue| ==> count >= d.n - d.done && head == Wrap(|queue|, d.to + (count - (d.n - d.done))))
  }

  /** Enqueuing never overwrites a captured entry that has not been processed. */
  lemma PushIntact(d: Drain, queue: seq<nat>, head: nat, count: nat, x: nat)
    requires Intact(d, queue, head, count) && count < |queue|
    ensures Intact(d, queue[head := x], Wrap(|queue|, head + 1), count + 1)
  {
    forall j | d.done <= j < d.n ensures At(|queue|, d.to, d.n, j) != head { }
  }

  lemma OverflowIntact(d: Drain, queue: seq<nat>, head: nat, count: nat)
    requires Intact(d, queue, head, count) && count == |queue|
    ensures Intact(d, queue, head, count + 1)
  {
  }

  /** The next captured entry is the oldest one in the queue. */
  lemma NextIsOldest(d: Drain, queue: seq<nat>, head: nat, count: nat)
    requires Intact(d, queue, head, count) && count <= |queue| && d.done < d.n
    ensures count > 0 && At(|queue|, head, count, 0) == At(|queue|, d.to, d.n, d.done)
  {
  }

  /** The entries to be drained. */
  ghost function Capture(queue: seq<nat>, head: nat, count: nat): (d: Drain)
    requires head < |queue| && 0 < count <= |queue|
    ensures Intact(d, queue, head, count) && d.to == head && d.n == count && d.done == 0
    ensures forall j :: 0 <= j < count ==> d.captured[j] == queue[At(|queue|, head, count, j)]
  {
    Drain(head, count, 0, seq(count, j requires 0 <= j < count => queue[At(|queue|, head, count, j)]))
  }

  /** Taking the next captured entry from the queue. */
  lemma TakeIntact(d: Drain, queue: seq<nat>, head: nat, count: nat)
    requires Intact(d, queue, head, count) && d.done < d.n
    ensures queue[At(|queue|, d.to, d.n, d.done)] == d.captured[d.done]
    ensures count <= |queue| ==> count > 0
    ensures Intact(d.(done := d.done + 1), queue, head, if count <= |queue| then count - 1 else count)
    ensures count <= |queue| ==>
      forall o :: Queued(queue, head, count, o) <==> o == d.captured[d.done] || Queued(queue, head, count - 1, o)
  {
    if count <= |queue| {
      NextIsOldest(d, queue, head, count);
      forall o ensures Queued(queue, head, count, o) <==> o == d.captured[d.done] || Queued(queue, head, count - 1, o) {
        PopQueued(queue, head, count, o);
      }
    }
  }

  /** The position after the last captured entry is `to`, and no earlier one is. */
  lemma NextPosition(d: Drain, cap: nat)
    requires d.to < cap && d.done < d.n <= cap
    ensures var i := Wrap(cap, At(cap, d.to, d.n, d.done) + 1);
      if d.done + 1 == d.n then i == d.to else i != d.to && i == At(cap, d.to, d.n, d.done + 1)
  {
  }

  lemma CapturedQueued(queue: seq<nat>, head: nat, count: nat)
    requires head < |queue| && 0 < count <= |queue|
    ensures var d := Capture(queue, head, count);
      && Wrap(|queue|, head + |queue| - count) == At(|queue|, head, count, 0)
      && |d.captured| == d.n && forall j :: 0 <= j < d.n ==> Queued(queue, head, count, d.captured[j])
  {
  }

  lemma NothingCaptured(queue: seq<nat>, head: nat)
    requires head < |queue|
    ensures Intact(Drain(head, 0, 0, []), queue, head, 0)
  {
  }

  lemma NoneQueued(queue: seq<nat>, head: nat)
    requires head < |queue|
    ensures forall o :: !Queued(queue, head, 0, o)
  {
  }

  lemma LeafEmpty(sp: Space, o: nat)
    requires Wf(sp) && o in sp.kids
    ensures o in sp.leaf ==> sp.kids[o] == []
  {
  }

  class Immobile {
    const sp: Space
    const queue: array<nat>
    var colour: map<nat, Colour>
    var flagged: set<nat>         // pages whose mask has the new-space bit
    var head: nat
    var count: nat                // more than the capacity once the queue has overflowed
    ghost var bound: set<nat>     // any set closed under pointers that holds what is live at the start

    ghost predicate Basic()
      reads this, queue
    {
      && Wf(sp) && 0 < queue.Length && head < queue.Length && colour.Keys == sp.kids.Keys == sp.page.Keys
      && (forall o :: o in colour && colour[o].Grey? ==> sp.page[o] in flagged)
      && ClosedSet(sp, bound) && (forall o :: o in colour && !colour[o].White? ==> o in bound)
      && (count <= queue.Length ==> forall o :: Queued(queue[..], head, count, o) ==> o in colour && !colour[o].White?)
    }

    /** No object that `o` points to is white. */
    ghost predicate Scanned(o: nat)
      reads this
      requires o in sp.kids
    {
      forall i :: 0 <= i < |sp.kids[o]| && sp.kids[o][i] in colour ==> !colour[sp.kids[o][i]].White?
    }

    /** Every grey object outside `exempt` is in the queue, unless the queue has overflowed, and no
        black object but `current` points to a white one. */
    ghost predicate Covered(exempt: set<nat>, current: set<nat>)
      reads this, queue
    {
      && Basic()
      && (forall o :: o in colour && colour[o].Black? ==> o in current || Scanned(o))
      && (count <= queue.Length ==>
            forall o :: o in colour && colour[o].Grey? ==> o in exempt || Queued(queue[..], head, count, o))
    }

    ghost function Whites(): set<nat>
      reads this
    {
      set o | o in colour && colour[o].White?
    }

    constructor (sp: Space, capacity: nat, colour: map<nat, Colour>, ghost bound: set<nat>)
      requires Wf(sp) && capacity > 0 && colour.Keys == sp.kids.Keys
      requires forall o :: o in colour ==> !colour[o].Grey?
      requires forall o, i :: o in sp.kids && colour[o].Black? && 0 <= i < |sp.kids[o]| ==> !colour[sp.kids[o][i]].White?
      requires ClosedSet(sp, bound) && forall o :: o in colour && !colour[o].White? ==> o in bound
      ensures this.bound == bound && this.sp == sp && this.colour == colour && count == 0 && queue.Length == capacity && fresh(queue) && Covered({}, {})
    {
      this.sp, this.colour, this.flagged, this.head, this.count := sp, colour, {}, 0, 0;
      this.bound := bound;
      this.queue := new nat[capacity](_ => 0);
    }

    /** Turn a white object grey, or black if it has no pointers, and queue it if it is grey. */
    method Enliven(o: nat, ghost exempt: set<nat>, ghost current: set<nat>, ghost d: Drain)
      requires Covered(exempt, current) && o in colour && o in bound && colour[o].White? && Intact(d, queue[..], head, count)
      modifies this`colour, this`flagged, this`head, this`count, queue
      ensures Covered(exempt, current) && Intact(d, queue[..], head, count)
      ensures colour == old(colour)[o := if o in sp.leaf then Black else Grey]
      ensures count >= old(count) && (old(count) > queue.Length ==> count == old(count))
    {
      hide Queued, At, Wf, Intact;
      LeafEmpty(sp, o);
      Recolour(o, exempt, current);
      if o in sp.leaf || count > queue.Length { return; }
      Push(o, d);
    }

    /** Give a white object its new colour and flag its page. */
    method Recolour(o: nat, ghost exempt: set<nat>, ghost current: set<nat>)
      requires Covered(exempt, current) && o in colour && o in bound && colour[o].White?
      requires o in sp.leaf ==> sp.kids[o] == []
      modifies this`colour, this`flagged
      ensures Covered(if o in sp.leaf then exempt else exempt + {o}, current)
      ensures colour == old(colour)[o := if o in sp.leaf then Black else Grey]
    {
      hide Queued, At, Wf, Intact;
      colour := colour[o := if o in sp.leaf then Black else Grey];
      flagged := flagged + {sp.page[o]};
    }

    /** Store an entry, or just note the overflow when there is no room. */
    method Push(o: nat, ghost d: Drain)
      requires 0 < queue.Length && head < queue.Length && count <= queue.Length && Intact(d, queue[..], head, count)
      modifies this`head, this`count, queue
      ensures head < queue.Length && count == old(count) + 1 && Intact(d, queue[..], head, count)
      ensures count <= queue.Length ==>
        forall x :: Queued(queue[..], head, count, x) <==> x == o || Queued(old(queue[..]), old(head), old(count), x)
    {
      hide Queued, At, Intact, Wrap;
      ghost var q, h, c := queue[..], head, count;
      if count < queue.Length {
        PushIntact(d, q, h, c, o);
        queue[head] := o;
        head := Wrap(queue.Length, head + 1);
        count := count + 1;
        assert queue[..] == q[h := o];
        forall x ensures Queued(queue[..], head, count, x) <==> x == o || Queued(q, h, c, x) { PushQueued(q, h, c, o, x); }
      } else {
        OverflowIntact(d, q, h, c);
        count := count + 1;
      }
    }

    /** Nothing changes except that white objects may have been enlivened. */
    twostate predicate OnlyEnlivened()
      reads this
    {
      && colour.Keys == old(colour.Keys)
      && (forall x :: x in colour && !old(colour)[x].White? ==> colour[x] == old(colour)[x])
      && count >= old(count)
      && (colour == old(colour) ==> count == old(count))
    }

    /** Enliven every white object that `o` points to. */
    method Scavenge(o: nat, ghost exempt: set<nat>, ghost current: set<nat>, ghost d: Drain)
      requires Covered(exempt, current) && o in colour && !colour[o].White? && Intact(d, queue[..], head, count)
      modifies this`colour, this`flagged, this`head, this`count, queue
      ensures Covered(exempt, current) && Intact(d, queue[..], head, count) && OnlyEnlivened()
      ensures old(count) > queue.Length ==> count == old(count)
      ensures forall i :: 0 <= i < |sp.kids[o]| ==> sp.kids[o][i] in colour && !colour[sp.kids[o][i]].White?
    {
      hide Queued, At, Intact;
      var i := 0;
      while i < |sp.kids[o]|
        invariant i <= |sp.kids[o]| && Covered(exempt, current) && Intact(d, queue[..], head, count) && OnlyEnlivened()
        invariant old(count) > queue.Length ==> count == old(count)
        invariant forall j :: 0 <= j < i ==> sp.kids[o][j] in colour && !colour[sp.kids[o][j]].White?
      {
        var c := sp.kids[o][i];
        if colour[c].White? { Enliven(c, exempt, current, d); }
        i := i + 1;
      }
    }

    /** Turn a grey object black and scavenge it; objects visited already are skipped. */
    method Visit(o: nat, ghost exempt: set<nat>, ghost d: Drain)
      requires o in colour && !colour[o].White? && Covered(exempt + {o}, {}) && Intact(d, queue[..], head, count)
      modifies this`colour, this`flagged, this`head, this`count, queue
      ensures Covered(exempt, {}) && Intact(d, queue[..], head, count)
      ensures count >= old(count) && (old(count) > queue.Length ==> count == old(count))
      ensures Whites() <= old(Whites()) && (Whites() == old(Whites()) ==> count == old(count))
      ensures colour.Keys == old(colour.Keys) && colour[o].Black?
      ensures forall x :: x in colour && !old(colour)[x].White? ==> !colour[x].White?
      ensures forall x :: x in colour && old(colour)[x].Black? ==> colour[x].Black?
    {
      hide Queued, At, Intact, Wf;
      if colour[o].Black? { return; }
      ghost var before := colour;
      colour := colour[o := Black];
      label L:
      Scavenge(o, exempt, {o}, d);
      assert Scanned(o);
      if Whites() == old(Whites()) {
        forall x | x in colour ensures colour[x] == old@L(colour)[x] {
          if old@L(colour)[x].White? { assert x in old(Whites()); }
        }
      }
    }

    ghost predicate CapturedLive(d: Drain)
      reads this
    {
      |d.captured| == d.n && forall j :: 0 <= j < d.n ==> d.captured[j] in colour && !colour[d.captured[j]].White?
    }

    /** Take the captured entry at position `i` and visit it. */
    method TakeOne(i: nat, ghost d: Drain)
      requires Covered({}, {}) && CapturedLive(d) && Intact(d, queue[..], head, count)
      requires d.to < queue.Length && d.done < d.n <= queue.Length && i == At(queue.Length, d.to, d.n, d.done)
      modifies this`colour, this`flagged, this`head, this`count, queue
      ensures Covered({}, {}) && CapturedLive(d) && Intact(d.(done := d.done + 1), queue[..], head, count)
      ensures colour.Keys == old(colour.Keys) && Whites() <= old(Whites())
      ensures Whites() == old(Whites()) ==> count == if old(count) <= queue.Length then old(count) - 1 else old(count)
    {
      hide Queued, At, Intact, Wf;
      TakeIntact(d, queue[..], head, count);
      var o := queue[i];
      if count <= queue.Length { count := count - 1; }
      Visit(o, {}, d.(done := d.done + 1));
    }

    /** Process the entries captured at the start, oldest first, whatever is enqueued meanwhile. */
    method DrainQueue()
      requires Covered({}, {}) && 0 < count <= queue.Length
      modifies this`colour, this`flagged, this`head, this`count, queue
      ensures Covered({}, {}) && colour.Keys == old(colour.Keys)
      ensures Whites() <= old(Whites()) && (Whites() == old(Whites()) ==> count < old(count))
    {
      hide Covered, CapturedLive, Queued, At, Intact, Wf, Capture, Wrap, Whites, Draining;
      StartDrain();
      var from := Wrap(queue.Length, head + queue.Length - count);
      var to := head;
      var i := from;
      ghost var d := Capture(queue[..], head, count);
      while true
        invariant Draining(d, i, to) && d.done < d.n == old(count) && colour.Keys == old(colour.Keys)
        invariant Whites() <= old(Whites()) && (Whites() == old(Whites()) ==> count == old(count) - d.done)
        decreases d.n - d.done
      {
        i := DrainOne(i, to, d);
        d := d.(done := d.done + 1);
        if i == to { break; }
      }
    }

    /** Entry `d.done` of the captured span is next, at position `i`. */
    ghost predicate Draining(d: Drain, i: nat, to: nat)
      reads this, queue
    {
      && Covered({}, {}) && CapturedLive(d) && d.to == to < queue.Length && d.done < d.n <= queue.Length
      && Intact(d, queue[..], head, count) && i == At(queue.Length, d.to, d.n, d.done)
    }

    /** The body of the drain: take one captured entry and step to the next position. */
    method DrainOne(i: nat, to: nat, ghost d: Drain) returns (next: nat)
      requires Draining(d, i, to)
      modifies this`colour, this`flagged, this`head, this`count, queue
      ensures Covered({}, {}) && colour.Keys == old(colour.Keys) && Whites() <= old(Whites())
      ensures Whites() == old(Whites()) ==> count == if old(count) <= queue.Length then old(count) - 1 else old(count)
      ensures next == to <==> d.done + 1 == d.n
      ensures next != to ==> Draining(d.(done := d.done + 1), next, to)
    {
      hide Covered, CapturedLive, Queued, At, Intact, Wf, Wrap, Whites;
      NextPosition(d, queue.Length);
      TakeOne(i, d);
      SameCaptured(d);
      next := Wrap(queue.Length, i + 1);
    }

    lemma StartDrain()
      requires Covered({}, {}) && 0 < count <= queue.Length
      ensures head < queue.Length
      ensures Draining(Capture(queue[..], head, count), Wrap(queue.Length, head + queue.Length - count), head)
    {
      CapturedQueued(queue[..], head, count);
    }

    lemma SameCaptured(d: Drain)
      ensures CapturedLive(d) == CapturedLive(d.(done := d.done + 1))
    {
    }

    /** Visit every grey object in address order, skipping pages without the new-space bit. */
    method FullScan()
      requires Covered(sp.kids.Keys, {}) && count == 0
      modifies this`colour, this`flagged, this`head, this`count, queue
      ensures Covered({}, {}) && colour.Keys == old(colour.Keys)
      ensures Whites() <= old(Whites()) && (Whites() == old(Whites()) ==> count == 0)
    {
      hide Queued, At, Intact;
      ghost var d := Drain(head, 0, 0, []);
      NothingCaptured(queue[..], head);
      var k := 0;
      while k < |sp.order|
        invariant k <= |sp.order| && colour.Keys == old(colour.Keys)
        invariant Covered(set j | k <= j < |sp.order| :: sp.order[j], {}) && Intact(d, queue[..], head, count)
        invariant Whites() <= old(Whites()) && (Whites() == old(Whites()) ==> count == 0)
      {
        var o := sp.order[k];
        ghost var rest := set j | k + 1 <= j < |sp.order| :: sp.order[j];
        assert (set j | k <= j < |sp.order| :: sp.order[j]) == rest + {o};
        if sp.page[o] in flagged && colour[o].Grey? {
          Visit(o, rest, d);
        }
        k := k + 1;
      }
    }

    /** Repeat until the queue is empty: no grey object is left, and no live object points to a
        white one. */
    method ScavengeNewspace()
      requires Covered({}, {})
      modifies this`colour, this`flagged, this`head, this`count, queue
      ensures count == 0 && colour.Keys == old(colour.Keys) == sp.kids.Keys
      ensures forall o :: o in colour ==> !colour[o].Grey?
      ensures forall o :: o in colour && colour[o].Black? ==> Scanned(o) && o in bound
      ensures Whites() <= old(Whites())
    {
      hide Queued, At, Wf;
      while count != 0
        invariant Covered({}, {}) && colour.Keys == old(colour.Keys) && Whites() <= old(Whites())
        decreases Whites(), count
      {
        if count > queue.Length {
          count := 0;
          NoneQueued(queue[..], head);
          FullScan();
        } else {
          DrainQueue();
        }
      }
      NoneQueued(queue[..], head);
    }
  }
}
