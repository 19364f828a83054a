/** The mark phase of the non-moving full collection. */
module FullMark {
  import opened BlockQueue

  /** The heap as the marker sees it. Managed objects are the keys of `kids`; a function embedded
      in a code object has an address of its own in `funs`, mapped to that code object. Objects
      of the static spaces are traced but have no mark bit. Any other word is not a pointer, or
      points to nothing that is collected. */
  datatype Graph = Graph(kids: map<nat, seq<nat>>, leaf: set<nat>, funs: map<nat, nat>, statics: map<nat, seq<nat>>)

  ghost predicate Wf(g: Graph) {
    && g.funs.Keys !! g.kids.Keys && g.statics.Keys !! g.kids.Keys && g.statics.Keys !! g.funs.Keys
    && (forall f :: f in g.funs ==> g.funs[f] in g.kids)
    && (forall o :: o in g.leaf && o in g.kids ==> g.kids[o] == [])
  }

  predicate Interesting(g: Graph, p: nat) { p in g.kids || p in g.funs }

  /** The object that a pointer keeps alive: for an embedded function, the code around it. */
  function Base(g: Graph, p: nat): nat {
    if p in g.funs then g.funs[p] else p
  }

  function Children(g: Graph, x: nat): seq<nat> {
    if x in g.kids then g.kids[x] else if x in g.statics then g.statics[x] else []
  }

  // ---- Strong reachability ----

  ghost predicate Points(g: Graph, x: nat, o: nat) {
    exists i :: 0 <= i < |Children(g, x)| && Interesting(g, Children(g, x)[i]) && Base(g, Children(g, x)[i]) == o
  }

  ghost predicate IsRoot(g: Graph, roots: seq<nat>, o: nat) {
    || (exists i :: 0 <= i < |roots| && Interesting(g, roots[i]) && Base(g, roots[i]) == o)
    || (exists s :: s in g.statics && Points(g, s, o))
  }

  ghost predicate Step(g: Graph, x: nat, o: nat) { x in g.kids && Points(g, x, o) }

  /** A path of objects from a root along pointers. */
  ghost predicate IsPath(g: Graph, roots: seq<nat>, path: seq<nat>) {
    && path != [] && IsRoot(g, roots, path[0])
    && forall i :: 0 < i < |path| ==> Step(g, path[i - 1], path[i])
  }

  ghost predicate Reachable(g: Graph, roots: seq<nat>, o: nat) {
    exists path :: IsPath(g, roots, path) && path[|path| - 1] == o
  }

  lemma RootReachable(g: Graph, roots: seq<nat>, o: nat)
    requires IsRoot(g, roots, o)
    ensures Reachable(g, roots, o)
  {
    assert IsPath(g, roots, [o]);
  }

  lemma ChildReachable(g: Graph, roots: seq<nat>, x: nat, o: nat)
    requires Points(g, x, o) && ((x in g.kids && Reachable(g, roots, x)) || (x in g.statics && x !in g.kids))
    ensures Reachable(g, roots, o)
  {
    if x in g.kids {
      var path :| IsPath(g, roots, path) && path[|path| - 1] == x;
      assert Step(g, x, o);
      assert IsPath(g, roots, path + [o]);
    } else {
      RootReachable(g, roots, o);
    }
  }

  // ---- The tri-colour invariant ----

  /** A function's bit is set exactly when its code object's is. */
  ghost predicate FunBits(g: Graph, marks: set<nat>) {
    forall f :: f in g.funs ==> (f in marks <==> g.funs[f] in marks)
  }

  ghost predicate AllMarked(g: Graph, marks: set<nat>, ptrs: seq<nat>, n: nat) {
    forall i :: 0 <= i < n && i < |ptrs| && Interesting(g, ptrs[i]) ==> ptrs[i] in marks
  }

  ghost predicate Traced(g: Graph, marks: set<nat>, x: nat) {
    AllMarked(g, marks, Children(g, x), |Children(g, x)|)
  }

  /** A marked object, or a static one, is still to be traced or has only marked children. */
  ghost predicate NoBlackToWhite(g: Graph, marks: set<nat>, grey: set<nat>) {
    forall x :: (x in g.kids && x in marks) || x in g.statics ==> x in grey || Traced(g, marks, x)
  }

  ghost predicate Sound(g: Graph, roots: seq<nat>, marks: set<nat>) {
    && (forall p :: p in marks ==> Interesting(g, p))
    && (forall o :: o in marks && o in g.kids ==> Reachable(g, roots, o))
  }

  ghost predicate TriColour(g: Graph, roots: seq<nat>, marks: set<nat>, grey: set<nat>) {
    && FunBits(g, marks)
    && NoBlackToWhite(g, marks, grey)
    && Sound(g, roots, marks)
    && (forall x :: x in grey ==> x in g.statics || (x in g.kids && x in marks))
  }

  function FunsOf(g: Graph, o: nat): set<nat> {
    set f | f in g.funs && g.funs[f] == o
  }

  /** Marking an unmarked object and its functions, and queueing it unless it is a leaf. */
  lemma MarkKeeps(g: Graph, roots: seq<nat>, marks: set<nat>, grey: set<nat>, o: nat)
    requires Wf(g) && TriColour(g, roots, marks, grey) && o in g.kids && o !in marks && Reachable(g, roots, o)
    ensures TriColour(g, roots, marks + {o} + FunsOf(g, o), if o in g.leaf then grey else grey + {o})
  {
    hide Reachable;
    var marks' := marks + {o} + FunsOf(g, o);
    assert FunBits(g, marks');
    forall x | ((x in g.kids && x in marks) || x in g.statics) && Traced(g, marks, x) ensures Traced(g, marks', x) { }
    if o in g.leaf { assert Traced(g, marks', o); }
  }

  /** An object whose children are all marked turns black. */
  lemma BlackenKeeps(g: Graph, roots: seq<nat>, marks: set<nat>, grey: set<nat>, x: nat)
    requires TriColour(g, roots, marks, grey) && Traced(g, marks, x)
    ensures TriColour(g, roots, marks, grey - {x})
  {
  }

  /** With nothing grey, every reachable object is marked. */
  lemma {:induction false} PathMarked(g: Graph, roots: seq<nat>, marks: set<nat>, path: seq<nat>)
    requires Wf(g) && TriColour(g, roots, marks, {}) && AllMarked(g, marks, roots, |roots|) && IsPath(g, roots, path)
    ensures path[|path| - 1] in marks
    decreases |path|
  {
    var z := |path| - 1;
    if z == 0 {
      if s :| s in g.statics && Points(g, s, path[0]) {
        assert Traced(g, marks, s);
      }
    } else {
      PathMarked(g, roots, marks, path[..z]);
      assert Step(g, path[z - 1], path[z]);
      assert Traced(g, marks, path[z - 1]);
    }
  }

  lemma MarkedIsReachable(g: Graph, roots: seq<nat>, marks: set<nat>)
    requires Wf(g) && TriColour(g, roots, marks, {}) && AllMarked(g, marks, roots, |roots|)
    ensures forall o :: o in g.kids ==> (o in marks <==> Reachable(g, roots, o))
    ensures forall f :: f in g.funs ==> (f in marks <==> Reachable(g, roots, g.funs[f]))
  {
    forall o | o in g.kids && Reachable(g, roots, o) ensures o in marks {
      var path :| IsPath(g, roots, path) && path[|path| - 1] == o;
      PathMarked(g, roots, marks, path);
    }
  }

  /** Root pointers, and pointers from objects in the set and from static objects, lead into the set: to
      the object pointed to, or to the code object around the function pointed to. */
  ghost predicate MarkClosed(g: Graph, roots: seq<nat>, s: set<nat>) {
    && (forall i :: 0 <= i < |roots| ==> LeadsInto(g, roots[i], s))
    && (forall x, i :: x in s && x in g.kids && 0 <= i < |g.kids[x]| ==> LeadsInto(g, g.kids[x][i], s))
    && (forall x, i :: x in g.statics && 0 <= i < |g.statics[x]| ==> LeadsInto(g, g.statics[x][i], s))
  }

  ghost predicate LeadsInto(g: Graph, p: nat, s: set<nat>) {
    (p in g.kids ==> p in s) && (p in g.funs ==> g.funs[p] in s)
  }

  /** The reachable objects are the least set closed under pointers. */
  lemma ReachableIsLeast(g: Graph, roots: seq<nat>, marks: set<nat>)
    requires Wf(g) && forall o :: o in g.kids ==> (o in marks <==> Reachable(g, roots, o))
    ensures MarkClosed(g, roots, marks)
    ensures forall s: set<nat>, o :: MarkClosed(g, roots, s) && o in marks && o in g.kids ==> o in s
  {
    hide Reachable;
    forall i | 0 <= i < |roots| ensures LeadsInto(g, roots[i], marks) {
      if Interesting(g, roots[i]) { RootReachable(g, roots, Base(g, roots[i])); }
    }
    forall x, i | ((x in marks && x in g.kids) || x in g.statics) && 0 <= i < |Children(g, x)| ensures LeadsInto(g, Children(g, x)[i], marks) {
      if Interesting(g, Children(g, x)[i]) {
        assert Points(g, x, Base(g, Children(g, x)[i]));
        ChildReachable(g, roots, x, Base(g, Children(g, x)[i]));
      }
    }
    assert forall x :: x in g.kids ==> Children(g, x) == g.kids[x];
    assert forall x :: x in g.statics ==> Children(g, x) == g.statics[x];
    forall s: set<nat>, o | MarkClosed(g, roots, s) && o in marks && o in g.kids ensures o in s {
      PathEnds(g, roots, s, o);
    }
  }

  lemma PathEnds(g: Graph, roots: seq<nat>, s: set<nat>, o: nat)
    requires Wf(g) && MarkClosed(g, roots, s) && Reachable(g, roots, o)
    ensures o in s
  {
    var path :| IsPath(g, roots, path) && path[|path| - 1] == o;
    PathInside(g, roots, s, path);
  }

  lemma {:induction false} PathInside(g: Graph, roots: seq<nat>, s: set<nat>, path: seq<nat>)
    requires Wf(g) && MarkClosed(g, roots, s) && IsPath(g, roots, path)
    ensures path[|path| - 1] in s
    decreases |path|
  {
    var z := |path| - 1;
    if z > 0 {
      PathInside(g, roots, s, path[..z]);
      assert Step(g, path[z - 1], path[z]);
    }
  }

  class Marker {
    const g: Graph
    ghost const roots: seq<nat>
    const queue: Queue
    var marks: set<nat>       // the mark bits that are set
    var nextPage: nat         // the page allocator

    /** What is still to be traced: the queue, and the object being traced if any. */
    ghost function Grey(current: set<nat>): set<nat>
      reads this, queue
      requires queue.Valid()
    {
      (set x | x in queue.Queued()) + current
    }

    ghost predicate Valid(current: set<nat>)
      reads this, queue
    {
      && Wf(g) && queue.Valid()
      && (forall p :: p in queue.pages ==> p < nextPage)
      && TriColour(g, roots, marks, Grey(current))
    }

    constructor (g: Graph, cap: nat, ghost roots: seq<nat>)
      requires Wf(g) && cap > 0
      ensures this.g == g && this.roots == roots && marks == {} && fresh(queue)
      ensures queue.Valid() && queue.Queued() == [] && forall p :: p in queue.pages ==> p < nextPage
    {
      this.g, this.roots, this.marks, this.nextPage := g, roots, {}, 1;
      this.queue := new Queue(cap, 0);
    }

    method Enqueue(x: nat)
      requires queue.Valid() && forall p :: p in queue.pages ==> p < nextPage
      modifies queue, this`nextPage
      ensures queue.Valid() && queue.Queued() == old(queue.Queued()) + [x]
      ensures forall p :: p in queue.pages ==> p < nextPage
    {
      queue.Enqueue(x, nextPage);
      nextPage := nextPage + 1;
    }

    /** Mark what `p` points to, if it is managed and not marked yet. */
    method MarkObj(p: nat, ghost current: set<nat>)
      requires Valid(current) && (Interesting(g, p) ==> Reachable(g, roots, Base(g, p)))
      modifies this`marks, this`nextPage, queue
      ensures Valid(current) && old(marks) <= marks && (Interesting(g, p) ==> p in marks)
      ensures old(queue.Queued()) <= queue.Queued()
      ensures marks == old(marks) ==> queue.Queued() == old(queue.Queued())
    {
      hide TriColour, Reachable, Queue.Valid, Queue.Queued;
      FunBitsOf(g, roots, marks, Grey(current));
      if p !in g.kids && p !in g.funs { return; }
      if p in marks { return; }
      var base := p;
      if p in g.funs {
        base := g.funs[p];
        if base in marks { return; }
      }
      MarkKeeps(g, roots, marks, Grey(current), base);
      ghost var grey := Grey(current);
      marks := marks + {base};
      // all functions of a code object are marked with it
      marks := marks + FunsOf(g, base);
      if base !in g.leaf {
        Enqueue(base);
        assert Grey(current) == grey + {base};
      }
    }

    /** Mark every child of the object `x`, which has been taken from the queue. */
    method TraceObject(x: nat)
      requires Valid({x})
      modifies this`marks, this`nextPage, queue
      ensures Valid({}) && old(marks) <= marks
      ensures marks == old(marks) ==> queue.Queued() == old(queue.Queued())
    {
      hide TriColour, Reachable, Queue.Valid, Queue.Queued, Interesting;
      var ptrs := Children(g, x);
      var i := 0;
      while i < |ptrs|
        invariant i <= |ptrs| && Valid({x}) && old(marks) <= marks && AllMarked(g, marks, ptrs, i)
        invariant marks == old(marks) ==> queue.Queued() == old(queue.Queued())
      {
        ChildOfGrey(g, roots, marks, Grey({x}), x, i);
        MarkObj(ptrs[i], {x});
        i := i + 1;
      }
      BlackenKeeps(g, roots, marks, Grey({x}), x);
      assert Grey({}) == if x in queue.Queued() then Grey({x}) else Grey({x}) - {x};
    }

    /** Take an object from the queue; it stays grey. */
    method Next() returns (x: nat)
      requires Valid({}) && queue.Queued() != []
      modifies queue
      ensures Valid({x}) && |queue.Queued()| == |old(queue.Queued())| - 1
    {
      hide TriColour, Queue.Valid, Queue.Queued;
      ghost var grey, before := Grey({}), queue.Queued();
      x := queue.Dequeue();
      assert before == [x] + queue.Queued();
      assert Grey({x}) == grey;
    }

    /** Trace until the queue is empty. */
    method Drain()
      requires Valid({}) && queue.Queued() != []
      modifies this`marks, this`nextPage, queue
      ensures Valid({}) && queue.Queued() == [] && old(marks) <= marks
    {
      hide TriColour, Queue.Valid, Queue.Queued;
      while true
        invariant Valid({}) && queue.Queued() != [] && old(marks) <= marks
        decreases g.kids.Keys + g.funs.Keys - marks, |queue.Queued()|
      {
        ghost var was := marks;
        MarksInteresting(g, roots, marks, Grey({}));
        var x := Next();
        TraceObject(x);
        MarksInteresting(g, roots, marks, Grey({}));
        if marks != was {
          assert g.kids.Keys + g.funs.Keys - marks < g.kids.Keys + g.funs.Keys - was by { SetGrew(was, marks, g.kids.Keys + g.funs.Keys); }
        }
        queue.EmptyTest();
        if queue.pages[queue.head].count == 0 { break; }
      }
    }

    /** The mark phase: queue the static objects, mark the root pointers, and trace until the queue is
        empty. `statics` is the walk over the static spaces, which is never empty. */
    method Execute(statics: seq<nat>, rootPtrs: seq<nat>)
      requires Wf(g) && marks == {} && queue.Valid() && queue.Queued() == []
      requires forall p :: p in queue.pages ==> p < nextPage
      requires statics != [] && (forall x :: x in statics <==> x in g.statics) && rootPtrs == roots
      modifies this`marks, this`nextPage, queue
      ensures forall o :: o in g.kids ==> (o in marks <==> Reachable(g, roots, o))
      ensures forall f :: f in g.funs ==> (f in marks <==> g.funs[f] in marks)
      ensures MarkClosed(g, roots, marks)
      ensures forall s: set<nat>, o :: MarkClosed(g, roots, s) && o in marks && o in g.kids ==> o in s
      ensures queue.Valid() && queue.Queued() == []
    {
      hide TriColour, Reachable, Queue.Valid, Queue.Queued, Interesting, MarkClosed;
      var i := 0;
      while i < |statics|
        invariant i <= |statics| && queue.Valid() && queue.Queued() == statics[..i] && marks == {}
        invariant forall p :: p in queue.pages ==> p < nextPage
      {
        Enqueue(statics[i]);
        i := i + 1;
      }
      assert statics[..i] == statics;
      StaticsGrey(g, roots, Grey({}));
      i := 0;
      while i < |rootPtrs|
        invariant i <= |rootPtrs| && Valid({}) && AllMarked(g, marks, roots, i) && queue.Queued() != []
      {
        RootPointer(g, roots, i);
        MarkObj(rootPtrs[i], {});
        i := i + 1;
      }
      Drain();
      assert Grey({}) == {};
      MarkedIsReachable(g, roots, marks);
      ReachableIsLeast(g, roots, marks);
      FunBitsOf(g, roots, marks, {});
    }
  }

  lemma SetGrew(a: set<nat>, b: set<nat>, all: set<nat>)
    requires a <= b <= all && a != b
    ensures all - b < all - a
  {
    var x :| x in b && x !in a;
    assert x in all - a && x !in all - b;
  }

  /** A child of a grey object is reachable. */
  lemma ChildOfGrey(g: Graph, roots: seq<nat>, marks: set<nat>, grey: set<nat>, x: nat, i: nat)
    requires Wf(g) && TriColour(g, roots, marks, grey) && x in grey && i < |Children(g, x)|
    ensures Interesting(g, Children(g, x)[i]) ==> Reachable(g, roots, Base(g, Children(g, x)[i]))
  {
    hide Reachable;
    if Interesting(g, Children(g, x)[i]) {
      assert Points(g, x, Base(g, Children(g, x)[i]));
      ChildReachable(g, roots, x, Base(g, Children(g, x)[i]));
    }
  }

  lemma RootPointer(g: Graph, roots: seq<nat>, i: nat)
    requires i < |roots|
    ensures Interesting(g, roots[i]) ==> Reachable(g, roots, Base(g, roots[i]))
  {
    hide Reachable;
    if Interesting(g, roots[i]) { RootReachable(g, roots, Base(g, roots[i])); }
  }

  lemma StaticsGrey(g: Graph, roots: seq<nat>, grey: set<nat>)
    requires grey == g.statics.Keys
    ensures TriColour(g, roots, {}, grey)
  {
  }

  lemma MarksInteresting(g: Graph, roots: seq<nat>, marks: set<nat>, grey: set<nat>)
    requires TriColour(g, roots, marks, grey)
    ensures marks <= g.kids.Keys + g.funs.Keys
  {
  }

  lemma FunBitsOf(g: Graph, roots: seq<nat>, marks: set<nat>, grey: set<nat>)
    requires TriColour(g, roots, marks, grey)
    ensures FunBits(g, marks)
  {
  }
}
