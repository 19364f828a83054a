/** The sweep phase of the full collection over a range of dynamic space: dead objects are
    overwritten in place so that the range can still be walked object by object. */
module Sweep {

  /** A heap word: a header with the object's size in words and its kind, or anything else. */
  datatype Word = Header(filler: bool, nwords: nat, rest: int) | Raw(n: int)

  /** A headered object occupies an even number of words; any other word starts a cons. */
  function ObjSize(w: Word): nat {
    match w
    case Header(_, n, _) => n
    case Raw(_) => 2
  }

  predicate GoodSize(w: Word) {
    ObjSize(w) > 0 && ObjSize(w) % 2 == 0
  }

  /** Stepping from `at` by object sizes meets `end` exactly. */
  ghost predicate Walkable(mem: seq<Word>, at: nat, end: nat)
    decreases end - at
  {
    at == end || (at < end <= |mem| && GoodSize(mem[at]) && at + ObjSize(mem[at]) <= end && Walkable(mem, at + ObjSize(mem[at]), end))
  }

  /** The addresses at which the walk finds objects. */
  ghost function Starts(mem: seq<Word>, at: nat, end: nat): set<nat>
    requires Walkable(mem, at, end)
    decreases end - at
  {
    if at == end then {} else {at} + Starts(mem, at + ObjSize(mem[at]), end)
  }

  /** A walk depends only on the words it walks over. */
  lemma {:induction false} WalkFrame(mem: seq<Word>, mem': seq<Word>, at: nat, end: nat)
    requires Walkable(mem, at, end) && |mem'| == |mem| && forall i :: at <= i < end && i < |mem| ==> mem'[i] == mem[i]
    ensures Walkable(mem', at, end) && Starts(mem', at, end) == Starts(mem, at, end)
    decreases end - at
  {
    if at != end { WalkFrame(mem, mem', at + ObjSize(mem[at]), end); }
  }

  /** Two walks that meet make one. */
  lemma {:induction false} WalkJoin(mem: seq<Word>, at: nat, mid: nat, end: nat)
    requires Walkable(mem, at, mid) && Walkable(mem, mid, end)
    ensures at <= mid <= end && Walkable(mem, at, end)
    ensures Starts(mem, at, end) == Starts(mem, at, mid) + Starts(mem, mid, end)
    decreases mid - at
  {
    WalkOrder(mem, at, mid);
    WalkOrder(mem, mid, end);
    if at != mid { WalkJoin(mem, at + ObjSize(mem[at]), mid, end); }
  }

  lemma {:induction false} WalkOrder(mem: seq<Word>, at: nat, end: nat)
    requires Walkable(mem, at, end)
    ensures at <= end && forall s :: s in Starts(mem, at, end) ==> at <= s < end <= |mem|
    decreases end - at
  {
    if at != end { WalkOrder(mem, at + ObjSize(mem[at]), end); }
  }

  /** A stretch of raw words of even length is a run of conses. */
  lemma {:induction false} ConsRun(mem: seq<Word>, at: nat, end: nat)
    requires at <= end <= |mem| && (end - at) % 2 == 0 && forall i :: at <= i < end ==> mem[i].Raw?
    ensures Walkable(mem, at, end)
    ensures forall s :: s in Starts(mem, at, end) ==> s < |mem| && mem[s].Raw?
    decreases end - at
  {
    if at != end { ConsRun(mem, at + 2, end); }
  }

  /** What sweeping leaves of one dead object: itself if it is already a filler, a filler of the same
      size on a code page, zero conses elsewhere, and a cons of all ones in place of a cons. */
  ghost predicate Clobbered(mem: seq<Word>, mem': seq<Word>, at: nat, code: bool)
    requires |mem'| == |mem| && at < |mem| && GoodSize(mem[at]) && at + ObjSize(mem[at]) <= |mem|
  {
    var n := ObjSize(mem[at]);
    if mem[at].Raw? then mem'[at] == mem'[at + 1] == Raw(-1)
    else if mem[at].filler then forall i :: at <= i < at + n ==> mem'[i] == mem[i]
    else if code then mem'[at] == Header(true, n, 0) && mem'[at + 1] == Raw(0) && forall i :: at + 2 <= i < at + n ==> mem'[i] == mem[i]
    else forall i :: at <= i < at + n ==> mem'[i] == Raw(0)
  }

  ghost predicate Kept(mem: seq<Word>, mem': seq<Word>, at: nat)
    requires |mem'| == |mem| && at < |mem|
  {
    forall i :: at <= i < at + ObjSize(mem[at]) && i < |mem| ==> mem'[i] == mem[i]
  }

  /** The fate of the object at `at`. */
  ghost predicate Swept(mem: seq<Word>, mem': seq<Word>, at: nat, live: bool, code: bool)
    requires |mem'| == |mem| && at < |mem| && GoodSize(mem[at]) && at + ObjSize(mem[at]) <= |mem|
  {
    if live then Kept(mem, mem', at) else Clobbered(mem, mem', at, code)
  }

  /** A swept object's words can be walked over to the same end, and its start is still a start;
      a dead object has become a filler or whole conses. */
  lemma SweptWalk(mem: seq<Word>, mem': seq<Word>, at: nat, live: bool, code: bool)
    requires |mem'| == |mem| && at < |mem| && GoodSize(mem[at]) && at + ObjSize(mem[at]) <= |mem|
    requires Swept(mem, mem', at, live, code)
    ensures var e := at + ObjSize(mem[at]);
      && Walkable(mem', at, e) && at in Starts(mem', at, e)
      && (!live ==> forall s :: s in Starts(mem', at, e) ==> s < |mem'| && (mem'[s].Raw? || (mem'[s].filler && s == at)))
  {
    var e := at + ObjSize(mem[at]);
    if mem'[at].Raw? {
      if mem[at].Raw? {
        assert Walkable(mem', e, e);
        assert Walkable(mem', at, e) && Starts(mem', at, e) == {at} + Starts(mem', e, e);
      } else {
        ConsRun(mem', at, e);
      }
    } else {
      assert Walkable(mem', e, e);
      assert Walkable(mem', at, e) && Starts(mem', at, e) == {at} + Starts(mem', e, e);
    }
  }

  ghost predicate SweptAt(mem: seq<Word>, mem': seq<Word>, s: nat, marks: nat -> bool, code: nat -> bool) {
    && |mem'| == |mem| && s < |mem| && GoodSize(mem[s]) && s + ObjSize(mem[s]) <= |mem|
    && Swept(mem, mem', s, marks(s / 2), code(s))
  }

  /** Every object met in `[at, end)` has been swept. */
  ghost predicate AllSwept(mem: seq<Word>, mem': seq<Word>, at: nat, end: nat, marks: nat -> bool, code: nat -> bool)
    requires Walkable(mem, at, end)
  {
    forall s :: s in Starts(mem, at, end) ==> SweptAt(mem, mem', s, marks, code)
  }

  /** Sweeping keeps the range walkable to the same end; every object start, dead or alive, is
      still one; live objects are untouched word for word; anything new is a cons inside a dead object,
      and what is left of a dead object is a filler or conses. */
  lemma {:induction false} SweepTheorem(mem: seq<Word>, mem': seq<Word>, at: nat, end: nat, marks: nat -> bool, code: nat -> bool)
    requires |mem'| == |mem| && Walkable(mem, at, end) && AllSwept(mem, mem', at, end, marks, code)
    ensures Walkable(mem', at, end)
    ensures Starts(mem, at, end) <= Starts(mem', at, end)
    ensures forall s :: s in Starts(mem, at, end) ==>
      s < |mem| && (if marks(s / 2) then Kept(mem, mem', s) else mem'[s].Raw? || mem'[s].filler)
    ensures forall s :: s in Starts(mem', at, end) && s !in Starts(mem, at, end) ==> s < |mem'| && mem'[s].Raw?
    decreases end - at
  {
    if at != end {
      var e := at + ObjSize(mem[at]);
      assert SweptAt(mem, mem', at, marks, code);
      SweptWalk(mem, mem', at, marks(at / 2), code(at));
      SweepTheorem(mem, mem', e, end, marks, code);
      WalkJoin(mem', at, e, end);
      WalkOrder(mem', at, e);
      if marks(at / 2) { WalkKept(mem, mem', at); }
    }
  }

  lemma WalkKept(mem: seq<Word>, mem': seq<Word>, at: nat)
    requires |mem'| == |mem| && at < |mem| && GoodSize(mem[at]) && at + ObjSize(mem[at]) <= |mem| && Kept(mem, mem', at)
    ensures var e := at + ObjSize(mem[at]); Walkable(mem', at, e) && Starts(mem', at, e) == {at}
  {
    var e := at + ObjSize(mem[at]);
    assert Walkable(mem', e, e) && Starts(mem', e, e) == {};
    assert Walkable(mem', at, e);
  }

  lemma OneStart(mem: seq<Word>, at: nat, end: nat)
    requires Walkable(mem, at, end) && at != end
    ensures var e := at + ObjSize(mem[at]);
      Walkable(mem, at, e) && Starts(mem, at, e) == {at} && Walkable(mem, e, end)
  {
    var e := at + ObjSize(mem[at]);
    assert Walkable(mem, e, e) && Starts(mem, e, e) == {};
    assert Walkable(mem, at, e);
  }

  /** Objects already swept are not affected by what happens further on. */
  lemma SweptFrame(mem: seq<Word>, mem1: seq<Word>, mem2: seq<Word>, at: nat, end: nat, marks: nat -> bool, code: nat -> bool)
    requires Walkable(mem, at, end) && |mem2| == |mem1| == |mem| && AllSwept(mem, mem1, at, end, marks, code)
    requires forall i :: 0 <= i < end && i < |mem| ==> mem2[i] == mem1[i]
    ensures AllSwept(mem, mem2, at, end, marks, code)
  {
    forall s | s in Starts(mem, at, end) ensures SweptAt(mem, mem2, s, marks, code) {
      assert SweptAt(mem, mem1, s, marks, code);
      StartFits(mem, at, end, s);
    }
  }

  lemma {:induction false} StartFits(mem: seq<Word>, at: nat, end: nat, s: nat)
    requires Walkable(mem, at, end) && s in Starts(mem, at, end)
    ensures s < |mem| && s + ObjSize(mem[s]) <= end
    decreases end - at
  {
    if s == at {
      WalkOrder(mem, at + ObjSize(mem[at]), end);
    } else {
      StartFits(mem, at + ObjSize(mem[at]), end, s);
    }
  }

  /** Overwrite one headered object with non-pointer words. */
  method ClobberHeadered(mem: array<Word>, at: nat, n: nat, code: bool)
    requires at + n <= mem.Length && n >= 2
    modifies mem
    ensures forall i :: 0 <= i < mem.Length && !(at <= i < at + n) ==> mem[i] == old(mem[i])
    ensures if code then mem[at] == Header(true, n, 0) && mem[at + 1] == Raw(0) && forall i :: at + 2 <= i < at + n ==> mem[i] == old(mem[i])
            else forall i :: at <= i < at + n ==> mem[i] == Raw(0)
  {
    if code {
      mem[at], mem[at + 1] := Header(true, n, 0), Raw(0);
    } else {
      forall i | at <= i < at + n { mem[i] := Raw(0); }
    }
  }

  /** Sweep the object at `at`. */
  method SweepOne(mem: array<Word>, at: nat, marks: nat -> bool, code: nat -> bool) returns (n: nat)
    requires at < mem.Length && GoodSize(mem[at]) && at + ObjSize(mem[at]) <= mem.Length
    modifies mem
    ensures n == ObjSize(old(mem[at])) && SweptAt(old(mem[..]), mem[..], at, marks, code)
    ensures forall i :: 0 <= i < mem.Length && !(at <= i < at + n) ==> mem[i] == old(mem[i])
  {
    var word := mem[at];
    var live := marks(at / 2);
    match word {
      case Header(filler, size, _) =>
        n := size;
        if !live && !filler { ClobberHeadered(mem, at, n, code(at)); }
      case Raw(_) =>
        n := 2;
        if !live { mem[at], mem[at + 1] := Raw(-1), Raw(-1); }
    }
  }

  /** Sweep a whole range. `marks` is indexed by double-words, `code` tells which addresses are on code pages. */
  method SweepRange(mem: array<Word>, lo: nat, hi: nat, marks: nat -> bool, code: nat -> bool)
    requires hi <= mem.Length && Walkable(mem[..], lo, hi)
    modifies mem
    ensures AllSwept(old(mem[..]), mem[..], lo, hi, marks, code)
    ensures Walkable(mem[..], lo, hi) && Starts(old(mem[..]), lo, hi) <= Starts(mem[..], lo, hi)
    ensures forall i :: 0 <= i < mem.Length && !(lo <= i < hi) ==> mem[i] == old(mem[i])
  {
    hide Swept, SweptAt, Starts;
    ghost var m0 := mem[..];
    var at := lo;
    WalkOrder(m0, lo, hi);
    NoStarts(m0, lo);
    while at < hi
      invariant lo <= at <= hi && Walkable(m0, lo, at) && Walkable(m0, at, hi)
      invariant AllSwept(m0, mem[..], lo, at, marks, code)
      invariant forall i :: 0 <= i < mem.Length && !(lo <= i < at) ==> mem[i] == m0[i]
      decreases hi - at
    {
      ghost var m1 := mem[..];
      OneStart(m0, at, hi);
      var n := SweepOne(mem, at, marks, code);
      SweptSame(m0, m1, mem[..], at, marks, code);
      SweptFrame(m0, m1, mem[..], lo, at, marks, code);
      WalkJoin(m0, lo, at, at + n);
      WalkOrder(m0, at + n, hi);
      at := at + n;
    }
    SweepTheorem(m0, mem[..], lo, hi, marks, code);
  }

  lemma NoStarts(mem: seq<Word>, at: nat)
    ensures Walkable(mem, at, at) && Starts(mem, at, at) == {}
  {
  }

  lemma SweptSame(m0: seq<Word>, m1: seq<Word>, m2: seq<Word>, at: nat, marks: nat -> bool, code: nat -> bool)
    requires |m1| == |m0| && (forall i :: at <= i < |m0| ==> m1[i] == m0[i]) && SweptAt(m1, m2, at, marks, code)
    ensures SweptAt(m0, m2, at, marks, code)
  {
  }
}
