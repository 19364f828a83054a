/** Sweeping a page of fixed-size immobile objects: dead objects become holes, and the holes of
    the page are chained in address order for the allocator. */
module FixedObjSweep {
  import opened Arith

  /** A slot holds an object with a generation and a visited flag, or is a hole: a word giving the
      displacement in bytes from the end of the slot to the next hole, and zeros. */
  datatype Slot = Hole(disp: nat) | Object(gen: nat, visited: bool, body: int)

  /** What a collection fixes: the generation collected, the one survivors were moved to while it
      ran, and whether they are promoted. */
  datatype Cycle = Cycle(from: nat, new_: nat, raise: bool) {
    function Target(): nat { if raise then from + 1 else from }
  }

  ghost predicate WfCycle(c: Cycle) {
    c.new_ != c.from && (c.raise ==> c.new_ == c.from + 1)
  }

  /** A page may be swept: the mask covers the objects, only survivors carry the visited flag, and
      without promotion the scratch generation holds nothing else. */
  ghost predicate Sweepable(c: Cycle, slots: seq<Slot>, gens: set<nat>) {
    && WfCycle(c)
    && (forall k :: 0 <= k < |slots| && slots[k].Object? ==>
          && slots[k].gen in gens
          && (slots[k].visited ==> slots[k].gen == c.new_)
          && (!c.raise && slots[k].gen == c.new_ ==> slots[k].visited))
  }

  predicate Trash(c: Cycle, s: Slot) { s.Object? && s.gen == c.from && !s.visited }
  predicate Keep(c: Cycle, s: Slot) { s.Object? && s.gen == c.new_ && s.visited }

  /** The fate of a slot, apart from the displacement in a hole. */
  ghost predicate SlotSwept(c: Cycle, s: Slot, s': Slot) {
    if s.Hole? || Trash(c, s) then s'.Hole?
    else if Keep(c, s) then s' == s.(gen := c.Target(), visited := false)
    else s' == s
  }

  /** The new generation mask of the page. */
  function NewMask(c: Cycle, gens: set<nat>, anyKept: bool): set<nat> {
    var mask := gens - {c.from};
    if c.raise then (if anyKept then mask + {c.from + 1} else mask)
    else (if anyKept then mask - {c.new_} + {c.from} else mask - {c.new_})
  }

  /** Indices of the holes among the first `n` slots, ascending. */
  ghost function Holes(slots: seq<Slot>, n: nat): seq<nat>
    requires n <= |slots|
  {
    if n == 0 then [] else if slots[n - 1].Hole? then Holes(slots, n - 1) + [n - 1] else Holes(slots, n - 1)
  }

  lemma {:induction false} HolesAre(slots: seq<Slot>, n: nat)
    requires n <= |slots|
    ensures forall k :: k in Holes(slots, n) <==> 0 <= k < n && slots[k].Hole?
    ensures forall i, j :: 0 <= i < j < |Holes(slots, n)| ==> Holes(slots, n)[i] < Holes(slots, n)[j]
  {
    if n != 0 {
      HolesAre(slots, n - 1);
      var h := Holes(slots, n - 1);
      forall i | 0 <= i < |h| ensures h[i] < n - 1 { assert h[i] in h; }
    }
  }

  lemma {:induction false} HolesFrame(slots: seq<Slot>, slots': seq<Slot>, n: nat)
    requires n <= |slots| == |slots'| && forall k :: 0 <= k < n ==> slots'[k].Hole? == slots[k].Hole?
    ensures Holes(slots', n) == Holes(slots, n)
  {
    if n != 0 { HolesFrame(slots, slots', n - 1); }
  }

  /** Distance from the end of slot `k` to the start of slot `j`. */
  function Gap(spacing: nat, k: nat, j: nat): nat
    requires k < j
  {
    (j - k - 1) * spacing
  }

  /** Each hole but the last leads to the next. */
  ghost predicate Linked(slots: seq<Slot>, spacing: nat, holes: seq<nat>) {
    && (forall i :: 0 <= i < |holes| ==> holes[i] < |slots|)
    && (forall i :: 0 <= i < |holes| - 1 ==> holes[i] < holes[i + 1] && slots[holes[i]] == Hole(Gap(spacing, holes[i], holes[i + 1])))
  }

  /** Following the free index and the displacements visits `holes` and then runs off the page. */
  ghost predicate Chain(slots: seq<Slot>, spacing: nat, free: nat, holes: seq<nat>)
    decreases |holes|
  {
    if holes == [] then free == |slots| * spacing
    else
      && holes[0] < |slots| && free == holes[0] * spacing && slots[holes[0]].Hole?
      && Chain(slots, spacing, free + spacing + slots[holes[0]].disp, holes[1..])
  }

  lemma Distribute(spacing: nat, k: nat, j: nat)
    requires k < j
    ensures k * spacing + spacing + Gap(spacing, k, j) == j * spacing
  {
    assert j == k + 1 + (j - k - 1);
    assert j * spacing == k * spacing + 1 * spacing + (j - k - 1) * spacing;
  }

  lemma {:induction false} LinkedChain(slots: seq<Slot>, spacing: nat, holes: seq<nat>)
    requires Linked(slots, spacing, holes) && holes != []
    requires slots[holes[|holes| - 1]] == Hole(Gap(spacing, holes[|holes| - 1], |slots|))
    ensures Chain(slots, spacing, holes[0] * spacing, holes)
    decreases |holes|
  {
    if |holes| == 1 {
      Distribute(spacing, holes[0], |slots|);
      assert Chain(slots, spacing, |slots| * spacing, holes[1..]);
    } else {
      assert slots[holes[0]] == Hole(Gap(spacing, holes[0], holes[1]));
      Distribute(spacing, holes[0], holes[1]);
      forall i | 0 <= i < |holes[1..]| - 1
        ensures holes[1..][i] < holes[1..][i + 1] && slots[holes[1..][i]] == Hole(Gap(spacing, holes[1..][i], holes[1..][i + 1]))
      {
        assert slots[holes[i + 1]] == Hole(Gap(spacing, holes[i + 1], holes[i + 2]));
      }
      LinkedChain(slots, spacing, holes[1..]);
    }
  }

  /** Adding a hole at the end and pointing the previous one at it. */
  lemma LinkNext(slots: seq<Slot>, spacing: nat, holes: seq<nat>, k: nat)
    requires Linked(slots, spacing, holes) && k < |slots| && (forall i :: 0 <= i < |holes| ==> holes[i] < k)
    requires forall i, j :: 0 <= i < j < |holes| ==> holes[i] < holes[j]
    requires holes != [] ==> slots[holes[|holes| - 1]].Hole?
    ensures var slots' := if holes == [] then slots else slots[holes[|holes| - 1] := Hole(Gap(spacing, holes[|holes| - 1], k))];
      Linked(slots', spacing, holes + [k])
  {
    var holes' := holes + [k];
    var slots' := if holes == [] then slots else slots[holes[|holes| - 1] := Hole(Gap(spacing, holes[|holes| - 1], k))];
    forall i | 0 <= i < |holes'| - 1
      ensures holes'[i] < holes'[i + 1] && slots'[holes'[i]] == Hole(Gap(spacing, holes'[i], holes'[i + 1]))
    {
      if i < |holes| - 1 { assert holes[i] < holes[|holes| - 1]; }
    }
  }

  /** The first `k` slots have been dealt with and the others have not. */
  ghost predicate Fates(c: Cycle, before: seq<Slot>, slots: seq<Slot>, k: nat, anyKept: bool) {
    && k <= |slots| == |before|
    && (forall i :: 0 <= i < k ==> SlotSwept(c, before[i], slots[i]))
    && (forall i :: k <= i < |slots| ==> slots[i] == before[i])
    && (anyKept <==> exists i :: 0 <= i < k && Keep(c, before[i]))
  }

  /** The holes among the first `k` slots are chained; `hole` is the last of them, or -1. */
  ghost predicate Links(slots: seq<Slot>, spacing: nat, k: nat, hole: int, free0: nat, free: nat) {
    && k <= |slots| && hole < k
    && Linked(slots, spacing, Holes(slots, k))
    && (if hole < 0 then Holes(slots, k) == [] && free == free0
        else Holes(slots, k) != [] && hole == Holes(slots, k)[|Holes(slots, k)| - 1] && free == Holes(slots, k)[0] * spacing)
  }

  lemma FatesStep(c: Cycle, before: seq<Slot>, slots: seq<Slot>, k: nat, anyKept: bool, slots': seq<Slot>)
    requires Fates(c, before, slots, k, anyKept) && k < |slots| == |slots'| && SlotSwept(c, before[k], slots'[k])
    requires forall i :: k < i < |slots| ==> slots'[i] == slots[i]
    requires forall i :: 0 <= i < k ==> slots'[i] == slots[i] || (slots[i].Hole? && slots'[i].Hole?)
    ensures Fates(c, before, slots', k + 1, anyKept || Keep(c, before[k]))
  {
    forall i | 0 <= i < k ensures SlotSwept(c, before[i], slots'[i]) { assert SlotSwept(c, before[i], slots[i]); }
    if anyKept { var i :| 0 <= i < k && Keep(c, before[i]); assert 0 <= i < k + 1 && Keep(c, before[i]); }
  }

  /** One more hole: the word of the previous one, or the free index, is made to lead to it. */
  lemma LinkHole(slots: seq<Slot>, spacing: nat, k: nat, hole: int, free0: nat, free: nat, s: Slot)
    requires Links(slots, spacing, k, hole, free0, free) && k < |slots| && s.Hole?
    ensures var slots1 := slots[k := s];
      var slots' := if hole < 0 then slots1 else slots1[hole := Hole(Gap(spacing, hole, k))];
      Links(slots', spacing, k + 1, k, free0, if hole < 0 then k * spacing else free)
    ensures hole >= 0 ==> slots[hole].Hole?
  {
    hide Gap;
    var h := Holes(slots, k);
    var slots1 := slots[k := s];
    var slots' := if hole < 0 then slots1 else slots1[hole := Hole(Gap(spacing, hole, k))];
    HolesAre(slots, k);
    forall i | 0 <= i < |h| ensures h[i] < k && slots[h[i]].Hole? { assert h[i] in h; }
    HolesFrame(slots, slots', k);
    assert Holes(slots', k + 1) == h + [k];
    assert Linked(slots1, spacing, h);
    LinkNext(slots1, spacing, h, k);
  }

  lemma LinkObject(slots: seq<Slot>, spacing: nat, k: nat, hole: int, free0: nat, free: nat, s: Slot)
    requires Links(slots, spacing, k, hole, free0, free) && k < |slots| && s.Object?
    ensures Links(slots[k := s], spacing, k + 1, hole, free0, free)
  {
    hide Gap;
    var h := Holes(slots, k);
    HolesAre(slots, k);
    forall i | 0 <= i < |h| ensures h[i] < k { assert h[i] in h; }
    HolesFrame(slots, slots[k := s], k);
    assert Holes(slots[k := s], k + 1) == h;
  }

  /** The mask covers every survivor, and an empty mask means there is none. */
  lemma MaskCovers(c: Cycle, before: seq<Slot>, slots: seq<Slot>, gens: set<nat>, anyKept: bool)
    requires Sweepable(c, before, gens) && |slots| == |before|
    requires forall i :: 0 <= i < |slots| ==> SlotSwept(c, before[i], slots[i])
    requires anyKept <==> exists i :: 0 <= i < |before| && Keep(c, before[i])
    ensures forall i :: 0 <= i < |slots| && slots[i].Object? ==> slots[i].gen in NewMask(c, gens, anyKept) && !slots[i].visited
    ensures c.from in NewMask(c, gens, anyKept) ==> !c.raise && anyKept
  {
  }

  lemma {:induction false} AllHoles(slots: seq<Slot>, n: nat)
    requires n <= |slots| && forall k :: 0 <= k < n ==> slots[k].Hole?
    ensures |Holes(slots, n)| == n && forall k :: 0 <= k < n ==> Holes(slots, n)[k] == k
  {
    if n != 0 { AllHoles(slots, n - 1); }
  }

  /** A page with nothing left on it is zero throughout, so it can be reused at any spacing. */
  lemma EmptyPageIsZero(slots: seq<Slot>, spacing: nat, holes: seq<nat>)
    requires slots != [] && (forall k :: 0 <= k < |slots| ==> slots[k].Hole?)
    requires holes == Holes(slots, |slots|) && Linked(slots, spacing, holes)
    requires slots[|slots| - 1] == Hole(0)
    ensures holes != [] && holes[0] == 0 && forall k :: 0 <= k < |slots| ==> slots[k] == Hole(0)
  {
    hide Gap, Holes, Linked;
    AllHoles(slots, |slots|);
    forall k: nat | k < |slots| ensures slots[k] == Hole(0) {
      if k < |slots| - 1 {
        LinkedAt(slots, spacing, holes, k);
        NoGap(spacing, k);
      }
    }
  }

  lemma LinkedAt(slots: seq<Slot>, spacing: nat, holes: seq<nat>, i: nat)
    requires Linked(slots, spacing, holes) && i + 1 < |holes|
    ensures holes[i] < holes[i + 1] && holes[i] < |slots| && slots[holes[i]] == Hole(Gap(spacing, holes[i], holes[i + 1]))
  {
  }

  lemma NoGap(spacing: nat, k: nat)
    ensures Gap(spacing, k, k + 1) == 0
  {
  }

  /** Terminating the chain at the last hole. */
  lemma LinkLast(slots: seq<Slot>, spacing: nat, hole: int, free0: nat, free: nat)
    requires Links(slots, spacing, |slots|, hole, free0, free) && hole >= 0
    ensures slots[hole].Hole?
    ensures var slots' := slots[hole := Hole(Gap(spacing, hole, |slots|))];
      var holes := Holes(slots', |slots|);
      && Linked(slots', spacing, holes) && holes != [] && hole == holes[|holes| - 1]
      && Chain(slots', spacing, free, holes) && free == holes[0] * spacing
  {
    hide Gap, Chain;
    var n := |slots|;
    var slots' := slots[hole := Hole(Gap(spacing, hole, n))];
    var holes := Holes(slots, n);
    HolesAre(slots, n);
    assert forall i :: 0 <= i < |holes| ==> holes[i] in holes;
    HolesFrame(slots, slots', n);
    assert forall i :: 0 <= i < |holes| - 1 ==> holes[i] < holes[|holes| - 1];
    assert Linked(slots', spacing, holes);
    LinkedChain(slots', spacing, holes);
  }

  lemma NoHole(slots: seq<Slot>, spacing: nat, hole: int, free0: nat, free: nat)
    requires Links(slots, spacing, |slots|, hole, free0, free) && hole < 0
    ensures Holes(slots, |slots|) == [] && free == free0 && forall k :: 0 <= k < |slots| ==> slots[k].Object?
  {
    HolesAre(slots, |slots|);
    forall k | 0 <= k < |slots| ensures slots[k].Object? { assert k !in Holes(slots, |slots|); }
  }

  lemma EmptyPage(slots: seq<Slot>, spacing: nat, hole: nat, free: nat)
    requires slots != [] && (forall k :: 0 <= k < |slots| ==> slots[k].Hole?)
    requires Linked(slots, spacing, Holes(slots, |slots|)) && Holes(slots, |slots|) != []
    requires hole == Holes(slots, |slots|)[|Holes(slots, |slots|)| - 1] && hole < |slots| && slots[hole] == Hole(Gap(spacing, hole, |slots|))
    requires free == Holes(slots, |slots|)[0] * spacing
    ensures free == 0 && forall k :: 0 <= k < |slots| ==> slots[k] == Hole(0)
  {
    AllHoles(slots, |slots|);
    EmptyPageIsZero(slots, spacing, Holes(slots, |slots|));
  }

  lemma FatesEnd(c: Cycle, before: seq<Slot>, slots: seq<Slot>, gens: set<nat>, anyKept: bool)
    requires Sweepable(c, before, gens) && Fates(c, before, slots, |slots|, anyKept)
    ensures |slots| == |before| && forall i :: 0 <= i < |slots| ==> SlotSwept(c, before[i], slots[i])
    ensures forall i :: 0 <= i < |slots| && slots[i].Object? ==> slots[i].gen in NewMask(c, gens, anyKept) && !slots[i].visited
  {
    MaskCovers(c, before, slots, gens, anyKept);
  }

  lemma FatesRelink(c: Cycle, before: seq<Slot>, slots: seq<Slot>, anyKept: bool, hole: nat, d: nat)
    requires Fates(c, before, slots, |slots|, anyKept) && hole < |slots| && slots[hole].Hole?
    ensures Fates(c, before, slots[hole := Hole(d)], |slots|, anyKept)
  {
  }

  lemma FatesAt(c: Cycle, before: seq<Slot>, slots: seq<Slot>, k: nat, anyKept: bool)
    requires Fates(c, before, slots, k, anyKept) && k < |slots|
    ensures k < |before| && slots[k] == before[k]
  {
  }

  lemma SweepStart(c: Cycle, before: seq<Slot>, spacing: nat, free: nat)
    ensures Fates(c, before, before, 0, false) && Links(before, spacing, 0, -1, free, free)
  {
  }

  /** Sweep one slot in place. */
  method SweepSlot(c: Cycle, slots: array<Slot>, spacing: nat, k: nat, hole: int, free: nat, ghost free0: nat, ghost before: seq<Slot>, anyKept: bool)
    returns (hole': int, free': nat, anyKept': bool)
    requires k < slots.Length && Fates(c, before, slots[..], k, anyKept) && Links(slots[..], spacing, k, hole, free0, free)
    modifies slots
    ensures Fates(c, before, slots[..], k + 1, anyKept') && Links(slots[..], spacing, k + 1, hole', free0, free')
  {
    hide Fates, Gap, Linked, Holes;
    ghost var now := slots[..];
    var s := slots[k];
    FatesAt(c, before, now, k, anyKept);
    hole', free', anyKept' := hole, free, anyKept;
    if s.Hole? || Trash(c, s) {
      if !s.Hole? { slots[k] := Hole(0); }
      LinkHole(now, spacing, k, hole, free0, free, slots[k]);
      assert slots[..] == now[k := slots[k]];
      if hole >= 0 {
        slots[hole] := Hole(Gap(spacing, hole, k));
      } else {
        free' := k * spacing;
      }
      hole' := k;
    } else {
      if Keep(c, s) {
        slots[k] := s.(gen := c.Target(), visited := false);
        anyKept' := true;
      }
      LinkObject(now, spacing, k, hole, free0, free, slots[k]);
      assert slots[..] == now[k := slots[k]];
    }
    FatesStep(c, before, now, k, anyKept, slots[..]);
  }

  /**
   * What becomes of a slot. A hole stays one, and an object of the generation collected that was not
   * visited becomes one; a visited survivor loses its flag and joins the generation it is kept in, one
   * older if promoted; anything else is unchanged.
   */
  ghost predicate Fate(c: Cycle, s: Slot, s': Slot) {
    match s
    case Hole(_) => s'.Hole?
    case Object(gen, visited, body) =>
      if gen == c.from && !visited then s'.Hole?
      else if gen == c.new_ && visited then s' == Object(if c.raise then c.from + 1 else c.from, false, body)
      else s' == s
  }

  /**
   * The generations in the new mask of a page: those it had, less the one collected and, unless
   * survivors are promoted, the scratch generation they were in meanwhile; and the one that survivors
   * are kept in, if the page had any.
   */
  ghost predicate MaskHas(c: Cycle, before: seq<Slot>, gens: set<nat>, g: nat) {
    || (g in gens && g != c.from && (c.raise || g != c.new_))
    || (g == (if c.raise then c.from + 1 else c.from)
        && exists k :: 0 <= k < |before| && before[k].Object? && before[k].visited && before[k].gen == c.new_)
  }

  lemma FatesMean(c: Cycle, before: seq<Slot>, slots: seq<Slot>, gens: set<nat>, anyKept: bool)
    requires Sweepable(c, before, gens) && Fates(c, before, slots, |slots|, anyKept)
    ensures |slots| == |before| && forall k :: 0 <= k < |slots| ==> Fate(c, before[k], slots[k])
    ensures forall g :: g in NewMask(c, gens, anyKept) <==> MaskHas(c, before, gens, g)
  {
    assert (exists k :: 0 <= k < |before| && Keep(c, before[k])) <==>
      exists k :: 0 <= k < |before| && before[k].Object? && before[k].visited && before[k].gen == c.new_;
  }

  /** A page is given up exactly if it has no other generation and nothing on it survives. */
  lemma GivenUp(c: Cycle, before: seq<Slot>, gens: set<nat>, gens': set<nat>)
    requires Sweepable(c, before, gens) && forall g :: g in gens' <==> MaskHas(c, before, gens, g)
    ensures gens' == {} <==>
      && (forall g :: g in gens ==> g == c.from || (!c.raise && g == c.new_))
      && (forall k :: 0 <= k < |before| && before[k].Object? ==> before[k].gen == c.from && !before[k].visited)
  {
    if gens' == {} {
      forall g | g in gens ensures g == c.from || (!c.raise && g == c.new_) { assert !MaskHas(c, before, gens, g); }
      assert !MaskHas(c, before, gens, if c.raise then c.from + 1 else c.from);
    }
    if g :| g in gens' { assert MaskHas(c, before, gens, g); }
  }

  /** Sweep one page in place. `free` is its free index in bytes, `gens` its generation mask. */
  method SweepPage(c: Cycle, slots: array<Slot>, spacing: nat, gens: set<nat>, free: nat) returns (free': nat, gens': set<nat>)
    requires Sweepable(c, slots[..], gens) && slots.Length > 0
    modifies slots
    ensures forall k :: 0 <= k < slots.Length ==> Fate(c, old(slots[..])[k], slots[k])
    ensures forall g :: g in gens' <==> MaskHas(c, old(slots[..]), gens, g)
    ensures var holes := Holes(slots[..], slots.Length);
      if holes == [] then free' == free else Chain(slots[..], spacing, free', holes)
    ensures forall k :: 0 <= k < slots.Length && slots[k].Object? ==> slots[k].gen in gens' && !slots[k].visited
    ensures gens' == {} ==> free' == 0 && forall k :: 0 <= k < slots.Length ==> slots[k] == Hole(0)
  {
    hide SlotSwept, Fate, MaskHas, Fates, Links, Chain, Sweepable, Linked, Holes, Gap, NewMask;
    ghost var before := slots[..];
    SweepStart(c, before, spacing, free);
    var hole: int, anyKept := -1, false;
    free' := free;
    for k := 0 to slots.Length
      invariant Fates(c, before, slots[..], k, anyKept) && Links(slots[..], spacing, k, hole, free, free') && hole < k
    {
      hole, free', anyKept := SweepSlot(c, slots, spacing, k, hole, free', free, before, anyKept);
      LinksBound(slots[..], spacing, k + 1, hole, free, free');
    }
    ghost var now := slots[..];
    if hole >= 0 {
      LinkLast(now, spacing, hole, free, free');
      FatesRelink(c, before, now, anyKept, hole, Gap(spacing, hole, slots.Length));
      slots[hole] := Hole(Gap(spacing, hole, slots.Length));
      assert slots[..] == now[hole := Hole(Gap(spacing, hole, slots.Length))];
    } else {
      NoHole(now, spacing, hole, free, free');
    }
    gens' := NewMask(c, gens, anyKept);
    FatesEnd(c, before, slots[..], gens, anyKept);
    FatesMean(c, before, slots[..], gens, anyKept);
    assert hole < 0 ==> slots[..][0].Object? && slots[..][0].gen in gens';
    if gens' == {} && hole >= 0 {
      EmptyPage(slots[..], spacing, hole, free');
    }
  }

  lemma LinksBound(slots: seq<Slot>, spacing: nat, k: nat, hole: int, free0: nat, free: nat)
    requires Links(slots, spacing, k, hole, free0, free)
    ensures hole < k
  {
  }

  // ---- One thread allocating from a swept page ----

  /** `ks` are slots handed out by allocations in a row: each takes the hole at the free index and moves
      the index past it by the displacement found there. */
  ghost predicate AllocRun(slots: seq<Slot>, spacing: nat, free: nat, ks: seq<nat>)
    decreases |ks|
  {
    ks != [] ==>
      && ks[0] < |slots| && free == ks[0] * spacing && slots[ks[0]].Hole?
      && AllocRun(slots[ks[0] := Object(0, false, 0)], spacing, free + spacing + slots[ks[0]].disp, ks[1..])
  }

  lemma {:induction false} ChainFrame(slots: seq<Slot>, spacing: nat, free: nat, holes: seq<nat>, k: nat, s: Slot)
    requires Chain(slots, spacing, free, holes) && k < |slots| && k !in holes
    ensures Chain(slots[k := s], spacing, free, holes)
    decreases |holes|
  {
    if holes != [] { ChainFrame(slots, spacing, free + spacing + slots[holes[0]].disp, holes[1..], k, s); }
  }

  /** Allocating in sequence hands out the holes in address order, each once, never a live object, and
      can go on until all have been handed out. */
  lemma {:induction false} SequentialAllocation(slots: seq<Slot>, spacing: nat, free: nat, holes: seq<nat>, ks: seq<nat>)
    requires spacing > 0 && Chain(slots, spacing, free, holes)
    requires forall i, j :: 0 <= i < j < |holes| ==> holes[i] < holes[j]
    ensures AllocRun(slots, spacing, free, ks) <==> ks <= holes
    decreases |holes|
  {
    if holes == [] {
      if ks != [] && ks[0] < |slots| && free == ks[0] * spacing { MulInjective(spacing, |slots|, ks[0]); }
    } else {
      var k := holes[0];
      assert k !in holes[1..];
      ChainFrame(slots, spacing, free + spacing + slots[k].disp, holes[1..], k, Object(0, false, 0));
      if ks != [] {
        if free == ks[0] * spacing { MulInjective(spacing, k, ks[0]); }
        SequentialAllocation(slots[k := Object(0, false, 0)], spacing, free + spacing + slots[k].disp, holes[1..], ks[1..]);
        assert ks <= holes <==> ks[0] == k && ks[1..] <= holes[1..];
      }
    }
  }
}
