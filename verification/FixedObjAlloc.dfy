/** The lock-free allocator of fixed-size immobile objects, as a state machine whose steps are the
    single reads, writes and compare-and-swaps of the threads, between two sweeps. */
module FixedObjAlloc {
  import opened Arith
  import opened Options
  import Sweeper = FixedObjSweep

  const CardBytes: nat := 4096

  /** The first word of a slot as the sweep left it: a displacement to the next hole, or an object. */
  datatype Word = Fixnum(disp: nat) | Header

  /** A byte offset on a page. */
  datatype Place = Place(page: nat, off: nat)

  /** Where a thread is in `alloc_immobile_fixedobj`. */
  datatype PC =
    | NeedPage                      // about to look for a page
    | GotPage                       // has a page, about to read its free index
    | Probe(off: nat)               // about to read the word at `off`
    | Swap(off: nat, disp: nat)     // has read a displacement there, about to compare-and-swap
    | Advance(off: nat)             // lost the race, or found an object
    | Publish(off: nat, disp: nat)  // has claimed the slot, about to store the free index
    | Full                          // about to mark the page full
    | Returning(off: nat)           // about to return the slot

  datatype Thread = Thread(cls: nat, page: nat, pc: PC)

  /** What is fixed between two sweeps: the spacing of each size class, and the words of every page. */
  datatype World = World(npages: nat, spacing: map<nat, nat>, word: (nat, nat) -> Word)

  /** The shared state. `attr` is 0 for an unclaimed page and the spacing of its objects otherwise;
      `claimed` lists the slots taken by compare-and-swap and `returned` those that calls have
      returned, each in order; a thread is in `threads` while it is inside a call. */
  datatype State = State(attr: seq<nat>, free: seq<nat>, hint: map<nat, nat>, claimed: seq<Place>,
                         returned: seq<Place>, threads: map<nat, Thread>)

  predicate Multiple(k: nat, spacing: nat, off: nat) { off == k * spacing }

  /** On a slot boundary. */
  ghost predicate Aligned(spacing: nat, off: nat) {
    exists k: nat :: Multiple(k, spacing, off)
  }

  lemma AlignedSum(spacing: nat, a: nat, b: nat)
    requires Aligned(spacing, a) && Aligned(spacing, b)
    ensures Aligned(spacing, a + b)
  {
    var i: nat :| Multiple(i, spacing, a);
    var j: nat :| Multiple(j, spacing, b);
    assert (i + j) * spacing == i * spacing + j * spacing;
    assert Multiple(i + j, spacing, a + b);
  }

  lemma AlignedUnit(spacing: nat)
    ensures Aligned(spacing, spacing) && Aligned(spacing, 0)
  {
    assert Multiple(1, spacing, spacing) && Multiple(0, spacing, 0);
  }

  // ---- Steps ----

  /** Claim an unclaimed page by compare-and-swap on its attributes. */
  predicate ClaimPage(w: World, s: State, s': State, t: nat, p: nat) {
    && t in s.threads && s.threads[t].pc.NeedPage? && s.threads[t].cls in w.spacing
    && p < |s.attr| && s.attr[p] == 0
    && s' == s.(attr := s.attr[p := w.spacing[s.threads[t].cls]],
                threads := s.threads[t := s.threads[t].(page := p, pc := GotPage)])
  }

  /** Find a page that already has the right attributes, by search or through the hint. */
  predicate FindPage(w: World, s: State, s': State, t: nat, p: nat) {
    && t in s.threads && s.threads[t].pc.NeedPage? && s.threads[t].cls in w.spacing
    && p < |s.attr| && s.attr[p] == w.spacing[s.threads[t].cls]
    && s' == s.(threads := s.threads[t := s.threads[t].(page := p, pc := GotPage)])
  }

  /** Take the page from the hint without looking at its attributes. */
  predicate UseHint(w: World, s: State, s': State, t: nat) {
    && t in s.threads && s.threads[t].pc.NeedPage? && s.threads[t].cls in s.hint
    && s' == s.(threads := s.threads[t := s.threads[t].(page := s.hint[s.threads[t].cls], pc := GotPage)])
  }

  /** Update the hint to the thread's page. */
  predicate SetHint(w: World, s: State, s': State, t: nat) {
    && t in s.threads && s.threads[t].pc.GotPage?
    && s' == s.(hint := s.hint[s.threads[t].cls := s.threads[t].page])
  }

  predicate ReadFree(w: World, s: State, s': State, t: nat) {
    && t in s.threads && s.threads[t].pc.GotPage? && s.threads[t].page < |s.free|
    && s' == s.(threads := s.threads[t := s.threads[t].(pc := Probe(s.free[s.threads[t].page]))])
  }

  function WordAt(w: World, s: State, p: nat, off: nat): Word {
    if Place(p, off) in s.claimed then Header else w.word(p, off)
  }

  /** Read the word at the probe position, unless that is past the last slot of the page. */
  predicate ReadWord(w: World, s: State, s': State, t: nat) {
    && t in s.threads && s.threads[t].pc.Probe? && s.threads[t].cls in w.spacing
    && var th, off := s.threads[t], s.threads[t].pc.off;
       s' == s.(threads := s.threads[t := th.(pc :=
         if off + w.spacing[th.cls] > CardBytes then Full
         else match WordAt(w, s, th.page, off) case Fixnum(d) => Swap(off, d) case Header => Advance(off))])
  }

  predicate CompareAndSwap(w: World, s: State, s': State, t: nat) {
    && t in s.threads && s.threads[t].pc.Swap?
    && var th, off, d := s.threads[t], s.threads[t].pc.off, s.threads[t].pc.disp;
       if WordAt(w, s, th.page, off) == Fixnum(d)
       then s' == s.(claimed := s.claimed + [Place(th.page, off)], threads := s.threads[t := th.(pc := Publish(off, d))])
       else s' == s.(threads := s.threads[t := th.(pc := Advance(off))])
  }

  /** Go on from the next slot, or from the free index if another thread has moved it further. */
  predicate Move(w: World, s: State, s': State, t: nat) {
    && t in s.threads && s.threads[t].pc.Advance? && s.threads[t].cls in w.spacing && s.threads[t].page < |s.free|
    && var th, next, free := s.threads[t], s.threads[t].pc.off + w.spacing[s.threads[t].cls], s.free[s.threads[t].page];
       s' == s.(threads := s.threads[t := th.(pc := Probe(if free > next then free else next))])
  }

  /** Store the free index, whatever other threads have stored since. */
  predicate Store(w: World, s: State, s': State, t: nat) {
    && t in s.threads && s.threads[t].pc.Publish? && s.threads[t].cls in w.spacing && s.threads[t].page < |s.free|
    && var th, off, d := s.threads[t], s.threads[t].pc.off, s.threads[t].pc.disp;
       s' == s.(free := s.free[th.page := off + w.spacing[th.cls] + d], threads := s.threads[t := th.(pc := Returning(off))])
  }

  predicate MarkFull(w: World, s: State, s': State, t: nat) {
    && t in s.threads && s.threads[t].pc.Full? && s.threads[t].page < |s.free|
    && s' == s.(free := s.free[s.threads[t].page := CardBytes], threads := s.threads[t := s.threads[t].(pc := NeedPage)])
  }

  /** The call is over; its result goes to the caller. */
  predicate Return(w: World, s: State, s': State, t: nat) {
    && t in s.threads && s.threads[t].pc.Returning?
    && s' == s.(returned := s.returned + [Place(s.threads[t].page, s.threads[t].pc.off)], threads := s.threads - {t})
  }

  /** A new call, by a thread that is not inside one. */
  predicate Call(w: World, s: State, s': State, t: nat, cls: nat) {
    && cls in w.spacing && t !in s.threads
    && s' == s.(threads := s.threads[t := Thread(cls, 0, NeedPage)])
  }

  predicate Step(w: World, s: State, s': State, t: nat, x: nat) {
    || ClaimPage(w, s, s', t, x) || FindPage(w, s, s', t, x) || UseHint(w, s, s', t) || SetHint(w, s, s', t)
    || ReadFree(w, s, s', t) || ReadWord(w, s, s', t) || CompareAndSwap(w, s, s', t) || Move(w, s, s', t)
    || Store(w, s, s', t) || MarkFull(w, s, s', t) || Return(w, s, s', t) || Call(w, s, s', t, x)
  }

  ghost predicate Next(w: World, s: State, s': State) {
    exists t: nat, x: nat :: Step(w, s, s', t, x)
  }

  // ---- The invariant ----

  /** The words of a swept space: on a page in use the displacements keep to the spacing; an unclaimed
      page is all zero. */
  ghost predicate SweptWords(w: World, attr: seq<nat>) {
    forall p, off :: 0 <= p < |attr| && w.word(p, off).Fixnum? ==>
      if attr[p] == 0 then w.word(p, off).disp == 0
      else Aligned(attr[p], off) ==> Aligned(attr[p], w.word(p, off).disp)
  }

  ghost predicate Init(w: World, s: State) {
    && |s.attr| == |s.free| == w.npages && s.claimed == [] && s.returned == [] && s.threads == map[] && s.hint == map[]
    && (forall c :: c in w.spacing ==> 0 < w.spacing[c] <= CardBytes)
    && (forall p :: 0 <= p < |s.free| ==> if s.attr[p] == 0 then s.free[p] == 0 else FreeOk(s.attr[p], s.free[p]))
    && SweptWords(w, s.attr)
  }

  /** A free index is on a slot boundary, or marks the page full. */
  ghost predicate FreeOk(spacing: nat, free: nat) {
    spacing > 0 && (Aligned(spacing, free) || free == CardBytes)
  }

  ghost predicate OffsetOk(spacing: nat, off: nat) {
    Aligned(spacing, off) || off >= CardBytes
  }

  ghost predicate SlotOk(spacing: nat, off: nat) {
    Aligned(spacing, off) && off + spacing <= CardBytes
  }

  ghost predicate ThreadOk(w: World, s: State, th: Thread) {
    && th.cls in w.spacing
    && (!th.pc.NeedPage? ==> th.page < |s.attr| && s.attr[th.page] == w.spacing[th.cls])
    && match th.pc
       case Probe(off) => OffsetOk(w.spacing[th.cls], off)
       case Swap(off, d) => SlotOk(w.spacing[th.cls], off) && w.word(th.page, off) == Fixnum(d)
       case Advance(off) => SlotOk(w.spacing[th.cls], off)
       case Publish(off, d) => SlotOk(w.spacing[th.cls], off) && w.word(th.page, off) == Fixnum(d)
       case _ => true
  }

  /** Claimed slots are distinct slots of claimed pages that were holes after the sweep. */
  ghost predicate ClaimsOk(w: World, s: State) {
    && (forall i :: 0 <= i < |s.claimed| ==>
          var c := s.claimed[i];
          c.page < |s.attr| && s.attr[c.page] > 0 && SlotOk(s.attr[c.page], c.off) && w.word(c.page, c.off).Fixnum?)
    && (forall i, j :: 0 <= i < j < |s.claimed| ==> s.claimed[i] != s.claimed[j])
  }

  /** The slot that a call has won and not yet returned. */
  function Held(th: Thread): (c: Option<Place>) {
    match th.pc
    case Publish(off, _) => Some(Place(th.page, off))
    case Returning(off) => Some(Place(th.page, off))
    case _ => None
  }

  ghost predicate IsHeld(threads: map<nat, Thread>, c: Place) {
    exists t :: t in threads && Held(threads[t]) == Some(c)
  }

  /** Every claimed slot belongs to one call: it has been returned once, or one thread holds it. */
  ghost predicate Ownership(claimed: seq<Place>, returned: seq<Place>, threads: map<nat, Thread>) {
    && (forall c :: c in claimed <==> c in returned || IsHeld(threads, c))
    && (forall t :: t in threads && Held(threads[t]).Some? ==> Held(threads[t]).value !in returned)
    && (forall t, u :: t in threads && u in threads && t != u && Held(threads[t]).Some? ==> Held(threads[t]) != Held(threads[u]))
    && (forall i, j :: 0 <= i < j < |returned| ==> returned[i] != returned[j])
  }

  ghost predicate Inv(w: World, s: State) {
    && |s.attr| == |s.free| == w.npages
    && (forall c :: c in w.spacing ==> 0 < w.spacing[c] <= CardBytes)
    && SweptWords(w, s.attr)
    && (forall p :: 0 <= p < |s.free| ==> if s.attr[p] == 0 then s.free[p] == 0 else FreeOk(s.attr[p], s.free[p]))
    && (forall c :: c in s.hint ==> c in w.spacing && s.hint[c] < |s.attr| && s.attr[s.hint[c]] == w.spacing[c])
    && (forall t :: t in s.threads ==> ThreadOk(w, s, s.threads[t]))
    && ClaimsOk(w, s)
    && Ownership(s.claimed, s.returned, s.threads)
  }

  lemma InitInv(w: World, s: State)
    requires Init(w, s)
    ensures Inv(w, s)
  {
  }

  /** A thread's knowledge survives the steps of others: attributes once set stay, and claims accumulate. */
  lemma ThreadStays(w: World, s: State, s': State, th: Thread)
    requires ThreadOk(w, s, th) && (forall c :: c in w.spacing ==> w.spacing[c] > 0) && |s'.attr| == |s.attr|
    requires forall p :: 0 <= p < |s.attr| && s.attr[p] != 0 ==> s'.attr[p] == s.attr[p]
    requires s.claimed <= s'.claimed
    ensures ThreadOk(w, s', th)
  {
  }

  /** A step that leaves alone what its thread holds leaves ownership alone. */
  lemma OwnSame(claimed: seq<Place>, returned: seq<Place>, threads: map<nat, Thread>, t: nat, th: Thread)
    requires Ownership(claimed, returned, threads)
    requires Held(th) == if t in threads then Held(threads[t]) else None
    ensures Ownership(claimed, returned, threads[t := th])
  {
    var threads' := threads[t := th];
    forall c ensures IsHeld(threads', c) <==> IsHeld(threads, c) {
      if u :| u in threads && Held(threads[u]) == Some(c) { assert Held(threads'[u]) == Some(c); }
      if u :| u in threads' && Held(threads'[u]) == Some(c) { assert u in threads && Held(threads[u]) == Some(c); }
    }
  }

  /** A thread that wins a slot nobody has holds it. */
  lemma OwnClaim(claimed: seq<Place>, returned: seq<Place>, threads: map<nat, Thread>, t: nat, th: Thread, c: Place)
    requires Ownership(claimed, returned, threads) && t in threads && Held(threads[t]) == None
    requires c !in claimed && Held(th) == Some(c)
    ensures Ownership(claimed + [c], returned, threads[t := th])
  {
    var threads' := threads[t := th];
    assert Held(threads'[t]) == Some(c);
    forall q ensures IsHeld(threads', q) <==> q == c || IsHeld(threads, q) {
      if u :| u in threads && Held(threads[u]) == Some(q) { assert Held(threads'[u]) == Some(q); }
    }
    forall u | u in threads && Held(threads[u]).Some? ensures Held(threads[u]).value in claimed {
      assert IsHeld(threads, Held(threads[u]).value);
    }
  }

  /** Returning the slot held makes it a returned one. */
  lemma OwnReturn(claimed: seq<Place>, returned: seq<Place>, threads: map<nat, Thread>, t: nat, c: Place)
    requires Ownership(claimed, returned, threads) && t in threads && Held(threads[t]) == Some(c)
    ensures Ownership(claimed, returned + [c], threads - {t})
  {
    var threads' := threads - {t};
    assert IsHeld(threads, c);
    forall q | q != c ensures IsHeld(threads', q) <==> IsHeld(threads, q) {
      if u :| u in threads && Held(threads[u]) == Some(q) { assert u in threads'; }
    }
  }

  /** Steps that change nothing shared but one thread's own state. */
  lemma LocalStep(w: World, s: State, t: nat, th: Thread)
    requires Inv(w, s) && ThreadOk(w, s, th)
    requires Held(th) == if t in s.threads then Held(s.threads[t]) else None
    ensures Inv(w, s.(threads := s.threads[t := th]))
  {
    hide SweptWords, Ownership;
    var s' := s.(threads := s.threads[t := th]);
    forall u | u in s'.threads ensures ThreadOk(w, s', s'.threads[u]) {
      ThreadStays(w, s, s', s'.threads[u]);
    }
    assert ClaimsOk(w, s');
    OwnSame(s.claimed, s.returned, s.threads, t, th);
  }

  lemma ClaimPageKeeps(w: World, s: State, s': State, t: nat, p: nat)
    requires Inv(w, s) && ClaimPage(w, s, s', t, p)
    ensures Inv(w, s')
  {
    hide Ownership;
    var spacing := w.spacing[s.threads[t].cls];
    AlignedUnit(spacing);
    forall u | u in s'.threads ensures ThreadOk(w, s', s'.threads[u]) {
      if u != t { ThreadStays(w, s, s', s.threads[u]); }
    }
    OwnSame(s.claimed, s.returned, s.threads, t, s'.threads[t]);
  }

  lemma SetHintKeeps(w: World, s: State, s': State, t: nat)
    requires Inv(w, s) && SetHint(w, s, s', t)
    ensures Inv(w, s')
  {
    hide SweptWords, Ownership;
    assert ThreadOk(w, s, s.threads[t]);
    forall u | u in s'.threads ensures ThreadOk(w, s', s'.threads[u]) { ThreadStays(w, s, s', s.threads[u]); }
    assert ClaimsOk(w, s');
  }

  lemma ReadWordKeeps(w: World, s: State, s': State, t: nat)
    requires Inv(w, s) && ReadWord(w, s, s', t)
    ensures Inv(w, s')
  {
    hide Ownership;
    assert ThreadOk(w, s, s.threads[t]);
    LocalStep(w, s, t, s'.threads[t]);
    assert s' == s.(threads := s.threads[t := s'.threads[t]]);
  }

  /** Winning the swap claims a slot that nobody has and that the thread then holds; losing it
      changes nothing shared. */
  lemma CompareAndSwapKeeps(w: World, s: State, s': State, t: nat)
    requires Inv(w, s) && CompareAndSwap(w, s, s', t)
    ensures Inv(w, s')
    ensures t in s'.threads && s'.attr == s.attr && s'.free == s.free && s'.hint == s.hint && s'.returned == s.returned
    ensures if s'.threads[t].pc.Publish?
      then var c := Place(s.threads[t].page, s.threads[t].pc.off);
        c !in s.claimed && s'.claimed == s.claimed + [c] && Held(s'.threads[t]) == Some(c)
      else s'.claimed == s.claimed && Held(s'.threads[t]) == None
  {
    hide SweptWords, SlotOk, Ownership;
    var th := s.threads[t];
    assert ThreadOk(w, s, th);
    if WordAt(w, s, th.page, th.pc.off) == Fixnum(th.pc.disp) {
      var c := Place(th.page, th.pc.off);
      assert s'.claimed[|s.claimed|] == c;
      forall u | u in s'.threads ensures ThreadOk(w, s', s'.threads[u]) {
        if u != t { ThreadStays(w, s, s', s.threads[u]); }
      }
      OwnClaim(s.claimed, s.returned, s.threads, t, s'.threads[t], c);
    } else {
      LocalStep(w, s, t, th.(pc := Advance(th.pc.off)));
    }
  }

  lemma MoveKeeps(w: World, s: State, s': State, t: nat)
    requires Inv(w, s) && Move(w, s, s', t)
    ensures Inv(w, s')
  {
    hide Ownership;
    var th := s.threads[t];
    assert ThreadOk(w, s, th);
    AlignedUnit(w.spacing[th.cls]);
    AlignedSum(w.spacing[th.cls], th.pc.off, w.spacing[th.cls]);
    LocalStep(w, s, t, s'.threads[t]);
  }

  lemma ReadFreeKeeps(w: World, s: State, s': State, t: nat)
    requires Inv(w, s) && ReadFree(w, s, s', t)
    ensures Inv(w, s')
  {
    hide Ownership;
    assert ThreadOk(w, s, s.threads[t]);
    LocalStep(w, s, t, s'.threads[t]);
  }

  /** Storing a free index, however stale. */
  lemma FreeKeeps(w: World, s: State, p: nat, f: nat, t: nat, th: Thread)
    requires Inv(w, s) && p < |s.free| && s.attr[p] != 0 && FreeOk(s.attr[p], f) && ThreadOk(w, s, th)
    requires t in s.threads && Held(th) == Held(s.threads[t])
    ensures Inv(w, s.(free := s.free[p := f], threads := s.threads[t := th]))
  {
    hide SweptWords, FreeOk, Ownership;
    var s' := s.(free := s.free[p := f], threads := s.threads[t := th]);
    forall u | u in s'.threads ensures ThreadOk(w, s', s'.threads[u]) {
      ThreadStays(w, s, s', s'.threads[u]);
    }
    assert ClaimsOk(w, s');
    OwnSame(s.claimed, s.returned, s.threads, t, th);
  }

  lemma StoreKeeps(w: World, s: State, s': State, t: nat)
    requires Inv(w, s) && Store(w, s, s', t)
    ensures Inv(w, s')
    ensures var th := s.threads[t];
      && w.word(th.page, th.pc.off).Fixnum? && th.page < |s'.free|
      && s'.free[th.page] == th.pc.off + s.attr[th.page] + w.word(th.page, th.pc.off).disp
  {
    hide Ownership;
    var th := s.threads[t];
    assert ThreadOk(w, s, th);
    var spacing, off, d := w.spacing[th.cls], th.pc.off, th.pc.disp;
    AlignedUnit(spacing);
    AlignedSum(spacing, off, spacing);
    AlignedSum(spacing, off + spacing, d);
    FreeKeeps(w, s, th.page, off + spacing + d, t, th.(pc := Returning(off)));
  }

  lemma MarkFullKeeps(w: World, s: State, s': State, t: nat)
    requires Inv(w, s) && MarkFull(w, s, s', t)
    ensures Inv(w, s')
  {
    hide Ownership;
    var th := s.threads[t];
    assert ThreadOk(w, s, th);
    FreeKeeps(w, s, th.page, CardBytes, t, th.(pc := NeedPage));
  }

  /** A call returns the slot it holds, which no call has returned before. */
  lemma ReturnKeeps(w: World, s: State, s': State, t: nat)
    requires Inv(w, s) && Return(w, s, s', t)
    ensures Inv(w, s')
    ensures var c := Place(s.threads[t].page, s.threads[t].pc.off);
      s'.returned == s.returned + [c] && c !in s.returned && c in s.claimed
  {
    hide SweptWords;
    var c := Place(s.threads[t].page, s.threads[t].pc.off);
    assert Held(s.threads[t]) == Some(c);
    assert IsHeld(s.threads, c);
    forall u | u in s'.threads ensures ThreadOk(w, s', s'.threads[u]) { ThreadStays(w, s, s', s.threads[u]); }
    OwnReturn(s.claimed, s.returned, s.threads, t, c);
  }

  lemma PageKeeps(w: World, s: State, s': State, t: nat, p: nat)
    requires Inv(w, s) && (FindPage(w, s, s', t, p) || UseHint(w, s, s', t) || Call(w, s, s', t, p))
    ensures Inv(w, s')
  {
    hide Ownership;
    if t in s.threads { assert ThreadOk(w, s, s.threads[t]); }
    LocalStep(w, s, t, s'.threads[t]);
    assert s' == s.(threads := s.threads[t := s'.threads[t]]);
  }

  lemma NextInv(w: World, s: State, s': State)
    requires Inv(w, s) && Next(w, s, s')
    ensures Inv(w, s')
  {
    hide Inv, ClaimPage, FindPage, UseHint, SetHint, ReadFree, ReadWord, CompareAndSwap, Move, Store, MarkFull, Return, Call;
    var t: nat, x: nat :| Step(w, s, s', t, x);
    if ClaimPage(w, s, s', t, x) { ClaimPageKeeps(w, s, s', t, x); }
    else if SetHint(w, s, s', t) { SetHintKeeps(w, s, s', t); }
    else if ReadFree(w, s, s', t) { ReadFreeKeeps(w, s, s', t); }
    else if ReadWord(w, s, s', t) { ReadWordKeeps(w, s, s', t); }
    else if CompareAndSwap(w, s, s', t) { CompareAndSwapKeeps(w, s, s', t); }
    else if Move(w, s, s', t) { MoveKeeps(w, s, s', t); }
    else if Store(w, s, s', t) { StoreKeeps(w, s, s', t); }
    else if MarkFull(w, s, s', t) { MarkFullKeeps(w, s, s', t); }
    else if Return(w, s, s', t) { ReturnKeeps(w, s, s', t); }
    else { PageKeeps(w, s, s', t, x); }
  }

  // ---- Whole runs ----

  ghost predicate IsRun(w: World, run: seq<State>) {
    && run != [] && Init(w, run[0])
    && forall i :: 0 < i < |run| ==> Next(w, run[i - 1], run[i])
  }

  lemma {:induction false} RunInv(w: World, run: seq<State>, i: nat)
    requires IsRun(w, run) && i < |run|
    ensures Inv(w, run[i])
  {
    if i == 0 {
      InitInv(w, run[0]);
    } else {
      RunInv(w, run, i - 1);
      NextInv(w, run[i - 1], run[i]);
    }
  }

  lemma NextGrows(w: World, s: State, s': State)
    requires Inv(w, s) && Next(w, s, s')
    ensures |s'.attr| == |s.attr| && forall p :: 0 <= p < |s.attr| && s.attr[p] != 0 ==> s'.attr[p] == s.attr[p]
    ensures s.claimed <= s'.claimed && s.returned <= s'.returned
  {
    hide Inv;
    var t: nat, x: nat :| Step(w, s, s', t, x);
  }

  /** Once a page has been claimed it keeps its spacing for the rest of the run. */
  lemma {:induction false} SpacingStays(w: World, run: seq<State>, i: nat, j: nat, p: nat)
    requires IsRun(w, run) && i <= j < |run| && p < |run[i].attr| && run[i].attr[p] != 0
    ensures p < |run[j].attr| && run[j].attr[p] == run[i].attr[p]
    decreases j
  {
    hide Inv, Next, Init;
    if i < j {
      SpacingStays(w, run, i, j - 1, p);
      RunInv(w, run, j - 1);
      NextGrows(w, run[j - 1], run[j]);
    }
  }

  lemma DistinctSlots(spacing: nat, a: nat, b: nat)
    requires spacing > 0 && Aligned(spacing, a) && Aligned(spacing, b) && a < b
    ensures a + spacing <= b
  {
    var i: nat :| Multiple(i, spacing, a);
    var j: nat :| Multiple(j, spacing, b);
    if i < j { MulStep(spacing, i, j); }
    if j < i { MulStep(spacing, j, i); }
  }

  lemma ClaimsApart(w: World, s: State, i: nat, j: nat)
    requires ClaimsOk(w, s) && i < j < |s.claimed| && s.claimed[i].page == s.claimed[j].page
    ensures var a, b := s.claimed[i], s.claimed[j];
      a.page < |s.attr| && (a.off + s.attr[a.page] <= b.off || b.off + s.attr[a.page] <= a.off)
  {
    var a, b := s.claimed[i], s.claimed[j];
    if a.off < b.off { DistinctSlots(s.attr[a.page], a.off, b.off); }
    else { DistinctSlots(s.attr[a.page], b.off, a.off); }
  }

  /**
   * In every state of every run: no two calls return the same slot or overlapping ones; a slot
   * held by a call that has won it and not yet returned is held by no other call and has not been
   * returned; every slot won is one or the other; each was a hole after the sweep; and every free
   * index is on a slot boundary of its page or marks it full.
   */
  lemma AllocationSafe(w: World, run: seq<State>, n: nat)
    requires IsRun(w, run) && n < |run|
    ensures var s := run[n];
      && (forall i, j :: 0 <= i < j < |s.returned| ==> s.returned[i] != s.returned[j])
      && (forall i, j :: 0 <= i < j < |s.returned| && s.returned[i].page == s.returned[j].page ==>
            && s.returned[i].page < |s.attr|
            && var spacing := s.attr[s.returned[i].page];
               s.returned[i].off + spacing <= s.returned[j].off || s.returned[j].off + spacing <= s.returned[i].off)
      && (forall t :: t in s.threads && Held(s.threads[t]).Some? ==> Held(s.threads[t]).value !in s.returned)
      && (forall t, u :: t in s.threads && u in s.threads && t != u && Held(s.threads[t]).Some? ==> Held(s.threads[t]) != Held(s.threads[u]))
      && (forall c :: c in s.claimed <==> c in s.returned || IsHeld(s.threads, c))
      && (forall c :: c in s.claimed ==> w.word(c.page, c.off).Fixnum?)
      && |s.attr| == |s.free|
      && (forall p :: 0 <= p < |s.free| && s.attr[p] != 0 ==> Aligned(s.attr[p], s.free[p]) || s.free[p] == CardBytes)
  {
    RunInv(w, run, n);
    var s := run[n];
    forall i, j | 0 <= i < j < |s.returned| && s.returned[i].page == s.returned[j].page
      ensures s.returned[i].page < |s.attr|
      ensures var spacing := s.attr[s.returned[i].page];
        s.returned[i].off + spacing <= s.returned[j].off || s.returned[j].off + spacing <= s.returned[i].off
    {
      assert s.returned[i] in s.claimed && s.returned[j] in s.claimed;
      var k: nat :| k < |s.claimed| && s.claimed[k] == s.returned[i];
      var l: nat :| l < |s.claimed| && s.claimed[l] == s.returned[j];
      if k < l { ClaimsApart(w, s, k, l); } else { ClaimsApart(w, s, l, k); }
    }
  }

  lemma AlignedDifference(spacing: nat, a: nat, b: nat)
    requires Aligned(spacing, a) && Aligned(spacing, b) && a <= b
    ensures Aligned(spacing, b - a)
  {
    var i: nat :| Multiple(i, spacing, a);
    var j: nat :| Multiple(j, spacing, b);
    if j < i {
      MulStep(spacing, j, i);
      AlignedUnit(spacing);
    } else {
      assert (j - i) * spacing == j * spacing - i * spacing;
      assert Multiple(j - i, spacing, b - a);
    }
  }

  /** The hole chain that the sweep leaves is what the allocator starts from: the free index and every
      displacement keep to the spacing. */
  lemma {:induction false} SweptChainAligned(slots: seq<Sweeper.Slot>, spacing: nat, free: nat, holes: seq<nat>)
    requires Sweeper.Chain(slots, spacing, free, holes)
    ensures FreeOk(spacing, free) || spacing == 0
    ensures forall i :: 0 <= i < |holes| ==> holes[i] < |slots| && slots[holes[i]].Hole? && Aligned(spacing, slots[holes[i]].disp)
    decreases |holes|
  {
    if holes == [] {
      assert Multiple(|slots|, spacing, free);
    } else {
      var k := holes[0];
      assert Multiple(k, spacing, free);
      var next := free + spacing + slots[k].disp;
      SweptChainAligned(slots, spacing, next, holes[1..]);
      ChainStart(slots, spacing, next, holes[1..]);
      AlignedUnit(spacing);
      AlignedSum(spacing, free, spacing);
      AlignedDifference(spacing, free + spacing, next);
      forall i | 0 <= i < |holes|
        ensures holes[i] < |slots| && slots[holes[i]].Hole? && Aligned(spacing, slots[holes[i]].disp)
      {
        if i > 0 { assert holes[i] == holes[1..][i - 1]; }
      }
    }
  }

  lemma ChainStart(slots: seq<Sweeper.Slot>, spacing: nat, free: nat, holes: seq<nat>)
    requires Sweeper.Chain(slots, spacing, free, holes)
    ensures Aligned(spacing, free)
  {
    assert Multiple(if holes == [] then |slots| else holes[0], spacing, free);
  }

  // ---- Where a run starts ----

  /** The word at an offset of a swept page: that of the slot there. An empty page is all zero. */
  function SweptWord(slots: seq<Sweeper.Slot>, spacing: nat, off: nat): (x: Word) {
    if spacing == 0 then Fixnum(0)
    else if off % spacing == 0 && off / spacing < |slots| && slots[off / spacing].Hole? then Fixnum(slots[off / spacing].disp)
    else Header
  }

  /** A page as the sweep leaves it: given up, or with the chain of its holes at its free index. */
  ghost predicate SweptPage(slots: seq<Sweeper.Slot>, spacing: nat, free: nat) {
    if spacing == 0 then free == 0
    else
      && spacing <= CardBytes && FreeOk(spacing, free)
      && var holes := Sweeper.Holes(slots, |slots|);
         holes == [] || Sweeper.Chain(slots, spacing, free, holes)
  }

  /** What sweeping a page promises makes it one. */
  lemma SweepGives(slots: seq<Sweeper.Slot>, spacing: nat, free: nat, free': nat, gens': set<nat>)
    requires 0 < spacing <= CardBytes && FreeOk(spacing, free)
    requires var holes := Sweeper.Holes(slots, |slots|);
      if holes == [] then free' == free else Sweeper.Chain(slots, spacing, free', holes)
    requires gens' == {} ==> free' == 0
    ensures SweptPage(slots, if gens' == {} then 0 else spacing, free')
  {
    hide FreeOk;
    var holes := Sweeper.Holes(slots, |slots|);
    if holes != [] { SweptChainAligned(slots, spacing, free', holes); }
  }

  lemma SweptWordAligned(slots: seq<Sweeper.Slot>, spacing: nat, free: nat, off: nat)
    requires SweptPage(slots, spacing, free) && SweptWord(slots, spacing, off).Fixnum?
    ensures if spacing == 0 then SweptWord(slots, spacing, off).disp == 0
            else Aligned(spacing, SweptWord(slots, spacing, off).disp)
  {
    hide FreeOk, Aligned;
    if spacing != 0 {
      var holes, k := Sweeper.Holes(slots, |slots|), off / spacing;
      Sweeper.HolesAre(slots, |slots|);
      assert k in holes;
      SweptChainAligned(slots, spacing, free, holes);
    }
  }

  /** The slots of a page are read at their own offsets. */
  lemma SweptSlot(slots: seq<Sweeper.Slot>, spacing: nat, k: nat)
    requires spacing > 0 && k < |slots|
    ensures SweptWord(slots, spacing, k * spacing) == if slots[k].Hole? then Fixnum(slots[k].disp) else Header
  {
    Quotient(spacing, k);
  }

  function SweptWorld(pages: seq<seq<Sweeper.Slot>>, attr: seq<nat>, spacing: map<nat, nat>): (w: World) {
    World(|attr|, spacing, (p: nat, off: nat) =>
      if p < |pages| && p < |attr| then SweptWord(pages[p], attr[p], off) else Header)
  }

  /** Swept pages, whatever their contents, are a state from which the allocator may start. */
  lemma SweptIsInitial(pages: seq<seq<Sweeper.Slot>>, attr: seq<nat>, free: seq<nat>, spacing: map<nat, nat>)
    requires |pages| == |attr| == |free| && (forall c :: c in spacing ==> 0 < spacing[c] <= CardBytes)
    requires forall p :: 0 <= p < |pages| ==> SweptPage(pages[p], attr[p], free[p])
    ensures Init(SweptWorld(pages, attr, spacing), State(attr, free, map[], [], [], map[]))
  {
    hide FreeOk, Aligned, SweptPage, SweptWord;
    var w := SweptWorld(pages, attr, spacing);
    forall p: nat, off: nat | p < |attr| && w.word(p, off).Fixnum?
      ensures if attr[p] == 0 then w.word(p, off).disp == 0 else Aligned(attr[p], off) ==> Aligned(attr[p], w.word(p, off).disp)
    {
      SweptWordAligned(pages[p], attr[p], free[p], off);
    }
    forall p: nat | p < |free| ensures if attr[p] == 0 then free[p] == 0 else FreeOk(attr[p], free[p]) {
      SweptFree(pages[p], attr[p], free[p]);
    }
  }

  lemma SweptFree(slots: seq<Sweeper.Slot>, spacing: nat, free: nat)
    requires SweptPage(slots, spacing, free)
    ensures if spacing == 0 then free == 0 else FreeOk(spacing, free)
  {
  }

  // ---- One thread on a page ----

  /** No slot at `free` or after it is a hole. */
  ghost predicate NoHole(w: World, p: nat, spacing: nat, free: nat) {
    forall off: nat :: free <= off && Aligned(spacing, off) && off + spacing <= CardBytes ==> w.word(p, off).Header?
  }

  /** The free index leads to the holes at the offsets `holes`, in that order, and to no other. */
  ghost predicate WordChain(w: World, p: nat, spacing: nat, free: nat, holes: seq<nat>)
    decreases |holes|
  {
    if holes == [] then NoHole(w, p, spacing, free)
    else
      && free == holes[0] && free + spacing <= CardBytes && w.word(p, free).Fixnum?
      && WordChain(w, p, spacing, free + spacing + w.word(p, free).disp, holes[1..])
  }

  lemma {:induction false} ChainAbove(w: World, p: nat, spacing: nat, free: nat, holes: seq<nat>, i: nat)
    requires WordChain(w, p, spacing, free, holes) && spacing > 0 && i < |holes|
    ensures free <= holes[i] && (i > 0 ==> free < holes[i])
    decreases |holes|
  {
    if i > 0 {
      ChainAbove(w, p, spacing, free + spacing + w.word(p, free).disp, holes[1..], i - 1);
      assert holes[i] == holes[1..][i - 1];
    }
  }

  /** The rest of a chain is a chain, and no earlier hole comes again. */
  lemma {:induction false} ChainFrom(w: World, p: nat, spacing: nat, free: nat, holes: seq<nat>, i: nat, j: nat)
    requires WordChain(w, p, spacing, free, holes) && spacing > 0 && i < j < |holes|
    ensures holes[i] < holes[j]
    decreases |holes|
  {
    if i == 0 {
      ChainAbove(w, p, spacing, free, holes, j);
    } else {
      ChainFrom(w, p, spacing, free + spacing + w.word(p, free).disp, holes[1..], i - 1, j - 1);
      assert holes[i] == holes[1..][i - 1] && holes[j] == holes[1..][j - 1];
    }
  }

  /** The offsets on page `p` among some slots. */
  function On(places: seq<Place>, p: nat): (offs: seq<nat>) {
    if places == [] then [] else
    var last := places[|places| - 1];
    On(places[..|places| - 1], p) + if last.page == p then [last.off] else []
  }

  lemma OnMore(places: seq<Place>, c: Place, p: nat)
    ensures On(places + [c], p) == On(places, p) + if c.page == p then [c.off] else []
  {
    assert (places + [c])[..|places|] == places;
  }

  lemma {:induction false} OnHas(places: seq<Place>, p: nat, off: nat)
    ensures Place(p, off) in places <==> off in On(places, p)
  {
    if places != [] {
      var z := |places| - 1;
      OnHas(places[..z], p, off);
      assert places == places[..z] + [places[z]];
    }
  }

  /** No thread but `t` is at work on page `p`. */
  ghost predicate Alone(s: State, p: nat, t: nat) {
    forall u :: u in s.threads && u != t ==> s.threads[u].pc.NeedPage? || s.threads[u].page != p
  }

  ghost predicate Working(s: State, p: nat, t: nat) {
    t in s.threads && !s.threads[t].pc.NeedPage? && s.threads[t].page == p
  }

  /** Where the thread on page `p` stands: `k` slots taken of `holes`, all but one that it holds returned. */
  ghost predicate Standing(w: World, p: nat, spacing: nat, holes: seq<nat>, k: nat, pc: PC, free: nat)
    requires k <= |holes|
  {
    match pc
    case GotPage => WordChain(w, p, spacing, free, holes[k..])
    case Probe(off) => WordChain(w, p, spacing, off, holes[k..]) && WordChain(w, p, spacing, free, holes[k..])
    case Swap(off, d) => k < |holes| && off == holes[k] && w.word(p, off) == Fixnum(d) && WordChain(w, p, spacing, off, holes[k..])
    case Advance(off) => k == |holes| && NoHole(w, p, spacing, off) && NoHole(w, p, spacing, free)
    case Publish(off, d) => k > 0 && off == holes[k - 1] && WordChain(w, p, spacing, off + spacing + d, holes[k..])
    case Returning(off) => k > 0 && off == holes[k - 1] && WordChain(w, p, spacing, free, holes[k..])
    case Full => k == |holes|
    case NeedPage => true
  }

  /** The slots of the page are taken in the order of its holes, and returned in that order. */
  ghost predicate Sequential(w: World, s: State, p: nat, t: nat, spacing: nat, holes: seq<nat>) {
    && p < |s.free| && p < |s.attr|
    && On(s.claimed, p) <= holes
    && var k := |On(s.claimed, p)|;
       if Working(s, p, t) then
         && Standing(w, p, spacing, holes, k, s.threads[t].pc, s.free[p])
         && (if Held(s.threads[t]).Some? then On(s.returned, p) == holes[..k - 1] else On(s.returned, p) == holes[..k])
       else On(s.returned, p) == holes[..k] && WordChain(w, p, spacing, s.free[p], holes[k..])
  }

  /** What is known of a step around page `p`: the invariant, one thread at work there, and its spacing. */
  ghost predicate PageStep(w: World, s: State, s': State, p: nat, t: nat, spacing: nat) {
    && Inv(w, s) && Alone(s, p, t) && Alone(s', p, t) && p < |s.attr| == |s'.attr| == |s.free| == |s'.free|
    && spacing > 0 && (s.attr[p] == 0 || s.attr[p] == spacing) && (s'.attr[p] == 0 || s'.attr[p] == spacing)
  }

  /** A step of a thread that is not at work on the page does not touch it. */
  lemma OtherStep(w: World, s: State, s': State, p: nat, t: nat, spacing: nat, u: nat, x: nat)
    requires PageStep(w, s, s', p, t, spacing) && Step(w, s, s', u, x) && !Working(s, p, u)
    ensures s'.free[p] == s.free[p] && On(s'.claimed, p) == On(s.claimed, p) && On(s'.returned, p) == On(s.returned, p)
    ensures forall v :: v != u ==> (v in s'.threads <==> v in s.threads) && (v in s.threads ==> s'.threads[v] == s.threads[v])
    ensures Working(s', p, u) ==> s'.threads[u].pc.GotPage?
  {
    hide Inv, On, ClaimPage, FindPage, UseHint, SetHint, ReadFree, ReadWord, CompareAndSwap, Move, Store, MarkFull, Return, Call;
    if CompareAndSwap(w, s, s', u) || Return(w, s, s', u) {
      OtherRecords(w, s, s', p, u);
    } else if ClaimPage(w, s, s', u, x) || FindPage(w, s, s', u, x) || UseHint(w, s, s', u) || Call(w, s, s', u, x) {
      OtherEnters(w, s, s', p, u, x);
    } else {
      OtherMoves(w, s, s', p, u);
    }
  }

  lemma OtherRecords(w: World, s: State, s': State, p: nat, u: nat)
    requires !Working(s, p, u) && (CompareAndSwap(w, s, s', u) || Return(w, s, s', u))
    ensures s'.free == s.free && On(s'.claimed, p) == On(s.claimed, p) && On(s'.returned, p) == On(s.returned, p)
    ensures forall v :: v != u ==> (v in s'.threads <==> v in s.threads) && (v in s.threads ==> s'.threads[v] == s.threads[v])
    ensures !Working(s', p, u)
  {
    hide On;
    var c := Place(s.threads[u].page, s.threads[u].pc.off);
    OnMore(s.claimed, c, p);
    OnMore(s.returned, c, p);
  }

  lemma OtherEnters(w: World, s: State, s': State, p: nat, u: nat, x: nat)
    requires ClaimPage(w, s, s', u, x) || FindPage(w, s, s', u, x) || UseHint(w, s, s', u) || Call(w, s, s', u, x)
    ensures s'.free == s.free && s'.claimed == s.claimed && s'.returned == s.returned
    ensures forall v :: v != u ==> (v in s'.threads <==> v in s.threads) && (v in s.threads ==> s'.threads[v] == s.threads[v])
    ensures Working(s', p, u) ==> s'.threads[u].pc.GotPage?
  {
  }

  lemma OtherMoves(w: World, s: State, s': State, p: nat, u: nat)
    requires !Working(s, p, u) && p < |s.free|
    requires SetHint(w, s, s', u) || ReadFree(w, s, s', u) || ReadWord(w, s, s', u) || Move(w, s, s', u) || Store(w, s, s', u) || MarkFull(w, s, s', u)
    ensures p < |s'.free| && s'.free[p] == s.free[p] && s'.claimed == s.claimed && s'.returned == s.returned
    ensures forall v :: v != u ==> (v in s'.threads <==> v in s.threads) && (v in s.threads ==> s'.threads[v] == s.threads[v])
    ensures !Working(s', p, u)
  {
  }

  /** A hole not taken yet has not been claimed. */
  lemma NextUnclaimed(w: World, s: State, p: nat, t: nat, spacing: nat, free: nat, holes: seq<nat>)
    requires WordChain(w, p, spacing, free, holes) && spacing > 0 && On(s.claimed, p) <= holes && |On(s.claimed, p)| < |holes|
    ensures Place(p, holes[|On(s.claimed, p)|]) !in s.claimed
  {
    var got := On(s.claimed, p);
    var k := |got|;
    if holes[k] in got {
      var i: nat :| i < k && got[i] == holes[k];
      ChainFrom(w, p, spacing, free, holes, i, k);
    }
    OnHas(s.claimed, p, holes[k]);
  }

  lemma NoHoleAbove(w: World, p: nat, spacing: nat, free: nat, more: nat)
    requires NoHole(w, p, spacing, free) && free <= more
    ensures NoHole(w, p, spacing, more)
  {
  }

  lemma FullHasNoHole(w: World, p: nat, spacing: nat)
    requires spacing > 0
    ensures NoHole(w, p, spacing, CardBytes)
  {
  }

  /** Reading the word at the free index: the next hole, or an object when no hole is left. */
  lemma ReadStep(w: World, s: State, s': State, p: nat, t: nat, spacing: nat, start: nat, holes: seq<nat>)
    requires PageStep(w, s, s', p, t, spacing) && WordChain(w, p, spacing, start, holes)
    requires Sequential(w, s, p, t, spacing, holes) && Working(s, p, t) && ReadWord(w, s, s', t)
    ensures Sequential(w, s', p, t, spacing, holes)
  {
    hide Ownership, ClaimsOk, SweptWords, On;
    var th := s.threads[t];
    var off, k := th.pc.off, |On(s.claimed, p)|;
    assert ThreadOk(w, s, th) && w.spacing[th.cls] == spacing;
    if k < |holes| {
      assert holes[k..][0] == holes[k] == off;
      NextUnclaimed(w, s, p, t, spacing, start, holes);
    } else {
      assert holes[k..] == [];
    }
  }

  lemma SwapStep(w: World, s: State, s': State, p: nat, t: nat, spacing: nat, start: nat, holes: seq<nat>)
    requires PageStep(w, s, s', p, t, spacing) && WordChain(w, p, spacing, start, holes)
    requires Sequential(w, s, p, t, spacing, holes) && Working(s, p, t) && CompareAndSwap(w, s, s', t)
    ensures Sequential(w, s', p, t, spacing, holes)
  {
    hide Ownership, ClaimsOk, SweptWords, On, NoHole;
    var th := s.threads[t];
    var off, k := th.pc.off, |On(s.claimed, p)|;
    assert ThreadOk(w, s, th);
    NextUnclaimed(w, s, p, t, spacing, start, holes);
    OnMore(s.claimed, Place(p, off), p);
    assert holes[..k + 1] == holes[..k] + [holes[k]];
    assert holes[k..][1..] == holes[k + 1..];
  }

  /** Noting the page, and reading its free index. */
  lemma GotStep(w: World, s: State, s': State, p: nat, t: nat, spacing: nat, holes: seq<nat>)
    requires PageStep(w, s, s', p, t, spacing) && Sequential(w, s, p, t, spacing, holes) && Working(s, p, t)
    requires SetHint(w, s, s', t) || ReadFree(w, s, s', t)
    ensures Sequential(w, s', p, t, spacing, holes)
  {
    hide Ownership, ClaimsOk, SweptWords, On, NoHole;
    var th := s.threads[t];
    assert ThreadOk(w, s, th) && w.spacing[th.cls] == spacing;
  }

  /** Moving on past an object, which happens only when no hole is left. */
  lemma MoveStep(w: World, s: State, s': State, p: nat, t: nat, spacing: nat, holes: seq<nat>)
    requires PageStep(w, s, s', p, t, spacing) && Sequential(w, s, p, t, spacing, holes) && Working(s, p, t)
    requires Move(w, s, s', t)
    ensures Sequential(w, s', p, t, spacing, holes)
  {
    hide Ownership, ClaimsOk, SweptWords, On, NoHole;
    var th := s.threads[t];
    assert ThreadOk(w, s, th) && w.spacing[th.cls] == spacing;
    assert holes[|On(s.claimed, p)|..] == [];
    NoHoleAbove(w, p, spacing, th.pc.off, s'.threads[t].pc.off);
  }

  /** Storing the free index, which then leads to the next hole. */
  lemma StoreStep(w: World, s: State, s': State, p: nat, t: nat, spacing: nat, holes: seq<nat>)
    requires PageStep(w, s, s', p, t, spacing) && Sequential(w, s, p, t, spacing, holes) && Working(s, p, t)
    requires Store(w, s, s', t)
    ensures Sequential(w, s', p, t, spacing, holes)
  {
    hide Ownership, ClaimsOk, SweptWords, On, NoHole;
    var th := s.threads[t];
    assert ThreadOk(w, s, th) && w.spacing[th.cls] == spacing;
  }

  /** Marking the page full, which happens only when no hole is left. */
  lemma FullStep(w: World, s: State, s': State, p: nat, t: nat, spacing: nat, holes: seq<nat>)
    requires PageStep(w, s, s', p, t, spacing) && Sequential(w, s, p, t, spacing, holes) && Working(s, p, t)
    requires MarkFull(w, s, s', t)
    ensures Sequential(w, s', p, t, spacing, holes)
  {
    hide Ownership, ClaimsOk, SweptWords, On, NoHole;
    var th := s.threads[t];
    assert ThreadOk(w, s, th) && w.spacing[th.cls] == spacing;
    assert holes[|On(s.claimed, p)|..] == [];
    FullHasNoHole(w, p, spacing);
  }

  /** Returning the slot taken. */
  lemma ReturnStep(w: World, s: State, s': State, p: nat, t: nat, spacing: nat, holes: seq<nat>)
    requires PageStep(w, s, s', p, t, spacing) && Sequential(w, s, p, t, spacing, holes) && Working(s, p, t)
    requires Return(w, s, s', t)
    ensures Sequential(w, s', p, t, spacing, holes)
  {
    hide Ownership, ClaimsOk, SweptWords, On, NoHole;
    var th := s.threads[t];
    assert ThreadOk(w, s, th) && w.spacing[th.cls] == spacing;
    var k := |On(s.claimed, p)|;
    OnMore(s.returned, Place(p, th.pc.off), p);
    assert holes[..k] == holes[..k - 1] + [holes[k - 1]];
  }

  /** Every step keeps the order. */
  lemma SequentialKeeps(w: World, s: State, s': State, p: nat, t: nat, spacing: nat, start: nat, holes: seq<nat>)
    requires PageStep(w, s, s', p, t, spacing) && WordChain(w, p, spacing, start, holes)
    requires Sequential(w, s, p, t, spacing, holes) && Next(w, s, s')
    ensures Sequential(w, s', p, t, spacing, holes)
  {
    hide PageStep, Sequential, ClaimPage, FindPage, UseHint, SetHint, ReadFree, ReadWord, CompareAndSwap, Move, Store, MarkFull, Return, Call, WordChain;
    var u: nat, x: nat :| Step(w, s, s', u, x);
    if !Working(s, p, u) {
      OtherKeeps(w, s, s', p, t, spacing, holes, u, x);
    } else {
      OnlyWorker(w, s, s', p, t, spacing, u);
      NotEntering(w, s, s', t, x, p);
      if SetHint(w, s, s', t) || ReadFree(w, s, s', t) { GotStep(w, s, s', p, t, spacing, holes); }
      else if ReadWord(w, s, s', t) { ReadStep(w, s, s', p, t, spacing, start, holes); }
      else if CompareAndSwap(w, s, s', t) { SwapStep(w, s, s', p, t, spacing, start, holes); }
      else if Move(w, s, s', t) { MoveStep(w, s, s', p, t, spacing, holes); }
      else if Store(w, s, s', t) { StoreStep(w, s, s', p, t, spacing, holes); }
      else if MarkFull(w, s, s', t) { FullStep(w, s, s', p, t, spacing, holes); }
      else { ReturnStep(w, s, s', p, t, spacing, holes); }
    }
  }

  lemma OtherKeeps(w: World, s: State, s': State, p: nat, t: nat, spacing: nat, holes: seq<nat>, u: nat, x: nat)
    requires PageStep(w, s, s', p, t, spacing) && Sequential(w, s, p, t, spacing, holes)
    requires Step(w, s, s', u, x) && !Working(s, p, u)
    ensures Sequential(w, s', p, t, spacing, holes)
  {
    hide Inv, On, WordChain, Step;
    OtherStep(w, s, s', p, t, spacing, u, x);
  }

  lemma OnlyWorker(w: World, s: State, s': State, p: nat, t: nat, spacing: nat, u: nat)
    requires PageStep(w, s, s', p, t, spacing) && Working(s, p, u)
    ensures u == t
  {
  }

  /** A thread at work on a page is not about to enter one. */
  lemma NotEntering(w: World, s: State, s': State, t: nat, x: nat, p: nat)
    requires Working(s, p, t)
    ensures !ClaimPage(w, s, s', t, x) && !FindPage(w, s, s', t, x) && !UseHint(w, s, s', t) && !Call(w, s, s', t, x)
  {
  }

  /** Throughout the run only thread `t` works on page `p`, and if the page has a spacing it is this one. */
  ghost predicate OneThread(run: seq<State>, p: nat, t: nat, spacing: nat) {
    forall i :: 0 <= i < |run| ==> Alone(run[i], p, t) && p < |run[i].attr| && (run[i].attr[p] == 0 || run[i].attr[p] == spacing)
  }

  lemma {:induction false} RunSequential(w: World, run: seq<State>, n: nat, p: nat, t: nat, spacing: nat, holes: seq<nat>)
    requires IsRun(w, run) && n < |run| && OneThread(run, p, t, spacing) && spacing > 0
    requires p < |run[0].free| && WordChain(w, p, spacing, run[0].free[p], holes)
    ensures Sequential(w, run[n], p, t, spacing, holes)
  {
    hide Next, WordChain, Inv;
    if n == 0 {
      assert holes[0..] == holes && holes[..0] == [];
    } else {
      RunSequential(w, run, n - 1, p, t, spacing, holes);
      RunInv(w, run, n - 1);
      RunInv(w, run, n);
      PageSizes(w, run[n - 1]);
      PageSizes(w, run[n]);
      SequentialKeeps(w, run[n - 1], run[n], p, t, spacing, run[0].free[p], holes);
    }
  }

  lemma PageSizes(w: World, s: State)
    requires Inv(w, s)
    ensures |s.attr| == |s.free| == w.npages
  {
  }

  /**
   * If one thread alone works on a page, the slots of that page that its calls have returned are at
   * every moment a prefix of the page's holes, in order; whenever it is not at work there the free index
   * is the next hole, or has no hole at or after it; and it marks the page full only when every hole has
   * been returned.
   */
  lemma OneThreadTakesAll(w: World, run: seq<State>, n: nat, p: nat, t: nat, spacing: nat, holes: seq<nat>)
    requires IsRun(w, run) && n < |run| && OneThread(run, p, t, spacing) && spacing > 0
    requires p < |run[0].free| && WordChain(w, p, spacing, run[0].free[p], holes)
    ensures var s := run[n];
      var m := |On(s.returned, p)|;
      && p < |s.free| && On(s.returned, p) <= holes
      && (!Working(s, p, t) ==>
            && On(s.claimed, p) == On(s.returned, p)
            && (if m < |holes| then s.free[p] == holes[m]
                else forall off: nat :: s.free[p] <= off && Aligned(spacing, off) && off + spacing <= CardBytes ==> w.word(p, off).Header?))
      && (Working(s, p, t) && s.threads[t].pc.Full? ==> On(s.returned, p) == holes)
  {
    hide On;
    RunSequential(w, run, n, p, t, spacing, holes);
    var s := run[n];
    var k := |On(s.claimed, p)|;
    assert On(s.claimed, p) == holes[..k];
    if !Working(s, p, t) && k < |holes| { assert holes[k..][0] == holes[k]; }
    if !Working(s, p, t) && k >= |holes| { assert holes[k..] == []; }
  }

  // ---- Where the holes are ----

  /** The offsets of numbered slots. */
  function Offsets(spacing: nat, ks: seq<nat>): (offs: seq<nat>)
    ensures |offs| == |ks| && forall i :: 0 <= i < |ks| ==> offs[i] == ks[i] * spacing
  {
    seq(|ks|, i requires 0 <= i < |ks| => ks[i] * spacing)
  }

  /** The slots of a page fill it. */
  predicate FillsPage(slots: seq<Sweeper.Slot>, spacing: nat) {
    |slots| * spacing <= CardBytes < |slots| * spacing + spacing
  }

  lemma {:induction false} SlotChain(w: World, p: nat, slots: seq<Sweeper.Slot>, spacing: nat, free: nat, holes: seq<nat>)
    requires Sweeper.Chain(slots, spacing, free, holes) && spacing > 0 && FillsPage(slots, spacing)
    requires forall off: nat :: w.word(p, off) == SweptWord(slots, spacing, off)
    ensures WordChain(w, p, spacing, free, Offsets(spacing, holes))
    decreases |holes|
  {
    hide SweptWord, Offsets, Aligned;
    if holes == [] {
      EndHasNoHole(w, p, slots, spacing, free);
    } else {
      var k := holes[0];
      SweptSlot(slots, spacing, k);
      MulStep(spacing, k, |slots|);
      SlotChain(w, p, slots, spacing, free + spacing + slots[k].disp, holes[1..]);
      assert Offsets(spacing, holes)[1..] == Offsets(spacing, holes[1..]);
    }
  }

  lemma EndHasNoHole(w: World, p: nat, slots: seq<Sweeper.Slot>, spacing: nat, free: nat)
    requires spacing > 0 && FillsPage(slots, spacing) && free >= |slots| * spacing
    ensures NoHole(w, p, spacing, free)
  {
  }

  /** A page without holes has none at any offset. */
  lemma SolidPage(w: World, p: nat, slots: seq<Sweeper.Slot>, spacing: nat, free: nat)
    requires spacing > 0 && Sweeper.Holes(slots, |slots|) == []
    requires forall off: nat :: w.word(p, off) == SweptWord(slots, spacing, off)
    ensures NoHole(w, p, spacing, free)
  {
    Sweeper.HolesAre(slots, |slots|);
    forall off: nat ensures SweptWord(slots, spacing, off).Header? {}
  }

  /**
   * A swept page whose one user is thread `t`: its calls return exactly the slots that sequential
   * allocation from the page hands out, which are its holes in ascending order.
   */
  lemma SweptPageTaken(pages: seq<seq<Sweeper.Slot>>, attr: seq<nat>, free: seq<nat>, spacing: map<nat, nat>, run: seq<State>, n: nat, p: nat, t: nat)
    requires |pages| == |attr| == |free| && p < |pages| && attr[p] > 0
    requires SweptPage(pages[p], attr[p], free[p]) && FillsPage(pages[p], attr[p])
    requires IsRun(SweptWorld(pages, attr, spacing), run) && run[0] == State(attr, free, map[], [], [], map[])
    requires n < |run| && OneThread(run, p, t, attr[p])
    ensures var holes := Sweeper.Holes(pages[p], |pages[p]|);
      var s, m := run[n], |On(run[n].returned, p)|;
      && m <= |holes| && On(s.returned, p) == Offsets(attr[p], holes[..m])
      && (m > 0 ==> Sweeper.AllocRun(pages[p], attr[p], free[p], holes[..m]))
      && (Working(s, p, t) && s.threads[t].pc.Full? ==> m == |holes|)
  {
    hide SweptWord, On, Working, SweptPage, Sweeper.AllocRun, IsRun;
    var w, slots, sp := SweptWorld(pages, attr, spacing), pages[p], attr[p];
    var holes := Sweeper.Holes(slots, |slots|);
    SweptChain(w, p, slots, sp, free[p]);
    OneThreadTakesAll(w, run, n, p, t, sp, Offsets(sp, holes));
    var m := |On(run[n].returned, p)|;
    assert On(run[n].returned, p) == Offsets(sp, holes)[..m] == Offsets(sp, holes[..m]);
    if m > 0 { SweptRun(slots, sp, free[p], holes[..m]); }
  }

  lemma SweptChain(w: World, p: nat, slots: seq<Sweeper.Slot>, spacing: nat, free: nat)
    requires SweptPage(slots, spacing, free) && spacing > 0 && FillsPage(slots, spacing)
    requires forall off: nat :: w.word(p, off) == SweptWord(slots, spacing, off)
    ensures WordChain(w, p, spacing, free, Offsets(spacing, Sweeper.Holes(slots, |slots|)))
  {
    hide SweptWord, FreeOk;
    var holes := Sweeper.Holes(slots, |slots|);
    if holes == [] { SolidPage(w, p, slots, spacing, free); } else { SlotChain(w, p, slots, spacing, free, holes); }
  }

  lemma SweptRun(slots: seq<Sweeper.Slot>, spacing: nat, free: nat, ks: seq<nat>)
    requires SweptPage(slots, spacing, free) && spacing > 0 && ks <= Sweeper.Holes(slots, |slots|) && ks != []
    ensures Sweeper.AllocRun(slots, spacing, free, ks)
  {
    hide FreeOk;
    var holes := Sweeper.Holes(slots, |slots|);
    Sweeper.HolesAre(slots, |slots|);
    Sweeper.SequentialAllocation(slots, spacing, free, holes, ks);
  }

  /** An empty page, given up or never used, has a hole at every slot of whatever spacing it is claimed for. */
  lemma {:induction false} EmptyPageChain(w: World, p: nat, spacing: nat, k: nat, n: nat)
    requires spacing > 0 && k <= n && n * spacing <= CardBytes < n * spacing + spacing
    requires forall off: nat :: w.word(p, off) == Fixnum(0)
    ensures WordChain(w, p, spacing, k * spacing, seq(n - k, i requires 0 <= i < n - k => (k + i) * spacing))
    decreases n - k
  {
    hide Aligned;
    var offs := seq(n - k, i requires 0 <= i < n - k => (k + i) * spacing);
    if k < n {
      EmptyPageChain(w, p, spacing, k + 1, n);
      MulStep(spacing, k, n);
      assert (k + 1) * spacing == k * spacing + spacing;
      assert offs[1..] == seq(n - (k + 1), i requires 0 <= i < n - (k + 1) => ((k + 1) + i) * spacing);
    } else {
      assert offs == [];
    }
  }
}
