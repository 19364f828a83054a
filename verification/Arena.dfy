/**
 * The arena allocator as a state machine over any number of threads: claims by compare-and-swap
 * on a block's free pointer, extension under the arena mutex, and the two operations that walk
 * the blocks under that mutex.  This is the build without a Lisp extension predicate.
 *
 * A block's `claims`, and `granted` and `reports`, are history; nothing in the code reads them.
 */
module Arena {
  import opened Arith
  import opened Options

  const ChunkAlign: nat := 4096
  const DoubleWord: nat := 16
  const HeaderBytes: nat := 32

  datatype Claim = Claim(thread: nat, start: nat, size: nat)

  datatype Block = Block(base: nat, free: nat, limit: int, claims: seq<Claim>)

  datatype Huge = Huge(base: nat, limit: int, request: nat)

  /** One call of `arena_bytes_used`: its result and the true values when it began and ended. */
  datatype Report = Report(atStart: int, result: int, atEnd: int)

  /** Why the process gave up. */
  datatype Reason = LimitReached | NoMemory | AlignmentGlitch(request: nat)

  datatype Phase =
    | Idle
    | Begun(n: nat, cons: bool)
    | Loaded(mem: nat, n: nat, cons: bool)
    | Looking(mem: nat, where: nat, n: nat, cons: bool)
    | Holding(mem: nat, n: nat, cons: bool)
    | Extending(n: nat, cons: bool, request: nat, oversized: bool)
    | Publishing(n: nat, cons: bool, block: Block)
    | Counting(seen: seq<int>, before: seq<int>, atStart: int)
    | Lost(reason: Reason)

  /** What is fixed for the life of an arena. */
  datatype Config = Config(hidable: bool, original: nat, sizeLimit: nat, growth: nat, threshold: nat)

  datatype State = State(
    blocks: seq<Block>,
    huge: seq<Huge>,
    length: nat,
    mutex: Option<nat>,
    phases: seq<Phase>,
    granted: seq<nat>,
    reports: seq<Report>
  )

  datatype Event =
    | Begin(t: nat, n: nat, cons: bool)
    | ReadCurrent(t: nat)
    | ReadFree(t: nat)
    | CompareAndSwap(t: nat)
    | Acquire(t: nat)
    | Check(t: nat)
    | Extend(t: nat, mem: nat)
    | OutOfMemory(t: nat)
    | Publish(t: nat)
    | Count(t: nat)
    | CountBlock(t: nat)
    | CountDone(t: nat)
    | Release(t: nat)

  // Alignment of the memory obtained from the system.

  function Alignment(hidable: bool): (a: nat)
    ensures a == DoubleWord || a == ChunkAlign
  {
    if hidable then ChunkAlign else DoubleWord
  }

  function AlignDown(x: nat, a: nat): (r: nat)
    requires a > 0
    ensures r <= x
  {
    x / a * a
  }

  function AlignUp(x: nat, a: nat): (r: nat)
    requires a > 0
  {
    (x + a - 1) / a * a
  }

  function AllocSize(hidable: bool, request: nat, oversized: bool): (size: nat) {
    if !oversized then request
    else if hidable then request + 3 * ChunkAlign
    else request + HeaderBytes + DoubleWord
  }

  function BaseOf(hidable: bool, mem: nat): (base: nat) {
    AlignUp(mem + HeaderBytes, Alignment(hidable))
  }

  function LimitOf(hidable: bool, mem: nat, size: nat): (limit: nat) {
    AlignDown(mem + size, Alignment(hidable))
  }

  /** The branch that reports an alignment glitch: the huge block cannot hold its request. */
  predicate Glitch(hidable: bool, mem: nat, request: nat) {
    request > LimitOf(hidable, mem, AllocSize(hidable, request, true)) - BaseOf(hidable, mem)
  }

  lemma AlignBounds(x: nat)
    ensures x <= AlignUp(x, DoubleWord) < x + DoubleWord && x - DoubleWord < AlignDown(x, DoubleWord) <= x
    ensures x <= AlignUp(x, ChunkAlign) < x + ChunkAlign && x - ChunkAlign < AlignDown(x, ChunkAlign) <= x
  {
  }

  /** Between two addresses a whole number of double words and one more apart lie that many. */
  lemma DoubleWordsBetween(x: nat, request: nat)
    requires request % DoubleWord == 0
    ensures AlignDown(x + request + DoubleWord, DoubleWord) >= AlignUp(x, DoubleWord) + request
  {
    var q, r, k := x / 16, x % 16, request / 16;
    assert x == 16 * q + r && request == 16 * k;
    assert (16 * (q + k + 1) + r) / 16 == q + k + 1;
    assert (16 * q + (r + 15)) / 16 <= q + 1;
  }

  /** A request of whole double words, or any in a hidable arena, is safe wherever the memory lies. */
  lemma NoGlitch(hidable: bool, mem: nat, request: nat)
    requires hidable || request % DoubleWord == 0
    ensures !Glitch(hidable, mem, request)
  {
    if hidable {
      AlignBounds(mem + HeaderBytes);
      AlignBounds(mem + request + 3 * ChunkAlign);
    } else {
      DoubleWordsBetween(mem + HeaderBytes, request);
    }
  }

  lemma RaggedRequestGlitches(request: nat)
    requires 0 < request % DoubleWord < 15
    ensures Glitch(false, 1, request)
  {
    var k, r := request / 16, request % 16;
    assert request == 16 * k + r;
    assert 1 + request + HeaderBytes + DoubleWord == 16 * (k + 3) + (r + 1);
    assert (16 * (k + 3) + (r + 1)) / 16 == k + 3;
    assert AlignUp(1 + HeaderBytes, DoubleWord) == 48;
  }

  /** A request one byte short of whole double words is safe as well. */
  lemma OneByteShort(mem: nat, request: nat)
    requires request % DoubleWord == 15
    ensures !Glitch(false, mem, request)
  {
    var x := mem + HeaderBytes;
    var q, r, k := x / 16, x % 16, request / 16;
    assert x == 16 * q + r && request == 16 * k + 15;
    if r == 0 {
      assert (16 * (q + k + 1) + 15) / 16 == q + k + 1;
      assert (16 * q + 15) / 16 == q;
    } else {
      assert (16 * (q + k + 2) + (r - 1)) / 16 == q + k + 2;
      assert (16 * q + (r + 15)) / 16 <= q + 1;
    }
  }

  /** At an address of whole double words, which is what the system's allocator returns, no request
      meets the glitch. */
  lemma AlignedMemorySafe(hidable: bool, mem: nat, request: nat)
    requires mem % DoubleWord == 0
    ensures !Glitch(hidable, mem, request)
  {
    if hidable {
      NoGlitch(hidable, mem, request);
    } else {
      var q, k, r := (mem + HeaderBytes) / 16, request / 16, request % 16;
      assert mem + HeaderBytes == 16 * q && request == 16 * k + r;
      assert (16 * q + 15) / 16 == q;
      assert (16 * (q + k + 1) + r) / 16 == q + k + 1;
    }
  }

  /** The requests that meet the glitch at some address. */
  predicate MayGlitch(hidable: bool, request: nat) {
    !hidable && 0 < request % DoubleWord < 15
  }

  /**
   * Exactly which requests can meet the glitch: in a hidable arena none, otherwise all but whole
   * double words and those one byte short of them.
   */
  lemma GlitchExactly(hidable: bool, request: nat)
    ensures (exists mem: nat :: Glitch(hidable, mem, request)) <==> MayGlitch(hidable, request)
  {
    if MayGlitch(hidable, request) {
      RaggedRequestGlitches(request);
    } else {
      forall mem: nat ensures !Glitch(hidable, mem, request) { SafeRequest(hidable, mem, request); }
    }
  }

  lemma SafeRequest(hidable: bool, mem: nat, request: nat)
    requires !MayGlitch(hidable, request)
    ensures !Glitch(hidable, mem, request)
  {
    if hidable || request % DoubleWord == 0 {
      NoGlitch(hidable, mem, request);
    } else {
      OneByteShort(mem, request);
    }
  }

  // The steps.

  function UsedOf(b: Block): (n: int) {
    b.free - b.base
  }

  function Usages(blocks: seq<Block>): (u: seq<int>)
    ensures |u| == |blocks|
    ensures forall i | 0 <= i < |blocks| :: u[i] == UsedOf(blocks[i])
  {
    seq(|blocks|, i requires 0 <= i < |blocks| => UsedOf(blocks[i]))
  }

  function Sum(s: seq<int>): (n: int) {
    if s == [] then 0 else Sum(s[..|s| - 1]) + s[|s| - 1]
  }

  function HugeSpace(huge: seq<Huge>): (n: int) {
    if huge == [] then 0
    else HugeSpace(huge[..|huge| - 1]) + (huge[|huge| - 1].limit - huge[|huge| - 1].base)
  }

  /** The true number of bytes in use. */
  function BytesUsed(blocks: seq<Block>, huge: seq<Huge>): (n: int) {
    Sum(Usages(blocks)) + HugeSpace(huge)
  }

  predicate Oversized(c: Config, n: nat, cons: bool) {
    !cons && n > c.threshold
  }

  function NewBlock(c: Config, mem: nat): (b: Block) {
    var base := BaseOf(c.hidable, mem);
    Block(base, base, LimitOf(c.hidable, mem, c.growth), [])
  }

  predicate Fits(s: State, mem: nat, where: nat, n: nat) {
    mem < |s.blocks| && where + n <= s.blocks[mem].limit
  }

  /** No thread is between the start and the end of an operation on the arena. */
  predicate Unused(s: State) {
    s.mutex == None && forall t | 0 <= t < |s.phases| :: s.phases[t].Idle? || s.phases[t].Lost?
  }

  predicate Enabled(s: State, e: Event) {
    && e.t < |s.phases|
    && var p := s.phases[e.t];
       match e
       case Begin(_, _, _) => p.Idle?
       case ReadCurrent(_) => p.Begun? && |s.blocks| > 0
       case ReadFree(_) => p.Loaded? && p.mem < |s.blocks|
       case CompareAndSwap(_) => p.Looking? && Fits(s, p.mem, p.where, p.n)
       case Acquire(_) => p.Looking? && !Fits(s, p.mem, p.where, p.n) && s.mutex == None
       case Check(_) => p.Holding? && |s.blocks| > 0
       case Extend(_, _) => p.Extending?
       case OutOfMemory(_) => p.Extending?
       case Publish(_) => p.Publishing?
       case Count(_) => p.Idle? && s.mutex == None
       case CountBlock(_) => p.Counting? && |p.seen| < |s.blocks|
       case CountDone(_) => p.Counting? && |p.seen| >= |s.blocks|
       case Release(_) => p.Idle? && Unused(s) && |s.blocks| > 0
  }

  function Step(s: State, c: Config, e: Event): (r: State)
    requires Enabled(s, e)
  {
    var t, p := e.t, s.phases[e.t];
    match e
    case Begin(_, n, cons) => s.(phases := s.phases[t := Begun(n, cons)])
    case ReadCurrent(_) => s.(phases := s.phases[t := Loaded(|s.blocks| - 1, p.n, p.cons)])
    case ReadFree(_) => s.(phases := s.phases[t := Looking(p.mem, s.blocks[p.mem].free, p.n, p.cons)])
    case CompareAndSwap(_) =>
      var b := s.blocks[p.mem];
      if b.free == p.where then
        s.(blocks := s.blocks[p.mem := b.(free := p.where + p.n, claims := b.claims + [Claim(t, p.where, p.n)])],
           phases := s.phases[t := Idle])
      else s.(phases := s.phases[t := Looking(p.mem, b.free, p.n, p.cons)])
    case Acquire(_) => s.(mutex := Some(t), phases := s.phases[t := Holding(p.mem, p.n, p.cons)])
    case Check(_) =>
      var current := |s.blocks| - 1;
      if p.mem != current then
        s.(mutex := None, phases := s.phases[t := Loaded(current, p.n, p.cons)])
      else
        var oversized := Oversized(c, p.n, p.cons);
        var request := if oversized then p.n else c.growth;
        if s.length + request > c.sizeLimit then
          s.(mutex := None, phases := s.phases[t := Lost(LimitReached)])
        else s.(phases := s.phases[t := Extending(p.n, p.cons, request, oversized)])
    case OutOfMemory(_) => s.(mutex := None, phases := s.phases[t := Lost(NoMemory)])
    case Extend(_, mem) =>
      var grown := s.(length := s.length + p.request, granted := s.granted + [p.request]);
      if !p.oversized then grown.(phases := s.phases[t := Publishing(p.n, p.cons, NewBlock(c, mem))])
      else if Glitch(c.hidable, mem, p.request) then
        grown.(phases := s.phases[t := Lost(AlignmentGlitch(p.request))])
      else
        var limit := LimitOf(c.hidable, mem, AllocSize(c.hidable, p.request, true));
        grown.(huge := s.huge + [Huge(BaseOf(c.hidable, mem), limit, p.request)],
               mutex := None, phases := s.phases[t := Idle])
    case Publish(_) =>
      s.(blocks := s.blocks + [p.block], mutex := None, phases := s.phases[t := Begun(p.n, p.cons)])
    case Count(_) =>
      s.(mutex := Some(t),
         phases := s.phases[t := Counting([], Usages(s.blocks), BytesUsed(s.blocks, s.huge))])
    case CountBlock(_) =>
      s.(phases := s.phases[t := p.(seen := p.seen + [UsedOf(s.blocks[|p.seen|])])])
    case CountDone(_) =>
      var report := Report(p.atStart, Sum(p.seen) + HugeSpace(s.huge), BytesUsed(s.blocks, s.huge));
      s.(mutex := None, phases := s.phases[t := Idle], reports := s.reports + [report])
    case Release(_) =>
      var first := s.blocks[0];
      s.(blocks := [first.(free := first.base, claims := [])], huge := [], length := c.original, granted := [])
  }

  /** A new arena with one block and `n` threads. */
  predicate Initial(s: State, c: Config, n: nat) {
    && |s.blocks| == 1 && s.blocks[0].free == s.blocks[0].base && s.blocks[0].claims == []
    && s.huge == [] && s.length == c.original <= c.sizeLimit && s.mutex == None
    && s.granted == [] && s.reports == []
    && |s.phases| == n && forall t | 0 <= t < n :: s.phases[t] == Idle
  }

  /** The state after a whole run from `start`, if each of its steps was possible. */
  function Run(start: State, c: Config, events: seq<Event>): (s: Option<State>) {
    if events == [] then Some(start) else
    var last := |events| - 1;
    match Run(start, c, events[..last])
    case None => None
    case Some(m) => if Enabled(m, events[last]) then Some(Step(m, c, events[last])) else None
  }

  // What every reachable state satisfies.

  /** The claims lie end to end, in the order they were made, from `lo` to `hi`. */
  predicate Tiles(lo: nat, claims: seq<Claim>, hi: nat) {
    if claims == [] then lo == hi else
    var last := claims[|claims| - 1];
    last.start + last.size == hi && Tiles(lo, claims[..|claims| - 1], last.start)
  }

  predicate BlockOk(b: Block) {
    Tiles(b.base, b.claims, b.free) && (b.claims != [] ==> b.free <= b.limit)
  }

  predicate HugeOk(h: Huge) {
    h.request <= h.limit - h.base
  }

  predicate CountOk(seen: seq<int>, before: seq<int>, blocks: seq<Block>) {
    && |seen| <= |before| == |blocks|
    && (forall i | 0 <= i < |before| :: before[i] <= UsedOf(blocks[i]))
    && (forall i | 0 <= i < |seen| :: before[i] <= seen[i] <= UsedOf(blocks[i]))
  }

  predicate PhaseOk(p: Phase, mine: bool, blocks: seq<Block>, huge: seq<Huge>, length: nat, c: Config) {
    match p
    case Idle => !mine
    case Begun(_, _) => !mine
    case Loaded(mem, _, _) => !mine && mem < |blocks|
    case Looking(mem, _, _, _) => !mine && mem < |blocks|
    case Holding(mem, _, _) => mine && mem < |blocks|
    case Extending(n, _, request, oversized) =>
      mine && length + request <= c.sizeLimit && (oversized ==> request == n)
    case Publishing(_, _, block) => mine && BlockOk(block)
    case Counting(seen, before, atStart) =>
      mine && CountOk(seen, before, blocks) && atStart == Sum(before) + HugeSpace(huge)
    case Lost(reason) => if reason.AlignmentGlitch? then mine && MayGlitch(c.hidable, reason.request) else !mine
  }

  predicate PhasesOk(s: State, c: Config) {
    forall t: nat | t < |s.phases| ::
      PhaseOk(s.phases[t], s.mutex == Some(t), s.blocks, s.huge, s.length, c)
  }

  predicate BlocksOk(blocks: seq<Block>) {
    |blocks| > 0 && forall i | 0 <= i < |blocks| :: BlockOk(blocks[i])
  }

  function Total(requests: seq<nat>): (n: nat) {
    if requests == [] then 0 else Total(requests[..|requests| - 1]) + requests[|requests| - 1]
  }

  predicate LengthOk(length: nat, granted: seq<nat>, c: Config) {
    length == c.original + Total(granted) && length <= c.sizeLimit
  }

  predicate ReportsOk(reports: seq<Report>) {
    forall i | 0 <= i < |reports| :: reports[i].atStart <= reports[i].result <= reports[i].atEnd
  }

  predicate Inv(s: State, c: Config) {
    && BlocksOk(s.blocks)
    && (forall i | 0 <= i < |s.huge| :: HugeOk(s.huge[i]))
    && LengthOk(s.length, s.granted, c)
    && c.original <= c.sizeLimit
    && ReportsOk(s.reports)
    && PhasesOk(s, c)
  }

  lemma {:induction false} SumMonotone(a: seq<int>, b: seq<int>)
    requires |a| == |b| && forall i | 0 <= i < |a| :: a[i] <= b[i]
    ensures Sum(a) <= Sum(b)
  {
    if a != [] { SumMonotone(a[..|a| - 1], b[..|b| - 1]); }
  }

  /** A count taken while claims go on lies between the true values at its start and end. */
  lemma CountIsBetween(seen: seq<int>, before: seq<int>, blocks: seq<Block>)
    requires CountOk(seen, before, blocks) && |seen| >= |blocks|
    ensures Sum(before) <= Sum(seen) <= Sum(Usages(blocks))
  {
    SumMonotone(before, seen);
    SumMonotone(seen, Usages(blocks));
  }

  /** What a step by another thread may do to the parts a phase depends on. */
  predicate Undisturbed(was: State, now: State, mine: bool) {
    && |was.blocks| <= |now.blocks|
    && (forall i | 0 <= i < |was.blocks| :: UsedOf(was.blocks[i]) <= UsedOf(now.blocks[i]))
    && (mine ==> |was.blocks| == |now.blocks| && was.huge == now.huge && was.length == now.length)
  }

  lemma PhaseStays(p: Phase, mine: bool, s: State, r: State, c: Config)
    requires PhaseOk(p, mine, s.blocks, s.huge, s.length, c) && Undisturbed(s, r, mine)
    ensures PhaseOk(p, mine, r.blocks, r.huge, r.length, c)
  {
    hide HugeSpace, BlockOk;
  }

  /** Enough to show of a step: its own thread's new phase, and that it disturbs no other. */
  lemma PhasesStay(s: State, r: State, c: Config, t: nat)
    requires PhasesOk(s, c) && t < |s.phases| == |r.phases| && r.phases == s.phases[t := r.phases[t]]
    requires PhaseOk(r.phases[t], r.mutex == Some(t), r.blocks, r.huge, r.length, c)
    requires forall u: nat | u < |s.phases| && u != t :: r.mutex == Some(u) <==> s.mutex == Some(u)
    requires forall u: nat | u < |s.phases| && u != t :: Undisturbed(s, r, s.mutex == Some(u))
    ensures PhasesOk(r, c)
  {
    hide PhaseOk, Undisturbed;
    forall u: nat | u < |r.phases|
      ensures PhaseOk(r.phases[u], r.mutex == Some(u), r.blocks, r.huge, r.length, c)
    {
      if u != t { PhaseStays(s.phases[u], s.mutex == Some(u), s, r, c); }
    }
  }

  /** Steps that only move one thread along, possibly taking or giving up the mutex. */
  lemma LocalKeeps(s: State, c: Config, e: Event)
    requires Enabled(s, e) && Inv(s, c)
    requires e.Begin? || e.ReadCurrent? || e.ReadFree? || e.Acquire? || e.Check? || e.OutOfMemory?
    ensures Inv(Step(s, c, e), c)
  {
    hide BlockOk, HugeOk, LengthOk, ReportsOk, Sum, HugeSpace, CountOk;
    var r := Step(s, c, e);
    assert PhaseOk(s.phases[e.t], s.mutex == Some(e.t), s.blocks, s.huge, s.length, c);
    PhasesStay(s, r, c, e.t);
  }

  /** A successful claim lengthens the tiling of its block and stays within the limit. */
  lemma ClaimTiles(b: Block, t: nat, n: nat)
    requires BlockOk(b) && b.free + n <= b.limit
    ensures BlockOk(b.(free := b.free + n, claims := b.claims + [Claim(t, b.free, n)]))
  {
    var claims := b.claims + [Claim(t, b.free, n)];
    assert claims[..|claims| - 1] == b.claims;
  }

  lemma SwapKeeps(s: State, c: Config, t: nat)
    requires Enabled(s, CompareAndSwap(t)) && Inv(s, c)
    ensures Inv(Step(s, c, CompareAndSwap(t)), c)
    ensures var p, r := s.phases[t], Step(s, c, CompareAndSwap(t));
      var b := s.blocks[p.mem];
      if r.phases[t].Idle? then
        && p.where == b.free && b.free + p.n <= b.limit
        && r.blocks[p.mem].claims == b.claims + [Claim(t, b.free, p.n)] && r.blocks[p.mem].free == b.free + p.n
      else r.blocks == s.blocks && r.phases[t] == p.(where := b.free)
  {
    hide BlockOk, HugeOk, LengthOk, ReportsOk, Sum, HugeSpace, CountOk;
    var r := Step(s, c, CompareAndSwap(t));
    var p := s.phases[t];
    assert PhaseOk(p, s.mutex == Some(t), s.blocks, s.huge, s.length, c);
    if s.blocks[p.mem].free == p.where {
      ClaimTiles(s.blocks[p.mem], t, p.n);
    }
    PhasesStay(s, r, c, t);
  }

  lemma GrantKeeps(length: nat, granted: seq<nat>, c: Config, request: nat)
    requires LengthOk(length, granted, c) && length + request <= c.sizeLimit
    ensures LengthOk(length + request, granted + [request], c)
  {
    assert (granted + [request])[..|granted|] == granted;
  }

  lemma ExtendKeeps(s: State, c: Config, t: nat, mem: nat)
    requires Enabled(s, Extend(t, mem)) && Inv(s, c)
    ensures Inv(Step(s, c, Extend(t, mem)), c)
    ensures var p, r := s.phases[t], Step(s, c, Extend(t, mem));
      && r.length == s.length + p.request <= c.sizeLimit && r.granted == s.granted + [p.request]
      && (p.oversized && r.phases[t].Idle? ==>
           |r.huge| == |s.huge| + 1 && r.huge[|s.huge|].request == p.n && HugeOk(r.huge[|s.huge|]))
      && (!p.oversized ==> r.phases[t].Publishing? && BlockOk(r.phases[t].block) && r.phases[t].block.claims == [])
  {
    hide LengthOk, ReportsOk, Sum, HugeSpace, CountOk, BaseOf, LimitOf, AllocSize, Tiles;
    var r := Step(s, c, Extend(t, mem));
    var p := s.phases[t];
    assert PhaseOk(p, s.mutex == Some(t), s.blocks, s.huge, s.length, c);
    GrantKeeps(s.length, s.granted, c, p.request);
    if p.oversized {
      if !MayGlitch(c.hidable, p.request) { SafeRequest(c.hidable, mem, p.request); }
    } else {
      NewBlockOk(c, mem);
    }
    PhasesStay(s, r, c, t);
  }

  /**
   * What a thread that holds the mutex decides: to go on with the current block if another thread has
   * added one meanwhile; to give up exactly if what it would ask for, its own request if that is huge
   * and the growth amount otherwise, exceeds the size limit; and else to extend by that amount.
   */
  lemma CheckDecides(s: State, c: Config, t: nat)
    requires Enabled(s, Check(t))
    ensures var p, r := s.phases[t], Step(s, c, Check(t));
      var huge := !p.cons && p.n > c.threshold;
      var request := if huge then p.n else c.growth;
      && (r.phases[t] == Lost(LimitReached) <==> p.mem == |s.blocks| - 1 && s.length + request > c.sizeLimit)
      && (r.phases[t] == Extending(p.n, p.cons, request, huge) <==> p.mem == |s.blocks| - 1 && s.length + request <= c.sizeLimit)
      && (p.mem != |s.blocks| - 1 <==> r.phases[t] == Loaded(|s.blocks| - 1, p.n, p.cons))
      && r.blocks == s.blocks && r.huge == s.huge && r.length == s.length
  {
  }

  /** No other step gives up at the limit. */
  lemma OnlyCheckGivesUp(s: State, c: Config, e: Event, u: nat)
    requires Enabled(s, e) && u < |s.phases| && s.phases[u] != Lost(LimitReached)
    ensures u < |Step(s, c, e).phases| && (Step(s, c, e).phases[u] == Lost(LimitReached) ==> e == Check(u))
  {
  }

  /** A thread goes for the mutex exactly when its request does not fit in the block it looks at. */
  lemma FitsExactly(s: State, t: nat)
    requires t < |s.phases| && s.phases[t].Looking? && s.phases[t].mem < |s.blocks|
    ensures var p := s.phases[t];
      && (Enabled(s, CompareAndSwap(t)) <==> p.where + p.n <= s.blocks[p.mem].limit)
      && (Enabled(s, Acquire(t)) <==> p.where + p.n > s.blocks[p.mem].limit && s.mutex == None)
  {
  }

  /** The usable part of memory of `size` bytes at `mem`, less the header in front and what alignment costs. */
  ghost predicate Inside(hidable: bool, mem: nat, size: nat, base: nat, limit: int) {
    var a := if hidable then 4096 else 16;
    && base % a == 0 && limit % a == 0
    && mem + 32 <= base < mem + 32 + a
    && mem + size - a < limit <= mem + size
  }

  lemma PlacedInside(hidable: bool, mem: nat, size: nat)
    ensures Inside(hidable, mem, size, BaseOf(hidable, mem), LimitOf(hidable, mem, size))
  {
    AlignBounds(mem + HeaderBytes);
    AlignBounds(mem + size);
    AlignMultiple(mem + HeaderBytes, Alignment(hidable));
    AlignMultiple(mem + size, Alignment(hidable));
  }

  lemma AlignMultiple(x: nat, a: nat)
    requires a > 0
    ensures AlignUp(x, a) % a == 0 && AlignDown(x, a) % a == 0
  {
    Quotient(a, (x + a - 1) / a);
    Quotient(a, x / a);
  }

  /**
   * An extension uses only memory it has obtained: a block of the growth amount, or for a huge object
   * the request and three chunks of 4096 bytes if the arena is hidable, the request, a header and a
   * double word if not.
   */
  lemma ExtensionInside(s: State, c: Config, t: nat, mem: nat)
    requires Enabled(s, Extend(t, mem))
    ensures var p, r := s.phases[t], Step(s, c, Extend(t, mem));
      && (!p.oversized ==>
            && r.phases[t].Publishing? && r.phases[t].block.free == r.phases[t].block.base
            && Inside(c.hidable, mem, c.growth, r.phases[t].block.base, r.phases[t].block.limit))
      && (p.oversized && r.phases[t].Idle? ==>
            && |r.huge| == |s.huge| + 1
            && var size := if c.hidable then p.request + 12288 else p.request + 48;
               Inside(c.hidable, mem, size, r.huge[|s.huge|].base, r.huge[|s.huge|].limit))
  {
    hide BaseOf, LimitOf, Inside;
    var p := s.phases[t];
    PlacedInside(c.hidable, mem, c.growth);
    PlacedInside(c.hidable, mem, if c.hidable then p.request + 12288 else p.request + 48);
  }

  lemma NewBlockOk(c: Config, mem: nat)
    ensures BlockOk(NewBlock(c, mem))
  {
  }

  lemma PublishKeeps(s: State, c: Config, t: nat)
    requires Enabled(s, Publish(t)) && Inv(s, c)
    ensures Inv(Step(s, c, Publish(t)), c)
  {
    hide BlockOk, HugeOk, LengthOk, ReportsOk, Sum, HugeSpace, CountOk;
    var r := Step(s, c, Publish(t));
    assert PhaseOk(s.phases[t], s.mutex == Some(t), s.blocks, s.huge, s.length, c);
    PhasesStay(s, r, c, t);
  }

  lemma CountKeeps(s: State, c: Config, e: Event)
    requires Enabled(s, e) && Inv(s, c)
    requires e.Count? || e.CountBlock? || e.CountDone?
    ensures Inv(Step(s, c, e), c)
  {
    hide BlockOk, HugeOk, LengthOk, Sum, HugeSpace;
    var r := Step(s, c, e);
    var p := s.phases[e.t];
    assert PhaseOk(p, s.mutex == Some(e.t), s.blocks, s.huge, s.length, c);
    if e.CountDone? { CountIsBetween(p.seen, p.before, s.blocks); }
    PhasesStay(s, r, c, e.t);
  }

  lemma ReleaseKeeps(s: State, c: Config, t: nat)
    requires Enabled(s, Release(t)) && Inv(s, c)
    ensures Inv(Step(s, c, Release(t)), c)
    ensures var r := Step(s, c, Release(t));
      && r.length == c.original && r.granted == [] && r.huge == []
      && |r.blocks| == 1 && r.blocks[0].claims == [] && BytesUsed(r.blocks, r.huge) == 0
  {
    var r := Step(s, c, Release(t));
    var used := Usages(r.blocks);
    assert used == [0] && used[..0] == [];
    assert Sum(used) == Sum(used[..0]) + used[0];
    forall u: nat | u < |r.phases|
      ensures PhaseOk(r.phases[u], r.mutex == Some(u), r.blocks, r.huge, r.length, c)
    {
      assert PhaseOk(s.phases[u], s.mutex == Some(u), s.blocks, s.huge, s.length, c);
    }
  }

  lemma StepKeeps(s: State, c: Config, e: Event)
    requires Enabled(s, e) && Inv(s, c)
    ensures Inv(Step(s, c, e), c)
  {
    hide Inv, Enabled, Step;
    match e
    case CompareAndSwap(t) => SwapKeeps(s, c, t);
    case Extend(t, mem) => ExtendKeeps(s, c, t, mem);
    case Publish(t) => PublishKeeps(s, c, t);
    case Count(_) => CountKeeps(s, c, e);
    case CountBlock(_) => CountKeeps(s, c, e);
    case CountDone(_) => CountKeeps(s, c, e);
    case Release(t) => ReleaseKeeps(s, c, t);
    case _ => LocalKeeps(s, c, e);
  }

  lemma InitialInv(s: State, c: Config, n: nat)
    requires Initial(s, c, n)
    ensures Inv(s, c)
  {
  }

  lemma {:induction false} RunKeeps(start: State, c: Config, n: nat, events: seq<Event>)
    requires Initial(start, c, n) && Run(start, c, events).Some?
    ensures Inv(Run(start, c, events).value, c)
  {
    hide Inv, Enabled, Step, Initial;
    if events == [] {
      InitialInv(start, c, n);
    } else {
      RunKeeps(start, c, n, events[..|events| - 1]);
      StepKeeps(Run(start, c, events[..|events| - 1]).value, c, events[|events| - 1]);
    }
  }

  /** A huge block adds what lies between its base and its limit to the bytes in use. */
  lemma HugeSpaceAdds(huge: seq<Huge>, h: Huge)
    ensures HugeSpace([]) == 0 && HugeSpace(huge + [h]) == HugeSpace(huge) + h.limit - h.base
  {
    assert (huge + [h])[..|huge|] == huge;
  }

  /**
   * No thread is ever stuck: whatever it is doing it can take a step, unless it waits for a mutex that
   * another thread holds; and an arena that no thread is using can be released.
   */
  lemma NoThreadStuck(start: State, c: Config, n: nat, events: seq<Event>, t: nat) returns (e: Event)
    requires Initial(start, c, n) && Run(start, c, events).Some? && t < n
    ensures var s := Run(start, c, events).value;
      && t < |s.phases| && e.t == t
      && (s.phases[t].Lost? || Enabled(s, e)
          || (s.phases[t].Looking? && s.mutex.Some? && s.mutex != Some(t)))
      && (s.phases[t].Idle? && s.mutex == None && (forall u | 0 <= u < |s.phases| :: s.phases[u].Idle?) ==> Enabled(s, Release(t)))
  {
    RunKeeps(start, c, n, events);
    RunThreads(start, c, n, events);
    var s := Run(start, c, events).value;
    assert PhaseOk(s.phases[t], s.mutex == Some(t), s.blocks, s.huge, s.length, c);
    e := match s.phases[t]
      case Idle => Begin(t, 0, false)
      case Begun(_, _) => ReadCurrent(t)
      case Loaded(_, _, _) => ReadFree(t)
      case Looking(mem, where, k, _) => if Fits(s, mem, where, k) then CompareAndSwap(t) else Acquire(t)
      case Holding(_, _, _) => Check(t)
      case Extending(_, _, _, _) => Extend(t, 0)
      case Publishing(_, _, _) => Publish(t)
      case Counting(seen, _, _) => if |seen| < |s.blocks| then CountBlock(t) else CountDone(t)
      case Lost(_) => Begin(t, 0, false);
  }

  lemma InitialThreads(start: State, c: Config, n: nat)
    requires Initial(start, c, n)
    ensures |start.phases| == n
  {
  }

  lemma StepThreads(s: State, c: Config, e: Event)
    requires Enabled(s, e)
    ensures |Step(s, c, e).phases| == |s.phases|
  {
    hide Oversized, Fits;
  }

  lemma {:induction false} RunThreads(start: State, c: Config, n: nat, events: seq<Event>)
    requires Initial(start, c, n) && Run(start, c, events).Some?
    ensures |Run(start, c, events).value.phases| == n
  {
    hide Enabled, Step, Initial;
    if events == [] {
      InitialThreads(start, c, n);
    } else {
      RunThreads(start, c, n, events[..|events| - 1]);
      StepThreads(Run(start, c, events[..|events| - 1]).value, c, events[|events| - 1]);
    }
  }

  // What that means.

  predicate Covers(k: Claim, address: nat) {
    k.start <= address < k.start + k.size
  }

  predicate Claimed(claims: seq<Claim>, address: nat) {
    exists i :: 0 <= i < |claims| && Covers(claims[i], address)
  }

  predicate ClaimedTwice(claims: seq<Claim>, address: nat) {
    exists i, j :: 0 <= i < j < |claims| && Covers(claims[i], address) && Covers(claims[j], address)
  }

  /** Every address of the block up to its free pointer, and no other, is in exactly one claim. */
  ghost predicate Partitioned(b: Block) {
    forall address: nat ::
      (Claimed(b.claims, address) <==> b.base <= address < b.free) && !ClaimedTwice(b.claims, address)
  }

  lemma {:induction false} TilesPartition(lo: nat, claims: seq<Claim>, hi: nat, address: nat)
    requires Tiles(lo, claims, hi)
    ensures lo <= hi
    ensures Claimed(claims, address) <==> lo <= address < hi
    ensures !ClaimedTwice(claims, address)
  {
    if claims != [] {
      var last := |claims| - 1;
      var rest := claims[..last];
      TilesPartition(lo, rest, claims[last].start, address);
      if lo <= address < claims[last].start {
        var i :| 0 <= i < |rest| && Covers(rest[i], address);
        assert Covers(claims[i], address);
      } else if address < hi && lo <= address {
        assert Covers(claims[last], address);
      }
      forall i | 0 <= i < last && Covers(claims[i], address) ensures lo <= address < claims[last].start {
        assert Covers(rest[i], address);
      }
      forall i, j | 0 <= i < j < |claims|
        ensures !(Covers(claims[i], address) && Covers(claims[j], address))
      {
        if j < last { assert claims[i] == rest[i] && claims[j] == rest[j]; }
      }
    }
  }

  lemma BlockPartitioned(b: Block)
    requires BlockOk(b)
    ensures Partitioned(b)
  {
    forall address: nat
      ensures Claimed(b.claims, address) <==> b.base <= address < b.free
      ensures !ClaimedTwice(b.claims, address)
    {
      TilesPartition(b.base, b.claims, b.free, address);
    }
  }

  function ClaimedBytes(claims: seq<Claim>): (n: nat) {
    if claims == [] then 0 else ClaimedBytes(claims[..|claims| - 1]) + claims[|claims| - 1].size
  }

  lemma {:induction false} TilesBytes(lo: nat, claims: seq<Claim>, hi: nat)
    requires Tiles(lo, claims, hi)
    ensures hi - lo == ClaimedBytes(claims)
  {
    if claims != [] { TilesBytes(lo, claims[..|claims| - 1], claims[|claims| - 1].start); }
  }

  function AllClaimed(blocks: seq<Block>): (n: nat) {
    if blocks == [] then 0
    else AllClaimed(blocks[..|blocks| - 1]) + ClaimedBytes(blocks[|blocks| - 1].claims)
  }

  lemma {:induction false} UsedIsClaimed(blocks: seq<Block>)
    requires forall i | 0 <= i < |blocks| :: BlockOk(blocks[i])
    ensures Sum(Usages(blocks)) == AllClaimed(blocks)
  {
    if blocks != [] {
      var last := |blocks| - 1;
      UsedIsClaimed(blocks[..last]);
      assert Usages(blocks)[..last] == Usages(blocks[..last]);
      TilesBytes(blocks[last].base, blocks[last].claims, blocks[last].free);
    }
  }

  /** A thread that met the glitch although its request can be satisfied at every address. */
  predicate GlitchedSafely(p: Phase, c: Config) {
    p.Lost? && p.reason.AlignmentGlitch? && !MayGlitch(c.hidable, p.reason.request)
  }

  /**
   * In every state of every run: each block's claims partition what lies below its free pointer
   * and stay within its limit; every huge block holds its request; the length is the original
   * size plus every request granted, and within the limit; no thread met the glitch with a request
   * that is safe, such as one of whole double words.
   */
  lemma ArenaSafe(start: State, c: Config, n: nat, events: seq<Event>)
    requires Initial(start, c, n) && Run(start, c, events).Some?
    ensures var s := Run(start, c, events).value;
      && (forall i | 0 <= i < |s.blocks| :: Partitioned(s.blocks[i]))
      && (forall i | 0 <= i < |s.blocks| && s.blocks[i].claims != [] :: s.blocks[i].free <= s.blocks[i].limit)
      && (forall i | 0 <= i < |s.huge| :: s.huge[i].request <= s.huge[i].limit - s.huge[i].base)
      && s.length == c.original + Total(s.granted) <= c.sizeLimit
      && (forall t | 0 <= t < |s.phases| :: !GlitchedSafely(s.phases[t], c))
  {
    RunKeeps(start, c, n, events);
    var s := Run(start, c, events).value;
    forall i | 0 <= i < |s.blocks| ensures Partitioned(s.blocks[i]) {
      BlockPartitioned(s.blocks[i]);
    }
    forall t: nat | t < |s.phases| ensures !GlitchedSafely(s.phases[t], c) {
      assert PhaseOk(s.phases[t], s.mutex == Some(t), s.blocks, s.huge, s.length, c);
    }
  }

  /**
   * The bytes in use are the bytes claimed plus the space of the huge blocks, and what
   * `arena_bytes_used` reported lies between that value when it began and when it ended, so
   * is exact when nothing was claimed meanwhile.
   */
  lemma BytesUsedReported(start: State, c: Config, n: nat, events: seq<Event>)
    requires Initial(start, c, n) && Run(start, c, events).Some?
    ensures var s := Run(start, c, events).value;
      && BytesUsed(s.blocks, s.huge) == AllClaimed(s.blocks) + HugeSpace(s.huge)
      && forall i | 0 <= i < |s.reports| ::
           s.reports[i].atStart <= s.reports[i].result <= s.reports[i].atEnd
  {
    RunKeeps(start, c, n, events);
    UsedIsClaimed(Run(start, c, events).value.blocks);
  }
}
