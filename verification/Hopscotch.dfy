/** The hopscotch hash table of the runtime, as an object over in-place arrays that
    refines a finite map. */
module Hopscotch {
  import opened Bits
  import opened HopscotchSpec

  /** Which hash function a table was created with. A `Default` table starts with the
      fast one and may switch to the mixing one when it grows. */
  datatype HashFun = Default | Mix | Content

  datatype Family = Family(fast: nat -> nat, mix: nat -> nat, content: nat -> nat, eql: (nat, nat) -> bool)

  function HashKey(f: Family, kind: HashFun, mixed: bool, k: nat): nat {
    match kind
    case Default => if mixed then f.mix(k) else f.fast(k)
    case Mix => f.mix(k)
    case Content => f.content(k)
  }

  function HomeOf(f: Family, kind: HashFun, mixed: bool, size: nat): HomeFn
    requires size > 0
  {
    k => HashKey(f, kind, mixed, k) % size
  }

  lemma HomesOf(f: Family, kind: HashFun, mixed: bool, c: Cells)
    requires c.size > 0
    ensures Homes(c, HomeOf(f, kind, mixed, c.size))
  {
  }

  predicate Same(f: Family, kind: HashFun, a: nat, b: nat) {
    if kind.Content? then f.eql(a, b) else a == b
  }

  /** A comparator must be an equivalence that the content hash respects. */
  ghost predicate Compatible(f: Family) {
    && (forall a: nat :: f.eql(a, a))
    && (forall a: nat, b: nat :: f.eql(a, b) ==> f.eql(b, a) && f.content(a) == f.content(b))
    && (forall a: nat, b: nat, c: nat {:trigger f.eql(a, b), f.eql(b, c)} :: f.eql(a, b) && f.eql(b, c) ==> f.eql(a, c))
  }

  lemma SameHome(f: Family, kind: HashFun, mixed: bool, size: nat, a: nat, b: nat)
    requires Compatible(f) && size > 0 && Same(f, kind, a, b)
    ensures HomeOf(f, kind, mixed, size)(a) == HomeOf(f, kind, mixed, size)(b)
  {
  }

  /** No key of the map is the same as `key`. */
  ghost predicate Absent(f: Family, kind: HashFun, m: map<nat, int>, key: nat) {
    forall k :: k in m ==> !Same(f, kind, k, key)
  }

  /** No two keys of the map are the same. */
  ghost predicate Unique(f: Family, kind: HashFun, m: map<nat, int>) {
    forall a, b :: a in m && b in m && Same(f, kind, a, b) ==> a == b
  }

  lemma UniquePut(f: Family, kind: HashFun, m: map<nat, int>, key: nat, v: int)
    requires Compatible(f) && Unique(f, kind, m) && Absent(f, kind, m, key)
    ensures key !in m && Unique(f, kind, m[key := v])
  {
  }

  lemma UniqueDelete(f: Family, kind: HashFun, m: map<nat, int>, k: nat, key: nat)
    requires Compatible(f) && Unique(f, kind, m) && k in m && Same(f, kind, k, key)
    ensures !Absent(f, kind, m, key)
    ensures forall q :: q in m ==> (Same(f, kind, q, key) <==> q == k)
  {
  }

  lemma UniquePart(f: Family, kind: HashFun, m: map<nat, int>, part: map<nat, int>)
    requires Unique(f, kind, m) && part.Keys <= m.Keys
    ensures Unique(f, kind, part)
  {
  }

  lemma UniqueAbsent(f: Family, kind: HashFun, m: map<nat, int>, part: map<nat, int>, key: nat)
    requires Unique(f, kind, m) && key in m && key !in part && part.Keys <= m.Keys
    ensures Absent(f, kind, part, key)
  {
  }

  lemma AbsentAll(f: Family, kind: HashFun, m: map<nat, int>, key: nat)
    requires Absent(f, kind, m, key)
    ensures forall k :: k in m ==> !Same(f, kind, k, key)
  {
  }

  function PickRange(size: nat, hint: nat): nat {
    if hint != 0 then hint
    else if size <= 1023 then 8
    else if size <= 16384 then 16
    else 32
  }

  /** The home bin of a key in a table of `size` bins made by growing a smaller one: a `Default` table
      with more than 16384 bins uses the mixing hash function. */
  function GrownHome(f: Family, kind: HashFun, size: nat, k: nat): (b: nat)
    requires size > 0
  {
    (match kind
     case Default => if size > 16384 then f.mix(k) else f.fast(k)
     case Mix => f.mix(k)
     case Content => f.content(k)) % size
  }

  /** No two of the keys share a home bin in a table grown to `size` bins. */
  ghost predicate Spread(f: Family, kind: HashFun, ks: set<nat>, size: nat)
  {
    size > 0 && forall a, b :: a in ks && b in ks && a != b ==> GrownHome(f, kind, size, a) != GrownHome(f, kind, size, b)
  }

  /** The size after `j` doublings. */
  function Doubled(size: nat, j: nat): (n: nat) {
    if j == 0 then size else Doubled(size, j - 1) * 2
  }

  lemma {:induction false} DoubledMore(size: nat, i: nat, j: nat)
    ensures Doubled(Doubled(size, i), j) == Doubled(size, i + j)
  {
    if j > 0 { DoubledMore(size, i, j - 1); }
  }

  lemma {:induction false} DoubledGrows(size: nat, j: nat)
    ensures Doubled(size, j) >= size && (j > 0 ==> Doubled(size, j) >= 2 * size)
  {
    if j > 0 { DoubledGrows(size, j - 1); }
  }

  /** Every key is in its home bin itself. */
  ghost predicate HomeCells(keys: seq<nat>, home: HomeFn) {
    forall i :: 0 <= i < |keys| && keys[i] != 0 ==> home(keys[i]) == i
  }

  /** No two of the keys have the same home bin. */
  ghost predicate OwnBins(home: HomeFn, ks: set<nat>) {
    forall a, b :: a in ks && b in ks && a != b ==> home(a) != home(b)
  }

  lemma HomeCellsAdd(keys: seq<nat>, home: HomeFn, k: nat)
    requires HomeCells(keys, home) && home(k) < |keys|
    ensures HomeCells(keys[home(k) := k], home)
  {
  }

  /** `home` is how a table grown to `size` bins hashes. */
  ghost predicate Grown(f: Family, kind: HashFun, size: nat, home: HomeFn) {
    size > 0 && forall k :: home(k) == GrownHome(f, kind, size, k)
  }

  lemma GrownOwnBins(f: Family, kind: HashFun, size: nat, home: HomeFn, ks: set<nat>)
    requires Grown(f, kind, size, home)
    ensures OwnBins(home, ks) <==> Spread(f, kind, ks, size)
  {
    hide GrownHome;
  }

  /**
   * The promise of growing a table of `size` bins at most `budget` times for the keys `ks`, when `left`
   * attempts are left over: if the keys would have home bins of their own at some size tried, then it
   * has succeeded, at that size or before.
   */
  ghost predicate Promise(f: Family, kind: HashFun, ks: set<nat>, size: nat, budget: nat, left: nat, success: bool) {
    && left <= budget
    && forall j: nat :: 1 <= j <= budget && Spread(f, kind, ks, Doubled(size, j)) ==> success && budget - left <= j
  }

  lemma PromiseKept(f: Family, kind: HashFun, ks: set<nat>, size: nat, budget: nat)
    ensures Promise(f, kind, ks, size, budget, budget, true)
  {
  }

  lemma PromiseFor(f: Family, kind: HashFun, ks: set<nat>, more: set<nat>, size: nat, budget: nat, left: nat, success: bool)
    requires Promise(f, kind, ks, size, budget, left, success) && ks <= more
    ensures Promise(f, kind, more, size, budget, left, success)
  {
    hide Spread, Doubled;
    forall j: nat | 1 <= j <= budget && Spread(f, kind, more, Doubled(size, j)) ensures success && budget - left <= j {
      SpreadPart(f, kind, ks, more, Doubled(size, j));
    }
  }

  /** Growing once, and then on. */
  lemma PromiseOn(f: Family, kind: HashFun, ks: set<nat>, size: nat, budget: nat, left1: nat, left: nat, success: bool)
    requires Promise(f, kind, ks, size, budget, left1, true)
    requires Promise(f, kind, ks, Doubled(size, budget - left1), left1, left, success)
    requires Spread(f, kind, ks, Doubled(size, budget - left1)) ==> success && left == left1
    ensures Promise(f, kind, ks, size, budget, left, success)
  {
    hide Spread, Doubled;
    var used := budget - left1;
    forall j: nat | 1 <= j <= budget && Spread(f, kind, ks, Doubled(size, j)) ensures success && budget - left <= j {
      if j > used { DoubledMore(size, used, j - used); }
    }
  }

  /** Every cell within reach of bin `b` is occupied. */
  ghost predicate Crowded(keys: seq<nat>, b: nat, range: nat) {
    forall i :: b <= i < b + range && i < |keys| ==> keys[i] != 0
  }

  /** The table `c` for some of the keys `ks` has no free cell within reach of the home bin of `k`, another of them. */
  ghost predicate JamAt(home: HomeFn, ks: set<nat>, c: Cells, part: map<nat, int>, k: nat) {
    Ok(c, home, part) && part.Keys <= ks && k in ks && k !in part && Crowded(c.keys, home(k), c.range)
  }

  ghost predicate JamIn(home: HomeFn, ks: set<nat>, size: nat, range: nat) {
    exists c: Cells, part, k :: c.size == size && c.range == range && JamAt(home, ks, c, part, k)
  }

  /** A table grown to `size` bins can jam while it is filled with the keys. */
  ghost predicate Jammed(f: Family, kind: HashFun, ks: set<nat>, size: nat) {
    exists home :: Grown(f, kind, size, home) && JamIn(home, ks, size, PickRange(size, 0))
  }

  /** An attempt to grow to `size` bins for the keys has a reason to fail: a jam, or a table that is past
      its threshold, 13/16 of the cells, before the last of them. */
  ghost predicate Refused(f: Family, kind: HashFun, ks: set<nat>, size: nat) {
    Jammed(f, kind, ks, size) || |ks| > (size + PickRange(size, 0) - 1) * 13 / 16
  }

  /** Every attempt before the one that succeeded, or all of `budget`, had a reason to fail. */
  ghost predicate Tried(f: Family, kind: HashFun, ks: set<nat>, size: nat, budget: nat, left: nat, success: bool) {
    && left <= budget && (success || left == 0)
    && forall j: nat :: 1 <= j <= budget - left && (success ==> j < budget - left) ==> Refused(f, kind, ks, Doubled(size, j))
  }

  lemma JamFor(f: Family, kind: HashFun, ks: set<nat>, more: set<nat>, size: nat)
    requires Jammed(f, kind, ks, size) && ks <= more
    ensures Jammed(f, kind, more, size)
  {
    hide Grown, Ok, Crowded, PickRange;
    var home :| Grown(f, kind, size, home) && JamIn(home, ks, size, PickRange(size, 0));
    var c: Cells, part, k :| c.size == size && c.range == PickRange(size, 0) && JamAt(home, ks, c, part, k);
    assert JamAt(home, more, c, part, k);
  }

  lemma NoneTried(f: Family, kind: HashFun, ks: set<nat>, size: nat, budget: nat)
    ensures Tried(f, kind, ks, size, budget, budget, true)
  {
  }

  lemma TriedFor(f: Family, kind: HashFun, ks: set<nat>, more: set<nat>, size: nat, budget: nat, left: nat, success: bool)
    requires ks <= more && left <= budget && (success || left == 0)
    requires forall j: nat :: 1 <= j <= budget - left && (success ==> j < budget - left) ==> Jammed(f, kind, ks, Doubled(size, j))
    ensures Tried(f, kind, more, size, budget, left, success)
  {
    hide Jammed, Doubled, PickRange;
    forall j: nat | 1 <= j <= budget - left && (success ==> j < budget - left)
      ensures Refused(f, kind, more, Doubled(size, j))
    {
      JamFor(f, kind, ks, more, Doubled(size, j));
    }
  }

  /** Growing once, and then on. */
  lemma TriedOn(f: Family, kind: HashFun, ks: set<nat>, size: nat, budget: nat, left1: nat, left: nat, success: bool)
    requires Tried(f, kind, ks, size, budget, left1, true)
    requires Tried(f, kind, ks, Doubled(size, budget - left1), left1, left, success)
    requires (success && left == left1) || Refused(f, kind, ks, Doubled(size, budget - left1))
    ensures Tried(f, kind, ks, size, budget, left, success)
  {
    hide Refused, Doubled;
    var used := budget - left1;
    forall j: nat | 1 <= j <= budget - left && (success ==> j < budget - left) ensures Refused(f, kind, ks, Doubled(size, j)) {
      if j > used { DoubledMore(size, used, j - used); }
    }
  }

  /** The keys whose home bins, in a table grown to `size` bins, are less than the hop range away from bin `b`. */
  ghost function Near(f: Family, kind: HashFun, ks: set<nat>, size: nat, b: nat): (near: set<nat>)
    requires size > 0
  {
    set k | k in ks && b - PickRange(size, 0) < GrownHome(f, kind, size, k) < b + PickRange(size, 0)
  }

  lemma CellNear(c: Cells, home: HomeFn, part: map<nat, int>, i: nat)
    requires Ok(c, home, part) && i < |c.keys| && c.keys[i] != 0
    ensures c.keys[i] in part && i - c.range < home(c.keys[i]) <= i
    ensures forall j :: 0 <= j < |c.keys| && c.keys[j] == c.keys[i] ==> j == i
  {
    CellKey(c, home, part, i);
    assert Claims(c.hops, home(c.keys[i]), i);
  }

  lemma {:induction false} WindowKeys(c: Cells, home: HomeFn, part: map<nat, int>, b: nat, n: nat) returns (window: set<nat>)
    requires Ok(c, home, part) && b + n <= |c.keys|
    requires forall i :: b <= i < b + n ==> c.keys[i] != 0
    ensures |window| == n && window <= part.Keys
    ensures forall k :: k in window ==> b - c.range < home(k) < b + n && k in c.keys[b..b + n]
  {
    hide Ok;
    if n == 0 { return {}; }
    var most := WindowKeys(c, home, part, b, n - 1);
    CellNear(c, home, part, b + n - 1);
    window := most + {c.keys[b + n - 1]};
  }

  lemma CrowdAround(home: HomeFn, ks: set<nat>, c: Cells, part: map<nat, int>, k: nat, near: set<nat>)
    requires JamAt(home, ks, c, part, k)
    requires forall q :: q in ks && home(k) - c.range < home(q) < home(k) + c.range ==> q in near
    ensures home(k) < c.size && |near| > c.range
  {
    hide Ok;
    SizeFacts(c, home, part);
    ShapeOf(c, home, part);
    var window := WindowKeys(c, home, part, home(k), c.range);
    Contained(window + {k}, near);
  }

  /** A jam takes more keys near one bin than the hop range. */
  lemma JamIsCrowd(f: Family, kind: HashFun, ks: set<nat>, size: nat)
    requires size > 0 && Jammed(f, kind, ks, size)
    ensures exists b: nat :: b < size && |Near(f, kind, ks, size, b)| > PickRange(size, 0)
  {
    hide JamAt, GrownHome, PickRange;
    var home :| Grown(f, kind, size, home) && JamIn(home, ks, size, PickRange(size, 0));
    var c: Cells, part, k :| c.size == size && c.range == PickRange(size, 0) && JamAt(home, ks, c, part, k);
    CrowdAround(home, ks, c, part, k, Near(f, kind, ks, size, home(k)));
  }

  lemma {:induction false} Contained(a: set<nat>, b: set<nat>)
    requires a <= b
    ensures |a| <= |b|
  {
    if a != {} {
      var k :| k in a;
      Contained(a - {k}, b - {k});
    }
  }

  /** An insertion succeeds by the first size tried that is below its threshold and has nowhere more
      keys near one bin than the hop range. */
  lemma SparseFits(f: Family, kind: HashFun, ks: set<nat>, size: nat, budget: nat, left: nat, success: bool, j: nat)
    requires Tried(f, kind, ks, size, budget, left, success) && 1 <= j <= budget && Doubled(size, j) > 0
    requires forall b: nat :: b < Doubled(size, j) ==> |Near(f, kind, ks, Doubled(size, j), b)| <= PickRange(Doubled(size, j), 0)
    requires |ks| <= (Doubled(size, j) + PickRange(Doubled(size, j), 0) - 1) * 13 / 16
    ensures success && budget - left <= j
  {
    hide Jammed, Doubled, Near, PickRange;
    if !success || budget - left > j {
      JamIsCrowd(f, kind, ks, Doubled(size, j));
      assert false;
    }
  }

  /** Up to 8 keys fit at the first attempt. */
  lemma FewFit(f: Family, kind: HashFun, ks: set<nat>, size: nat, budget: nat, left: nat, success: bool)
    requires Tried(f, kind, ks, size, budget, left, success) && budget > 0 && size > 1 && |ks| <= 8
    ensures success && budget - left <= 1
  {
    hide Tried, GrownHome;
    assert Doubled(size, 1) == 2 * size by { assert Doubled(size, 0) == size; }
    forall b: nat | b < 2 * size ensures |Near(f, kind, ks, 2 * size, b)| <= 8 {
      Contained(Near(f, kind, ks, 2 * size, b), ks);
    }
    SparseFits(f, kind, ks, size, budget, left, success, 1);
  }

  lemma SpreadPart(f: Family, kind: HashFun, ks: set<nat>, more: set<nat>, size: nat)
    requires ks <= more && Spread(f, kind, more, size)
    ensures Spread(f, kind, ks, size)
  {
  }

  datatype Outcome = Inserted(count: nat) | Updated | NoRoom | Exhausted

  class Table {
    const family: Family
    const kind: HashFun
    const valued: bool        // a map if true, a set if false
    var mixed: bool           // a Default table that has switched to the mixing hash
    var size: nat             // number of logical bins, the mask plus 1
    var range: nat            // hop range
    var threshold: nat
    var count: nat
    var prevSize: nat
    var resized: bool
    var rehashing: bool
    var keys: array<nat>
    var hops: array<nat>
    var vals: array<int>      // of length 0 in a set
    ghost var contents: map<nat, int>

    ghost function Repr(): set<object> reads this { {this, keys, hops, vals} }

    ghost function View(): Cells
      reads this, keys, hops, vals
    {
      Cells(size, range, keys[..], hops[..], if valued then vals[..] else Zeros(keys.Length))
    }

    ghost function Home(): HomeFn
      reads this
      requires size > 0
    {
      HomeOf(family, kind, mixed, size)
    }

    ghost predicate Valid()
      reads this, keys, hops, vals
    {
      && keys != hops
      && Compatible(family)
      && vals.Length == (if valued then keys.Length else 0)
      && size > 0 && hops.Length == size && keys.Length == size + range - 1
      && Ok(View(), Home(), contents)
      && count == |contents|
      && Unique(family, kind, contents)
      && prevSize > 0 && threshold == keys.Length * 13 / 16
    }

    constructor (family: Family, kind: HashFun, valued: bool, size: nat, hint: nat)
      requires Compatible(family) && IsPow2(size) && hint in {0, 8, 16, 32}
      ensures Valid() && fresh(Repr()) && contents == map[]
      ensures this.family == family && this.kind == kind && this.valued == valued && this.size == size
      ensures range == PickRange(size, hint)
      ensures range == if hint != 0 then hint else if size <= 1023 then 8 else if size <= 16384 then 16 else 32
      ensures !mixed && !rehashing && !resized && prevSize == size
    {
      hide Compatible, Same, HashKey;
      this.family, this.kind, this.valued := family, kind, valued;
      this.size, this.range := size, PickRange(size, hint);
      var n := size + PickRange(size, hint) - 1;
      this.keys := new nat[n](_ => 0);
      this.hops := new nat[size](_ => 0);
      this.vals := new int[if valued then n else 0](_ => 0);
      this.threshold := n * 13 / 16;
      this.count, this.contents := 0, map[];
      this.mixed, this.rehashing, this.resized, this.prevSize := false, false, false, size;
      new;
      ZeroIsOk(View(), Home());
    }

    /** `hash(ht, key) & ht->mask` */
    function HomeBin(key: nat): (b: nat)
      reads this
      requires size > 0
      ensures b < size
      ensures b == Home()(key)
    {
      HashKey(family, kind, mixed, key) % size
    }

    /** The hash function of a table is the one it was created with, but a `Default` table may have switched. */
    lemma HomeBinHashes(key: nat)
      requires size > 0
      ensures HomeBin(key) == (match kind
                               case Default => if mixed then family.mix(key) else family.fast(key)
                               case Mix => family.mix(key)
                               case Content => family.content(key)) % size
    {
    }

    /** Compare `w` adjacent cells with `key`, in order: the unrolled `probe` sequences. */
    method ProbeWindow(index: nat, w: nat, key: nat) returns (at: int)
      requires index + w <= keys.Length
      ensures at >= 0 ==> at < keys.Length && keys[at] == key
      ensures at < 0 ==> forall i :: index <= i < index + w ==> keys[i] != key
    {
      for i := index to index + w
        invariant forall j :: index <= j < i ==> keys[j] != key
      {
        if keys[i] == key { return i; }
      }
      at := -1;
    }

    /** The search shared by get and put, four cells at a time, ignoring which bits of the
        four are set. It stays in bounds and finds the key exactly when it is present. */
    method ProbeFour(key: nat) returns (at: int)
      requires Valid() && key != 0 && !kind.Content?
      ensures at >= 0 ==> at < keys.Length && keys[at] == key
      ensures at < 0 ==> key !in contents
    {
      hide Ok, Shifted, Missed, Compatible, Same;
      var b := HomeBin(key);
      var bits, index := hops[b], b;
      ghost var c, n: nat, hit := View(), 0, (k: nat) => k == key;
      SearchStart(c, b, hit);
      while bits != 0
        invariant index == b + 4 * n
        invariant Shifted(bits, c.hops[b], index - b) && Missed(c, b, index - b, hit)
        decreases bits
      {
        if bits % 16 != 0 {
          WindowInBounds(c, Home(), contents, b, bits, n, 4);
          at := ProbeWindow(index, 4, key);
          if at >= 0 { return; }
        }
        StepWindow(c, b, bits, index - b, 4, hit);
        bits, index, n := bits / 16, index + 4, n + 1;
      }
      SearchedAll(c, Home(), contents, b, index - b, hit);
      at := -1;
    }

    /** The search by single bits of the mask, with the table's own comparator. */
    method ProbeMask(key: nat) returns (at: int)
      requires Valid() && key != 0
      ensures at >= 0 ==> at < keys.Length && keys[at] != 0 && Same(family, kind, keys[at], key)
      ensures at >= 0 ==> HomeBin(key) <= at && HomeBin(keys[at]) == HomeBin(key)
      ensures at < 0 ==> Absent(family, kind, contents, key)
    {
      hide Ok, Shifted, Missed, Compatible, Bit, Unique, HashKey, Zeros, IsPow2;
      var b := HomeBin(key);
      var bits, index := hops[b], b;
      ghost var c, hit := View(), (k: nat) => Same(family, kind, k, key);
      SearchStart(c, b, hit);
      while bits != 0
        invariant b <= index
        invariant Shifted(bits, c.hops[b], index - b) && Missed(c, b, index - b, hit)
        decreases bits
      {
        if bits % 2 == 1 {
          ClaimedCell(c, Home(), contents, b, bits, index - b);
          if Same(family, kind, keys[index], key) { return index; }
        }
        StepOne(c, b, bits, index - b, hit);
        bits, index := bits / 2, index + 1;
      }
      forall k | k in contents && hit(k) ensures Home()(k) == b { SameHome(family, kind, mixed, size, k, key); }
      SearchedAll(c, Home(), contents, b, index - b, hit);
      at := -1;
    }

    /** The search of `hopscotch_containsp`, eight cells at a time. */
    method Contains(key: nat) returns (found: bool)
      requires Valid() && key != 0
      ensures found <==> !Absent(family, kind, contents, key)
    {
      hide Ok, Shifted, Missed, Compatible;
      if kind.Content? {
        var at := ProbeMask(key);
        if at >= 0 { CellKey(View(), Home(), contents, at); }
        return at >= 0;
      }
      var b := HomeBin(key);
      var bits, index := hops[b], b;
      ghost var c, n: nat, hit := View(), 0, (k: nat) => k == key;
      SearchStart(c, b, hit);
      while bits != 0
        invariant index == b + 8 * n
        invariant Shifted(bits, c.hops[b], index - b) && Missed(c, b, index - b, hit)
        decreases bits
      {
        if bits % 256 != 0 {
          WindowInBounds(c, Home(), contents, b, bits, n, 8);
          var at := ProbeWindow(index, 8, key);
          if at >= 0 {
            CellKey(View(), Home(), contents, at);
            return true;
          }
        }
        StepWindow(c, b, bits, index - b, 8, hit);
        bits, index, n := bits / 256, index + 8, n + 1;
      }
      SearchedAll(c, Home(), contents, b, index - b, hit);
      found := false;
    }

    /** The cell of `key`, or -1. */
    method Find(key: nat) returns (at: int)
      requires Valid() && key != 0
      ensures at >= 0 ==> at < keys.Length && keys[at] in contents && Same(family, kind, keys[at], key)
      ensures at >= 0 && valued ==> contents[keys[at]] == vals[at]
      ensures at < 0 ==> Absent(family, kind, contents, key)
    {
      hide Ok, Compatible;
      if kind.Content? {
        at := ProbeMask(key);
      } else {
        at := ProbeFour(key);
      }
      if at >= 0 { CellKey(View(), Home(), contents, at); }
    }

    /** A map yields the value of the key; a set yields the cell index plus 1. */
    method Get(key: nat, notfound: int) returns (r: int)
      requires Valid() && key != 0
      ensures Absent(family, kind, contents, key) ==> r == notfound
      ensures valued ==> forall k :: k in contents && Same(family, kind, k, key) ==> r == contents[k]
      ensures !valued && !Absent(family, kind, contents, key) ==>
        1 <= r <= keys.Length && keys[r - 1] in contents && Same(family, kind, keys[r - 1], key)
    {
      hide Ok;
      var at := Find(key);
      if at < 0 { return notfound; }
      r := if valued then vals[at] else at + 1;
    }

    /** Store a key, a value (nothing in a set) and a hop mask. */
    method Write(i: nat, key: nat, val: int, b: nat, mask: nat)
      requires i < keys.Length && b < hops.Length && keys != hops && vals.Length == if valued then keys.Length else 0
      modifies keys, hops, vals
      ensures View() == old(View()).(keys := old(keys[..])[i := key], hops := old(hops[..])[b := mask],
                                     vals := old(View().vals)[i := if valued then val else 0])
    {
      ghost var zeros := Zeros(keys.Length);
      keys[i] := key;
      hops[b] := mask;
      if valued {
        vals[i] := val;
      } else {
        assert zeros[i := 0] == zeros;
      }
    }

    /** No bin whose neighbourhood includes the empty cell `free` owns a cell left of it. */
    ghost predicate Stuck(free: nat)
      reads this, keys, hops
    {
      && free < keys.Length && keys[free] == 0
      && forall b: nat, i: nat :: free - range < b && i < free ==> !Claims(hops[..], b, i)
    }

    /** Make `free` usable further left: scan the bins whose neighbourhood includes `free`,
        leftmost first, and move the first key that one of them owns below `free` into it.
        The vacated cell is returned; the denoted map is unchanged either way. */
    method Displace(free: nat) returns (moved: bool, freed: nat)
      requires Valid() && range <= free < keys.Length && keys[free] == 0
      modifies keys, hops, vals
      ensures Valid()
      ensures moved ==> free - range < freed < free && keys[freed] == 0
      ensures !moved ==> freed == free && View() == old(View()) && Stuck(free)
    {
      hide Ok, Compatible, Same, Bit, HomeOf, HashKey, Unique, FlipBit, LowBits, LowestBit, IsPow2, Zeros;
      SizeFacts(View(), Home(), contents);
      var b := free - (range - 1);
      var limit := if free - 1 >= size - 1 then size - 1 else free - 1;
      while b <= limit
        invariant free - range < b <= limit + 1
        invariant View() == old(View())
        invariant forall q: nat, i: nat :: free - range < q < b && i < free ==> !Claims(hops[..], q, i)
      {
        var displacement := free - b;
        var masked := LowBits(hops[b], displacement);
        if masked != 0 {
          var victim := LowestBit(masked);
          VictimClaimed(hops[..], b, displacement);
          var elt := b + victim;
          Relocate(b, elt, free);
          return true, elt;
        }
        NoVictim(hops[..], b, displacement);
        b := b + 1;
      }
      return false, free;
    }

    /** Move the key in cell `from`, which bin `b` owns, to the free cell `to`. */
    method Relocate(b: nat, from: nat, to: nat)
      requires Valid() && b <= from < to < keys.Length && b < size && to < b + range
      requires Claims(hops[..], b, from) && keys[to] == 0
      modifies keys, hops, vals
      ensures Valid() && keys[from] == 0
    {
      hide Ok, Compatible, Same, HomeOf, HashKey, Unique, FlipBit, IsPow2, Zeros;
      ghost var c := View();
      MoveKeeps(c, Home(), contents, b, from, to);
      CellValue(c, Home(), contents, from, valued);
      Write(to, keys[from], if valued then vals[from] else 0, b, hops[b]);
      Write(from, 0, 0, b, FlipBit(FlipBit(hops[b], to - b), from - b));
      assert View().hops == Move(c, b, from, to).hops;
    }

    /** `put_pair`, `set_hop_bit` and `++count`. */
    method PutPair(i: nat, key: nat, val: int)
      requires Valid() && key != 0 && Absent(family, kind, contents, key)
      requires i < keys.Length && keys[i] == 0 && HomeBin(key) <= i < HomeBin(key) + range
      modifies this`count, this`contents, keys, hops, vals
      ensures Valid()
      ensures contents == old(contents)[key := if valued then val else 0]
      ensures keys[..] == old(keys[..])[i := key]
    {
      hide Ok, SetBit, HomeOf, Same, Compatible, Unique, Absent, Zeros;
      var b := HomeBin(key);
      ghost var v := if valued then val else 0;
      UniquePut(family, kind, contents, key, v);
      PutKeeps(View(), Home(), contents, i, key, v);
      Write(i, key, val, b, SetBit(hops[b], i - b));
      count, contents := count + 1, contents[key := v];
    }

    /** The part of `hopscotch_insert` that works within the present storage. Failure means that
        the table is past its threshold, has no free cell to the right, or cannot bring one near;
        keys may then have moved, but the map is the same. */
    method TryInsert(key: nat, val: int) returns (ok: bool)
      requires Valid() && key != 0 && Absent(family, kind, contents, key)
      modifies this`count, this`contents, keys, hops, vals
      ensures Valid()
      ensures contents == if ok then old(contents)[key := if valued then val else 0] else old(contents)
      ensures !ok ==>
        || (!rehashing && count >= threshold)
        || (forall i :: HomeBin(key) <= i < keys.Length ==> keys[i] != 0)
        || (exists free: nat :: HomeBin(key) + range <= free && Stuck(free))
      ensures old(keys[..])[HomeBin(key)] == 0 ==> ok && keys[..] == old(keys[..])[HomeBin(key) := key]
      ensures !ok ==> (!rehashing && count >= threshold) || Crowded(old(keys[..]), HomeBin(key), range)
    {
      hide Ok, Compatible, Same, HomeOf, Unique, Absent, HashKey, Zeros;
      var desired := HomeBin(key);
      SizeFacts(View(), Home(), contents);
      if keys[desired] == 0 {
        PutPair(desired, key, val);
        return true;
      }
      CellKey(View(), Home(), contents, desired);
      if !rehashing && count >= threshold { return false; }
      var limit := size + range - 2;
      var free := desired + 1;
      while keys[free] != 0
        invariant desired < free <= limit
        invariant forall i :: desired <= i < free ==> keys[i] != 0
        decreases limit - free
      {
        if free == limit { return false; }
        free := free + 1;
      }
      ok := BringNear(key, val, desired, free);
    }

    /** The rest of an insertion, from the first free cell right of home: displace it into range. */
    method BringNear(key: nat, val: int, desired: nat, first: nat) returns (ok: bool)
      requires Valid() && key != 0 && Absent(family, kind, contents, key) && desired == HomeBin(key)
      requires desired < first < keys.Length && keys[first] == 0
      modifies this`count, this`contents, keys, hops, vals
      ensures Valid()
      ensures contents == if ok then old(contents)[key := if valued then val else 0] else old(contents)
      ensures !ok ==> count == old(count) && first >= desired + range
      ensures !ok ==> exists free: nat :: desired + range <= free && Stuck(free)
    {
      hide Ok, Compatible, Same, HomeOf, Unique, Absent, HashKey, Zeros;
      var free := first;
      while free - desired >= range
        invariant Valid() && contents == old(contents) && count == old(count)
        invariant desired < free <= first && keys[free] == 0 && (free == first || first - desired >= range)
        decreases free
      {
        var moved, freed := Displace(free);
        if !moved { return false; }
        free := freed;
      }
      PutPair(free, key, val);
      ok := true;
    }

    /** Clear an occupied cell, its value and its hop bit. */
    method RemoveAt(at: nat)
      requires Valid() && at < keys.Length && keys[at] != 0
      modifies this`count, this`contents, keys, hops, vals
      ensures Valid()
      ensures old(keys[at]) in old(contents) && contents == old(contents) - {old(keys[at])}
    {
      hide Ok, FlipBit, HomeOf, Same, Compatible, Unique, Zeros;
      ghost var k := keys[at];
      var b := HomeBin(keys[at]);
      CellKey(View(), Home(), contents, at);
      RemoveKeeps(View(), Home(), contents, at);
      WithoutKey(contents, k);
      UniquePart(family, kind, contents, contents - {k});
      Write(at, 0, 0, b, FlipBit(hops[b], at - b));
      count, contents := count - 1, contents - {k};
    }

    method Delete(key: nat) returns (deleted: bool)
      requires Valid() && key != 0
      modifies this`count, this`contents, keys, hops, vals
      ensures Valid()
      ensures deleted <==> !Absent(family, kind, old(contents), key)
      ensures forall k :: k in contents <==> k in old(contents) && !Same(family, kind, k, key)
      ensures forall k :: k in contents ==> contents[k] == old(contents)[k]
    {
      hide Ok, HomeOf, Same, Compatible, Unique, Absent;
      var at := ProbeMask(key);
      if at < 0 {
        AbsentAll(family, kind, contents, key);
        return false;
      }
      CellKey(View(), Home(), contents, at);
      UniqueDelete(family, kind, contents, keys[at], key);
      RemoveAt(at);
      deleted := true;
    }

    /** Rehash into fresh storage of twice the size, and twice that again whenever a key does not
        fit. The source sets no bound on the attempts; here `budget` is how many may be made.
        When it returns successfully the table denotes the same map. */
    method ResizeUp(budget: nat) returns (ok: bool, left: nat)
      requires Valid() && !rehashing
      modifies this
      ensures Valid() && contents == old(contents) && !rehashing
      ensures ok ==> fresh(keys) && fresh(hops) && fresh(vals) && left < budget && size >= 2 * old(size) && resized
      ensures !ok ==> unchanged(this) && left == 0
      ensures ok ==> size == Doubled(old(size), budget - left) && range == PickRange(size, 0)
      ensures ok ==> Grown(family, kind, size, Home())
      ensures ok && Spread(family, kind, contents.Keys, size) ==> HomeCells(keys[..], Home())
      ensures Promise(family, kind, contents.Keys, old(size), budget, left, ok)
      ensures forall j: nat :: 1 <= j <= budget - left && (ok ==> j < budget - left) ==>
        Jammed(family, kind, contents.Keys, Doubled(old(size), j))
    {
      hide Ok, Same, HomeOf, HashKey, IsPow2, Unique, Compatible, Zeros, Spread, HomeCells, Grown, Jammed;
      SizeFacts(View(), Home(), contents);
      var newSize := size;
      left := budget;
      while left > 0
        invariant unchanged(this) && left <= budget
        invariant newSize == Doubled(size, budget - left) && newSize >= size && IsPow2(newSize)
        invariant forall j: nat :: 1 <= j <= budget - left ==> !Spread(family, kind, contents.Keys, Doubled(size, j))
        invariant forall j: nat :: 1 <= j <= budget - left ==> Jammed(family, kind, contents.Keys, Doubled(size, j))
        decreases left
      {
        DoublePow2(newSize);
        newSize, left := newSize * 2, left - 1;
        var done := Attempt(newSize);
        if done { return true, left; }
      }
      ok := false;
    }

    /** Fill a fresh table of `newSize` bins and, if every key finds room, take it over. */
    method Attempt(newSize: nat) returns (done: bool)
      requires Valid() && !rehashing && IsPow2(newSize)
      modifies this
      ensures Valid() && contents == old(contents) && !rehashing
      ensures done ==> fresh(keys) && fresh(hops) && fresh(vals) && resized && size == newSize && range == PickRange(size, 0)
      ensures done ==> Grown(family, kind, size, Home())
      ensures !done ==> unchanged(this) && Jammed(family, kind, contents.Keys, newSize)
      ensures Spread(family, kind, contents.Keys, newSize) ==> done && HomeCells(keys[..], Home())
    {
      hide Ok, Same, HomeOf, HashKey, Unique, Compatible, Zeros, Spread, HomeCells, Grown, Jammed;
      var copy := new Table(family, kind, valued, newSize, 0);
      done := Fill(copy);
      if done { Adopt(copy); }
    }

    /** One attempt: choose the hash function of the fresh table `copy` and rehash into it.  It does
        not fail if the keys all have home bins of their own under the hash function chosen. */
    method Fill(copy: Table) returns (done: bool)
      requires Valid() && copy.Valid() && copy.contents == map[] && Separate(copy)
      requires copy.range == PickRange(copy.size, 0) && !copy.mixed
      modifies copy, copy.keys, copy.hops, copy.vals
      ensures copy.Valid() && copy.size == old(copy.size) && copy.range == old(copy.range)
      ensures copy.keys == old(copy.keys) && copy.hops == old(copy.hops) && copy.vals == old(copy.vals)
      ensures done ==> copy.contents == contents
      ensures Grown(family, kind, copy.size, copy.Home())
      ensures Spread(family, kind, contents.Keys, copy.size) ==> done && HomeCells(copy.keys[..], copy.Home())
      ensures !done ==> Jammed(family, kind, contents.Keys, copy.size)
    {
      hide Ok, Same, HomeOf, Unique, Compatible, HashKey, Zeros, Spread, HomeCells, OwnBins, Grown, JamIn;
      if copy.range > 16 && kind.Default? { copy.SwitchHash(); }
      copy.rehashing := true;
      assert copy.Valid();
      copy.EmptyAtHome();
      copy.GrowsRight();
      GrownOwnBins(family, kind, copy.size, copy.Home(), contents.Keys);
      done := Rehash(copy);
    }

    /** A table whose hash function was chosen by its hop range hashes as a grown table does. */
    lemma GrowsRight()
      requires size > 0 && range == PickRange(size, 0) && mixed == (kind.Default? && range > 16)
      ensures Grown(family, kind, size, Home())
    {
    }

    /** In an empty table every key is at home. */
    lemma EmptyAtHome()
      requires Valid() && contents == map[]
      ensures HomeCells(keys[..], Home())
    {
      AllZero(View(), Home(), contents);
    }

    /** A table of the same kind with storage of its own. */
    ghost predicate Separate(copy: Table)
      reads this, copy
    {
      && copy != this
      && copy.family == family && copy.kind == kind && copy.valued == valued
      && copy.keys != keys && copy.keys != hops && copy.hops != keys && copy.hops != hops && copy.vals != vals
    }

    /** Take over the storage of `copy`. */
    method Adopt(copy: Table)
      requires Valid() && copy.Valid() && copy != this && copy.contents == contents
      requires copy.family == family && copy.kind == kind && copy.valued == valued
      modifies this`mixed, this`size, this`range, this`threshold, this`keys, this`hops, this`vals, this`resized
      ensures Valid() && resized && size == copy.size && keys == copy.keys && hops == copy.hops && vals == copy.vals
      ensures mixed == copy.mixed && range == copy.range
    {
      hide Valid, Ok, Same, HomeOf, HashKey, Unique, Compatible, Zeros, IsPow2;
      CountFacts();
      mixed, size, range, threshold := copy.mixed, copy.size, copy.range, copy.threshold;
      keys, hops, vals := copy.keys, copy.hops, copy.vals;
      resized := true;
      SameStorage(copy);
    }

    lemma CountFacts()
      requires Valid()
      ensures count == |contents| && prevSize > 0
    {
    }

    /** A table with the storage and the map of a valid one is valid. */
    lemma SameStorage(copy: Table)
      requires copy.Valid() && contents == copy.contents && count == |contents| && prevSize > 0
      requires family == copy.family && kind == copy.kind && valued == copy.valued && mixed == copy.mixed
      requires size == copy.size && range == copy.range && keys == copy.keys && hops == copy.hops && vals == copy.vals
      requires threshold == copy.threshold
      ensures Valid()
    {
      hide Ok, Same, HomeOf, HashKey, Unique, Compatible, Zeros, IsPow2;
      assert View() == copy.View() && Home() == copy.Home();
    }

    /** An empty table may change its hash function freely. */
    method SwitchHash()
      requires Valid() && contents == map[]
      modifies this`mixed
      ensures Valid() && mixed
    {
      hide Same, HomeOf, Compatible;
      ghost var c := View();
      AllZero(c, Home(), contents);
      mixed := true;
      HomesOf(family, kind, mixed, c);
      ZeroIsOk(c, Home());
    }

    /** Insert the pair in cell `i - 1`, if there is one, into `copy`. */
    method CopyCell(copy: Table, i: nat) returns (ok: bool)
      requires Valid() && copy.Valid() && copy.rehashing && Separate(copy)
      requires 0 < i <= keys.Length && Copied(View(), contents, i, copy.contents)
      modifies copy`count, copy`contents, copy.keys, copy.hops, copy.vals
      ensures copy.Valid()
      ensures ok ==> Copied(View(), contents, i - 1, copy.contents)
      ensures copy.Home() == old(copy.Home())
      ensures OwnBins(copy.Home(), contents.Keys) && HomeCells(old(copy.keys[..]), copy.Home()) ==>
        ok && HomeCells(copy.keys[..], copy.Home())
      ensures !ok ==> JamIn(copy.Home(), contents.Keys, copy.size, copy.range)
    {
      hide Ok, Same, HomeOf, HashKey, Compatible, Unique, Absent, Copied, Zeros, HomeCells, OwnBins, Crowded, JamIn;
      ghost var c, h, m, before := View(), Home(), contents, copy.contents;
      ok := true;
      if keys[i - 1] != 0 {
        NextKey(copy, i);
        ok := copy.TryInsert(keys[i - 1], if valued then vals[i - 1] else 1);
        CellKey(c, h, m, i - 1);
      }
      if ok { CopiedStep(c, h, m, i, before, copy.contents); }
    }

    /** What the key to be copied next finds in `copy`. */
    lemma NextKey(copy: Table, i: nat)
      requires Valid() && copy.Valid() && copy.family == family && copy.kind == kind
      requires 0 < i <= keys.Length && keys[i - 1] != 0 && Copied(View(), contents, i, copy.contents)
      ensures Absent(family, kind, copy.contents, keys[i - 1])
      ensures OwnBins(copy.Home(), contents.Keys) && HomeCells(copy.keys[..], copy.Home()) ==>
        var b := copy.HomeBin(keys[i - 1]);
        && b < copy.keys.Length && copy.keys[b] == 0
        && HomeCells(copy.keys[..][b := keys[i - 1]], copy.Home())
      ensures Crowded(copy.keys[..], copy.HomeBin(keys[i - 1]), copy.range) ==>
        JamIn(copy.Home(), contents.Keys, copy.size, copy.range)
    {
      hide Ok, Same, HomeOf, HashKey, Compatible, Unique, Absent, Copied, Zeros, HomeCells, OwnBins, Crowded, JamIn;
      var k := keys[i - 1];
      CellKey(View(), Home(), contents, i - 1);
      NotYetCopied(View(), Home(), contents, i, copy.contents);
      UniqueAbsent(family, kind, contents, copy.contents, k);
      if OwnBins(copy.Home(), contents.Keys) && HomeCells(copy.keys[..], copy.Home()) {
        BinFree(copy, i);
        HomeCellsAdd(copy.keys[..], copy.Home(), k);
      }
      if Crowded(copy.keys[..], copy.HomeBin(k), copy.range) { JamHere(copy, k); }
    }

    lemma JamHere(copy: Table, k: nat)
      requires copy.Valid() && copy.contents.Keys <= contents.Keys && k in contents && k !in copy.contents
      requires Crowded(copy.keys[..], copy.HomeBin(k), copy.range)
      ensures JamIn(copy.Home(), contents.Keys, copy.size, copy.range)
    {
      hide Ok, HomeOf, Compatible, Unique, Zeros, Crowded;
      assert JamAt(copy.Home(), contents.Keys, copy.View(), copy.contents, k);
    }

    /** The home bin in `copy` of a key not copied yet is empty. */
    lemma BinFree(copy: Table, i: nat)
      requires Valid() && copy.Valid() && OwnBins(copy.Home(), contents.Keys) && HomeCells(copy.keys[..], copy.Home())
      requires 0 < i <= keys.Length && keys[i - 1] != 0 && Copied(View(), contents, i, copy.contents)
      ensures copy.HomeBin(keys[i - 1]) < copy.keys.Length && copy.keys[copy.HomeBin(keys[i - 1])] == 0
    {
      hide Ok, Same, HomeOf, HashKey, Compatible, Unique, Absent, Copied, Zeros;
      var b := copy.HomeBin(keys[i - 1]);
      SizeFacts(copy.View(), copy.Home(), copy.contents);
      CellKey(View(), Home(), contents, i - 1);
      NotYetCopied(View(), Home(), contents, i, copy.contents);
      if copy.keys[b] != 0 { CellKey(copy.View(), copy.Home(), copy.contents, b); }
    }

    /** Insert every pair of this table, highest cell first, into `copy`. */
    method Rehash(copy: Table) returns (done: bool)
      requires Valid() && copy.Valid() && copy.contents == map[] && copy.rehashing
      requires Separate(copy) && copy.size > 0
      modifies copy`count, copy`contents, copy.keys, copy.hops, copy.vals
      ensures copy.Valid()
      ensures done ==> copy.contents == contents
      ensures copy.Home() == old(copy.Home())
      ensures OwnBins(copy.Home(), contents.Keys) && HomeCells(old(copy.keys[..]), copy.Home()) ==>
        done && HomeCells(copy.keys[..], copy.Home())
      ensures !done ==> JamIn(copy.Home(), contents.Keys, copy.size, copy.range)
    {
      hide Valid, View, Copied, Repr, HomeOf, HomeCells, OwnBins, JamIn;
      RehashStart();
      var i: nat := keys.Length;
      while i > 0
        invariant i <= keys.Length
        invariant Valid() && copy.Valid()
        invariant Copied(View(), contents, i, copy.contents)
        invariant copy.Home() == old(copy.Home())
        invariant OwnBins(copy.Home(), contents.Keys) && HomeCells(old(copy.keys[..]), copy.Home()) ==>
          HomeCells(copy.keys[..], copy.Home())
      {
        var ok := CopyCell(copy, i);
        if !ok { return false; }
        i := i - 1;
      }
      RehashEnd(copy);
      done := true;
    }

    lemma RehashStart()
      requires Valid()
      ensures Copied(View(), contents, keys.Length, map[])
    {
      NoneCopied(View(), contents);
    }

    lemma RehashEnd(copy: Table)
      requires Valid() && Copied(View(), contents, 0, copy.contents)
      ensures copy.contents == contents
    {
      AllCopied(View(), Home(), contents, copy.contents);
    }

    /** Add a pair whose key is absent, growing the table as often as needed and as `budget`
        allows. A table being filled by a rehash does not grow: it reports that there is no room. */
    method Insert(key: nat, val: int, budget: nat) returns (r: Outcome, left: nat)
      requires Valid() && key != 0 && Absent(family, kind, contents, key)
      modifies this, keys, hops, vals
      ensures Valid() && rehashing == old(rehashing)
      ensures !r.Updated?
      ensures r.Inserted? ==> contents == old(contents)[key := if valued then val else 0] && r.count == |contents|
      ensures !r.Inserted? ==> contents == old(contents)
      ensures r.NoRoom? ==> rehashing
      ensures r.Exhausted? ==> !rehashing && left == 0
      ensures left <= budget && (r.Inserted? ==> size == Doubled(old(size), budget - left))
      ensures old(keys[..])[old(HomeBin(key))] == 0 ==> r.Inserted? && left == budget
      ensures old(rehashing || count < threshold) && !Crowded(old(keys[..]), old(HomeBin(key)), old(range)) ==>
        r.Inserted? && left == budget
      ensures !rehashing ==> Promise(family, kind, old(contents).Keys + {key}, old(size), budget, left, r.Inserted?)
      ensures !rehashing ==> Tried(family, kind, old(contents).Keys + {key}, old(size), budget, left, r.Inserted?)
      decreases budget, 1
    {
      hide Ok, Same, HomeOf, HashKey, Compatible, Unique, Absent, Zeros, Spread, Crowded, Doubled, Promise, HomeCells, Grown, Tried;
      PromiseKept(family, kind, contents.Keys + {key}, size, budget);
      NoneTried(family, kind, contents.Keys + {key}, size, budget);
      DoubledZero(size);
      var ok := TryInsert(key, val);
      if ok { return Inserted(count), budget; }
      if rehashing { return NoRoom, budget; }
      r, left := GrowAndInsert(key, val, budget);
    }

    /** The rest of an insertion that found no room: grow the table and start again. */
    method GrowAndInsert(key: nat, val: int, budget: nat) returns (r: Outcome, left: nat)
      requires Valid() && !rehashing && key != 0 && Absent(family, kind, contents, key)
      modifies this, keys, hops, vals
      ensures Valid() && !rehashing && (r.Inserted? || r.Exhausted?)
      ensures r.Inserted? ==> contents == old(contents)[key := if valued then val else 0] && r.count == |contents|
      ensures r.Exhausted? ==> contents == old(contents) && left == 0
      ensures left <= budget && (r.Inserted? ==> size == Doubled(old(size), budget - left))
      ensures Promise(family, kind, old(contents).Keys + {key}, old(size), budget, left, r.Inserted?)
      ensures Tried(family, kind, old(contents).Keys + {key}, old(size), budget, left, r.Inserted?)
      decreases budget, 0
    {
      hide Valid, HomeOf, HashKey, Absent, Spread, Crowded, Doubled, Promise, HomeCells, Grown, Tried, Jammed, Refused, PickRange;
      ghost var ks, size0 := contents.Keys, size;
      var grown;
      grown, left := ResizeUp(budget);
      PromiseFor(family, kind, ks, ks + {key}, size0, budget, left, grown);
      TriedFor(family, kind, ks, ks + {key}, size0, budget, left, grown);
      if !grown { return Exhausted, left; }
      ghost var left1 := left;
      AbsentKey(key);
      if Spread(family, kind, ks + {key}, size) {
        SpreadPart(family, kind, ks, ks + {key}, size);
        OwnBinFree(key);
      }
      if count >= threshold || Crowded(keys[..], HomeBin(key), range) { RefusedHere(key); }
      r, left := Insert(key, val, left);
      PromiseOn(family, kind, ks + {key}, size0, budget, left1, left, r.Inserted?);
      TriedOn(family, kind, ks + {key}, size0, budget, left1, left, r.Inserted?);
      DoubledMore(size0, budget - left1, left1 - left);
    }

    lemma AbsentKey(key: nat)
      requires Valid() && Absent(family, kind, contents, key)
      ensures key !in contents && size > 0
    {
    }

    /** What keeps a key out of a table just grown. */
    lemma RefusedHere(key: nat)
      requires Valid() && key !in contents && Grown(family, kind, size, Home()) && range == PickRange(size, 0)
      requires count >= threshold || Crowded(keys[..], HomeBin(key), range)
      ensures Refused(family, kind, contents.Keys + {key}, size)
    {
      hide Ok, HomeOf, Compatible, Unique, Zeros, Crowded, PickRange, Grown;
      if count >= threshold {
        assert |contents.Keys + {key}| == count + 1;
      } else {
        assert JamAt(Home(), contents.Keys + {key}, View(), contents, key);
      }
    }

    lemma DoubledZero(size: nat)
      ensures Doubled(size, 0) == size
    {
    }

    /** In a table just grown, with every key at home, a key with a home bin of its own finds it empty. */
    lemma OwnBinFree(key: nat)
      requires Valid() && HomeCells(keys[..], Home()) && key != 0 && key !in contents
      requires Spread(family, kind, contents.Keys + {key}, size) && Grown(family, kind, size, Home())
      ensures HomeBin(key) < keys.Length && keys[HomeBin(key)] == 0
    {
      hide Ok, Same, HomeOf, HashKey, Compatible, Unique, Absent, Zeros, GrownHome;
      SizeFacts(View(), Home(), contents);
      var b := HomeBin(key);
      if keys[b] != 0 { CellKey(View(), Home(), contents, b); }
    }

    /** Update the value of a key that is present, or insert it. */
    method Put(key: nat, val: int, budget: nat) returns (r: Outcome, left: nat)
      requires Valid() && key != 0
      modifies this, keys, hops, vals
      ensures Valid() && rehashing == old(rehashing)
      ensures r.Updated? <==> !Absent(family, kind, old(contents), key)
      ensures r.Updated? ==> forall k :: k in old(contents) && Same(family, kind, k, key) ==>
        contents == old(contents)[k := if valued then val else 0]
      ensures r.Inserted? ==> contents == old(contents)[key := if valued then val else 0]
      ensures r.NoRoom? || r.Exhausted? ==> contents == old(contents)
      ensures (r.NoRoom? ==> rehashing) && (r.Exhausted? ==> left == 0)
      ensures r.Updated? || old(keys[..])[old(HomeBin(key))] != 0 || r.Inserted?
      ensures r.Updated? || old(!rehashing && count >= threshold) || Crowded(old(keys[..]), old(HomeBin(key)), old(range)) || r.Inserted?
      ensures !rehashing && !r.Updated? ==> Promise(family, kind, old(contents).Keys + {key}, old(size), budget, left, r.Inserted?)
      ensures !rehashing && !r.Updated? ==> Tried(family, kind, old(contents).Keys + {key}, old(size), budget, left, r.Inserted?)
    {
      hide Ok, Same, HomeOf, HashKey, Compatible, Unique, Absent, Promise, Tried, Crowded, Doubled, Zeros;
      var at := Find(key);
      if at < 0 {
        r, left := Insert(key, val, budget);
        return;
      }
      UniqueDelete(family, kind, contents, keys[at], key);
      StoreAt(at, val);
      r, left := Updated, budget;
    }

    /** `set_val`, which does nothing in a set. */
    method StoreAt(at: nat, val: int)
      requires Valid() && at < keys.Length && keys[at] in contents
      modifies vals, this`contents
      ensures Valid()
      ensures contents == old(contents)[keys[at] := if valued then val else 0]
    {
      hide Ok, Same, HomeOf, Compatible, Unique;
      ghost var c, h, m, v := View(), Home(), contents, if valued then val else 0;
      NonzeroKey(c, h, m, keys[at]);
      CellKey(c, h, m, at);
      StoreKeeps(c, h, m, at, v);
      UniquePart(family, kind, m, m[keys[at] := v]);
      if valued { vals[at] := val; }
      contents := contents[keys[at] := v];
      assert View().vals == c.vals[at := v];
    }

    /** Empty the table for reuse, halving it if it has stayed too large. */
    method Reset()
      requires Valid()
      modifies this, keys, hops, vals
      ensures Valid() && contents == map[] && count == 0
      ensures fresh(keys) || keys == old(keys)
      ensures size == old(if size > 2 * prevSize || (size == prevSize && !resized && size > 8) then size / 2 else size)
      ensures !resized && prevSize == old(size) && (kind.Default? ==> !mixed)
    {
      hide Ok, IsPow2;
      SizeFacts(View(), Home(), contents);
      if count != 0 { Zero(); }
      NoPairs(contents);
      var was := size;
      if size > 2 * prevSize || (size == prevSize && !resized && size > 8) {
        HalvePow2(size);
        Relayout(size / 2);
      }
      prevSize, resized := was, false;
      if kind.Default? { RestoreHash(); }
    }

    /** Zero the storage. */
    method Zero()
      requires Valid()
      modifies this`count, this`contents, keys, hops, vals
      ensures Valid() && contents == map[]
    {
      hide Same, HomeOf, Compatible, IsPow2, Ok;
      ShapeOf(View(), Home(), contents);
      forall i | 0 <= i < keys.Length { keys[i] := 0; }
      forall i | 0 <= i < hops.Length { hops[i] := 0; }
      forall i | 0 <= i < vals.Length { vals[i] := 0; }
      count, contents := 0, map[];
      ZeroIsOk(View(), Home());
    }

    /** An empty table may return to its fast hash function. */
    method RestoreHash()
      requires Valid() && contents == map[]
      modifies this`mixed
      ensures Valid() && !mixed
    {
      hide Same, HomeOf, Compatible;
      ghost var c := View();
      AllZero(c, Home(), contents);
      mixed := false;
      HomesOf(family, kind, mixed, c);
      ZeroIsOk(c, Home());
    }

    /** An array view of `n` cells of the storage. */
    method Carve(storage: seq<int>, from: nat, n: nat) returns (a: array<nat>)
      requires from + n <= |storage| && forall i :: from <= i < from + n ==> storage[i] >= 0
      ensures fresh(a) && a.Length == n && forall i :: 0 <= i < n ==> a[i] == storage[from + i]
    {
      a := new nat[n](i requires 0 <= i < n => storage[from + i]);
    }

    /** The storage already owned, read as keys, hop masks and values of a table with `newSize` bins. */
    method CarveAll(newSize: nat, n: nat) returns (ks: array<nat>, hs: array<nat>, vs: array<int>)
      requires Valid() && contents == map[] && size == 2 * newSize && n == newSize + PickRange(newSize, 0) - 1
      ensures fresh(ks) && fresh(hs) && fresh(vs) && ks != hs
      ensures ks.Length == n && hs.Length == newSize && vs.Length == if valued then n else 0
      ensures forall i :: 0 <= i < n ==> ks[i] == 0
      ensures forall i :: 0 <= i < newSize ==> hs[i] == 0
      ensures forall i :: 0 <= i < vs.Length ==> vs[i] == 0
    {
      hide Same, HomeOf, Compatible, IsPow2, Unique, Ok;
      AllZero(View(), Home(), contents);
      SizeFacts(View(), Home(), contents);
      var storage: seq<int> := AsInts(keys[..]) + AsInts(hops[..]) + vals[..];
      assert n + newSize + (if valued then n else 0) <= |storage|;
      assert forall i :: 0 <= i < |storage| ==> storage[i] == 0;
      ks := Carve(storage, 0, n);
      hs := Carve(storage, n, newSize);
      vs := new int[if valued then n else 0](i requires 0 <= i < n && valued => storage[n + newSize + i]);
    }

    /** Lay out the storage already owned for fewer bins. The old keys, hop masks and values are
        read back as the new ones without being cleared, which is sound because all are zero. */
    method Relayout(newSize: nat)
      requires Valid() && contents == map[] && IsPow2(newSize) && size == 2 * newSize
      modifies this`size, this`range, this`threshold, this`keys, this`hops, this`vals
      ensures Valid() && size == newSize && range == PickRange(newSize, 0)
      ensures fresh(keys) && fresh(hops) && fresh(vals)
    {
      hide Same, HomeOf, Compatible, IsPow2, Unique, Ok;
      var n := newSize + PickRange(newSize, 0) - 1;
      var ks, hs, vs := CarveAll(newSize, n);
      keys, hops, vals := ks, hs, vs;
      size, range, threshold := newSize, PickRange(newSize, 0), n * 13 / 16;
      HomesOf(family, kind, mixed, View());
      ZeroIsOk(View(), Home());
    }
  }
}
