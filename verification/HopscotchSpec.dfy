/** The representation invariant of a hopscotch table, and the four pure steps that
    every operation is made of: putting a key in a free cell, moving a key to a free
    cell of its neighbourhood, replacing a value, and removing a key. */
module HopscotchSpec {
  import opened Bits

  /** A snapshot of the storage. `keys` has `size + range - 1` cells: the
      neighbourhood of the last logical bin runs off the end without wrapping.
      A key of 0 marks an empty cell. */
  datatype Cells = Cells(size: nat, range: nat, keys: seq<nat>, hops: seq<nat>, vals: seq<int>)

  function Zeros(n: nat): (s: seq<int>)
    ensures |s| == n && forall i :: 0 <= i < n ==> s[i] == 0
  {
    seq(n, _ => 0)
  }

  predicate IsPow2(n: nat) {
    n == 1 || (n > 1 && n % 2 == 0 && IsPow2(n / 2))
  }

  lemma {:induction false} Pow2Allowed(j: nat)
    ensures IsPow2(Pow2(j))
  {
    if j > 0 {
      Pow2Allowed(j - 1);
      assert Pow2(j) / 2 == Pow2(j - 1);
    }
  }

  /** The sizes allowed are exactly the powers of two. */
  lemma {:induction false} SizesAllowed(n: nat)
    ensures IsPow2(n) <==> exists j: nat :: n == Pow2(j)
  {
    if j: nat :| n == Pow2(j) { Pow2Allowed(j); }
    if n == 1 {
      assert Pow2(0) == 1;
    } else if IsPow2(n) {
      SizesAllowed(n / 2);
      var i: nat :| n / 2 == Pow2(i);
      assert n == Pow2(i + 1);
    }
  }

  /** The home bin of each key: `hash(ht, key) & ht->mask`. */
  type HomeFn = nat -> nat

  ghost predicate Shape(c: Cells) {
    && IsPow2(c.size)
    && c.range in {8, 16, 32}
    && |c.keys| == |c.vals| == c.size + c.range - 1
    && |c.hops| == c.size
  }

  ghost predicate Homes(c: Cells, home: HomeFn) {
    forall k :: home(k) < c.size
  }

  /** Bin `b` claims physical cell `i`: bit `i - b` of its hop mask is set. */
  predicate Claims(hops: seq<nat>, b: nat, i: nat) {
    b < |hops| && b <= i && Bit(hops[b], i - b)
  }

  lemma BitClaims(hops: seq<nat>, b: nat, d: nat)
    requires b < |hops| && Bit(hops[b], d)
    ensures Claims(hops, b, b + d)
  {
  }

  /** Every occupied cell is claimed by its key's home bin. */
  ghost predicate Owned(c: Cells, home: HomeFn) {
    forall i :: 0 <= i < |c.keys| && c.keys[i] != 0 ==> Claims(c.hops, home(c.keys[i]), i)
  }

  /** Every claimed cell is in reach, occupied, and holds a key that belongs to the claiming bin. */
  ghost predicate Backed(c: Cells, home: HomeFn) {
    forall b: nat, i: nat {:trigger Claims(c.hops, b, i)} :: Claims(c.hops, b, i) ==>
      i < b + c.range && i < |c.keys| && c.keys[i] != 0 && home(c.keys[i]) == b
  }

  ghost predicate Distinct(c: Cells) {
    forall i, j :: 0 <= i < j < |c.keys| && c.keys[i] != 0 ==> c.keys[i] != c.keys[j]
  }

  /** Empty cells hold value 0: only then may an empty table's storage be laid out anew unzeroed. */
  ghost predicate ClearValues(c: Cells)
    requires Shape(c)
  {
    forall i :: 0 <= i < |c.keys| && c.keys[i] == 0 ==> c.vals[i] == 0
  }

  /** The cells hold exactly the pairs of `m`. */
  ghost predicate Denotes(c: Cells, m: map<nat, int>)
    requires Shape(c)
  {
    && (forall i :: 0 <= i < |c.keys| && c.keys[i] != 0 ==> c.keys[i] in m && m[c.keys[i]] == c.vals[i])
    && (forall k :: k in m ==> k != 0 && k in c.keys)
  }

  ghost predicate Ok(c: Cells, home: HomeFn, m: map<nat, int>) {
    && Shape(c)
    && Homes(c, home)
    && Owned(c, home)
    && Backed(c, home)
    && Distinct(c)
    && ClearValues(c)
    && Denotes(c, m)
  }

  /** The integrity check the source disables: an occupied cell is claimed by one bin only. */
  lemma OneOwner(c: Cells, home: HomeFn, m: map<nat, int>, b1: nat, b2: nat, i: nat)
    requires Ok(c, home, m)
    requires Claims(c.hops, b1, i) && Claims(c.hops, b2, i)
    ensures b1 == b2 && i < |c.keys| && c.keys[i] != 0
  {
  }

  function Put(c: Cells, home: HomeFn, i: nat, k: nat, v: int): Cells
    requires i < |c.keys| && i < |c.vals| && home(k) < |c.hops| && home(k) <= i
  {
    var b := home(k);
    c.(keys := c.keys[i := k], vals := c.vals[i := v], hops := c.hops[b := SetBit(c.hops[b], i - b)])
  }

  lemma SizeFacts(c: Cells, home: HomeFn, m: map<nat, int>)
    requires Ok(c, home, m)
    ensures IsPow2(c.size) && c.size > 0 && c.range >= 8 && |c.keys| == c.size + c.range - 1
  {
  }

  lemma ShapeOf(c: Cells, home: HomeFn, m: map<nat, int>)
    requires Ok(c, home, m)
    ensures Shape(c) && Homes(c, home)
  {
  }

  ghost predicate CanPut(c: Cells, home: HomeFn, i: nat, k: nat) {
    && Shape(c) && Homes(c, home) && k != 0
    && i < |c.keys| && c.keys[i] == 0 && home(k) <= i < home(k) + c.range
  }

  lemma PutClaims(c: Cells, home: HomeFn, i: nat, k: nat, v: int)
    requires CanPut(c, home, i, k)
    ensures forall q: nat, j: nat {:trigger Claims(Put(c, home, i, k, v).hops, q, j)} ::
      Claims(Put(c, home, i, k, v).hops, q, j) == ((q == home(k) && j == i) || Claims(c.hops, q, j))
  {
    hide SetBit, IsPow2;
    var b := home(k);
    forall q: nat, j: nat
      ensures Claims(Put(c, home, i, k, v).hops, q, j) == ((q == b && j == i) || Claims(c.hops, q, j))
    {
      if q == b <= j { SetBitAt(c.hops[b], i - b, j - b); }
    }
  }

  lemma PutOwned(c: Cells, home: HomeFn, i: nat, k: nat, v: int)
    requires CanPut(c, home, i, k) && Owned(c, home) && Backed(c, home)
    ensures Owned(Put(c, home, i, k, v), home) && Backed(Put(c, home, i, k, v), home)
  {
    hide Claims, SetBit, IsPow2;
    PutClaims(c, home, i, k, v);
  }

  lemma PutDenotes(c: Cells, home: HomeFn, m: map<nat, int>, i: nat, k: nat, v: int)
    requires CanPut(c, home, i, k) && Denotes(c, m) && Distinct(c) && k !in m
    ensures Denotes(Put(c, home, i, k, v), m[k := v]) && Distinct(Put(c, home, i, k, v))
  {
    hide Claims, SetBit, IsPow2;
    var c' := Put(c, home, i, k, v);
    assert c'.keys[i] == k;
    forall q | q in m ensures q in c'.keys {
      var j :| 0 <= j < |c.keys| && c.keys[j] == q;
      assert c'.keys[j] == q;
    }
  }

  lemma PutKeeps(c: Cells, home: HomeFn, m: map<nat, int>, i: nat, k: nat, v: int)
    requires Ok(c, home, m)
    requires k != 0 && k !in m
    requires i < |c.keys| && c.keys[i] == 0 && home(k) <= i < home(k) + c.range
    ensures Ok(Put(c, home, i, k, v), home, m[k := v])
  {
    hide Owned, Backed, Denotes, Distinct, SetBit, IsPow2;
    PutOwned(c, home, i, k, v);
    PutDenotes(c, home, m, i, k, v);
  }

  /** Move the key in cell `from`, which bin `b` claims, to the free cell `to`. */
  function Move(c: Cells, b: nat, from: nat, to: nat): Cells
    requires b < |c.hops| && b <= from < to < |c.keys| && |c.vals| == |c.keys|
  {
    c.(keys := c.keys[to := c.keys[from]][from := 0],
       vals := c.vals[to := c.vals[from]][from := 0],
       hops := c.hops[b := FlipBit(FlipBit(c.hops[b], to - b), from - b)])
  }

  ghost predicate CanMove(c: Cells, home: HomeFn, b: nat, from: nat, to: nat) {
    && Shape(c)
    && b < c.size && b <= from < to < b + c.range
    && Claims(c.hops, b, from) && c.keys[to] == 0
    && Backed(c, home)
  }

  lemma MoveClaims(c: Cells, home: HomeFn, b: nat, from: nat, to: nat)
    requires CanMove(c, home, b, from, to)
    ensures forall q: nat, j: nat {:trigger Claims(Move(c, b, from, to).hops, q, j)} ::
      Claims(Move(c, b, from, to).hops, q, j)
      == (if q == b && j == to then true else if q == b && j == from then false else Claims(c.hops, q, j))
  {
    assert !Claims(c.hops, b, to);
    forall q: nat, j: nat
      ensures Claims(Move(c, b, from, to).hops, q, j)
      == (if q == b && j == to then true else if q == b && j == from then false else Claims(c.hops, q, j))
    {
      if q == b <= j {
        FlipBitAt(c.hops[b], to - b, j - b);
        FlipBitAt(FlipBit(c.hops[b], to - b), from - b, j - b);
      }
    }
  }

  lemma MoveOwned(c: Cells, home: HomeFn, b: nat, from: nat, to: nat)
    requires CanMove(c, home, b, from, to) && Owned(c, home)
    ensures Owned(Move(c, b, from, to), home)
  {
    MoveClaims(c, home, b, from, to);
  }

  lemma MoveBacked(c: Cells, home: HomeFn, b: nat, from: nat, to: nat)
    requires CanMove(c, home, b, from, to) && Owned(c, home)
    ensures Backed(Move(c, b, from, to), home)
  {
    MoveClaims(c, home, b, from, to);
  }

  lemma MoveDenotes(c: Cells, m: map<nat, int>, b: nat, from: nat, to: nat)
    requires Shape(c) && b < c.size && b <= from < to < |c.keys| && c.keys[to] == 0
    requires Denotes(c, m) && Distinct(c)
    ensures Denotes(Move(c, b, from, to), m) && Distinct(Move(c, b, from, to))
  {
    var c' := Move(c, b, from, to);
    forall q | q in m ensures q in c'.keys {
      var j :| 0 <= j < |c.keys| && c.keys[j] == q;
      assert c'.keys[if j == from then to else j] == q;
    }
  }

  lemma MoveKeeps(c: Cells, home: HomeFn, m: map<nat, int>, b: nat, from: nat, to: nat)
    requires Ok(c, home, m)
    requires b < c.size && b <= from < to < b + c.range && Claims(c.hops, b, from) && c.keys[to] == 0
    ensures Ok(Move(c, b, from, to), home, m)
    ensures Move(c, b, from, to).keys[from] == 0
  {
    MoveOwned(c, home, b, from, to);
    MoveBacked(c, home, b, from, to);
    MoveDenotes(c, m, b, from, to);
  }

  lemma CellValue(c: Cells, home: HomeFn, m: map<nat, int>, i: nat, valued: bool)
    requires Ok(c, home, m) && i < |c.keys| && (!valued ==> c.vals == Zeros(|c.keys|))
    ensures i < |c.vals| && (!valued ==> c.vals[i] == 0)
  {
  }

  /** The lowest of the low bits of a mask names a claimed cell left of the displacement. */
  lemma VictimClaimed(hops: seq<nat>, b: nat, disp: nat)
    requires b < |hops| && LowBits(hops[b], disp) != 0
    ensures LowestBit(LowBits(hops[b], disp)) < disp
    ensures Claims(hops, b, b + LowestBit(LowBits(hops[b], disp)))
  {
    var masked := LowBits(hops[b], disp);
    LowestBitIsLowest(masked);
    LowBitsAt(hops[b], disp, LowestBit(masked));
  }

  lemma NoVictim(hops: seq<nat>, b: nat, disp: nat)
    requires b < |hops| && LowBits(hops[b], disp) == 0
    ensures forall i: nat :: i < b + disp ==> !Claims(hops, b, i)
  {
    forall i: nat | b <= i < b + disp ensures !Claims(hops, b, i) {
      LowBitsAt(hops[b], disp, i - b);
      ZeroBits(i - b);
    }
  }

  function Remove(c: Cells, home: HomeFn, i: nat): Cells
    requires i < |c.keys| && i < |c.vals| && home(c.keys[i]) < |c.hops| && home(c.keys[i]) <= i
  {
    var b := home(c.keys[i]);
    c.(keys := c.keys[i := 0], vals := c.vals[i := 0], hops := c.hops[b := FlipBit(c.hops[b], i - b)])
  }

  lemma RemoveClaims(hops: seq<nat>, b: nat, i: nat, q: nat, j: nat)
    requires Claims(hops, b, i)
    ensures Claims(hops[b := FlipBit(hops[b], i - b)], q, j) == (!(q == b && j == i) && Claims(hops, q, j))
  {
    if q == b <= j { FlipBitAt(hops[b], i - b, j - b); }
  }

  lemma RemoveDenotes(c: Cells, m: map<nat, int>, i: nat)
    requires Shape(c) && Distinct(c) && Denotes(c, m) && i < |c.keys| && c.keys[i] != 0
    ensures Denotes(c.(keys := c.keys[i := 0], vals := c.vals[i := 0]), m - {c.keys[i]})
  {
    var keys := c.keys[i := 0];
    forall q | q in m && q != c.keys[i] ensures q in keys {
      var j :| 0 <= j < |c.keys| && c.keys[j] == q;
      assert keys[j] == q;
    }
  }

  /** What cells denote does not depend on the masks. */
  lemma SameDenoted(c: Cells, c': Cells, m: map<nat, int>)
    requires Shape(c) && Shape(c') && c'.keys == c.keys && c'.vals == c.vals && Denotes(c, m)
    ensures Denotes(c', m)
  {
  }

  lemma RemoveKeeps(c: Cells, home: HomeFn, m: map<nat, int>, i: nat)
    requires Ok(c, home, m)
    requires i < |c.keys| && c.keys[i] != 0
    ensures home(c.keys[i]) <= i
    ensures Ok(Remove(c, home, i), home, m - {c.keys[i]})
  {
    hide Denotes, Bit, FlipBit, IsPow2;
    var b := home(c.keys[i]);
    var c' := Remove(c, home, i);
    forall q: nat, j: nat ensures Claims(c'.hops, q, j) == (!(q == b && j == i) && Claims(c.hops, q, j)) {
      RemoveClaims(c.hops, b, i, q, j);
    }
    RemoveDenotes(c, m, i);
    SameDenoted(c.(keys := c'.keys, vals := c'.vals), c', m - {c.keys[i]});
  }

  lemma StoreKeeps(c: Cells, home: HomeFn, m: map<nat, int>, i: nat, v: int)
    requires Ok(c, home, m)
    requires i < |c.keys| && c.keys[i] != 0
    ensures Ok(c.(vals := c.vals[i := v]), home, m[c.keys[i] := v])
  {
  }

  /** A table holding nothing is zero throughout: keys, hop masks and values. */
  lemma AllZero(c: Cells, home: HomeFn, m: map<nat, int>)
    requires Ok(c, home, m) && m == map[]
    ensures forall i :: 0 <= i < |c.keys| ==> c.keys[i] == 0
    ensures forall i :: 0 <= i < |c.vals| ==> c.vals[i] == 0
    ensures forall i :: 0 <= i < |c.hops| ==> c.hops[i] == 0
    ensures Shape(c) && Homes(c, home)
  {
    forall b | 0 <= b < c.size ensures c.hops[b] == 0 {
      if c.hops[b] != 0 {
        LowestBitIsLowest(c.hops[b]);
        BitClaims(c.hops, b, LowestBit(c.hops[b]));
      }
    }
  }

  function AsInts(s: seq<nat>): (r: seq<int>)
    ensures |r| == |s| && forall i :: 0 <= i < |s| ==> r[i] == s[i]
  {
    seq(|s|, i requires 0 <= i < |s| => s[i])
  }

  lemma NoPairs(m: map<nat, int>)
    ensures |m| == 0 <==> m == map[]
  {
  }

  lemma HalvePow2(n: nat)
    requires IsPow2(n) && n > 1
    ensures IsPow2(n / 2) && n == 2 * (n / 2)
  {
  }

  lemma NonzeroKey(c: Cells, home: HomeFn, m: map<nat, int>, k: nat)
    requires Ok(c, home, m) && k in m
    ensures k != 0
  {
  }

  lemma ZeroIsOk(c: Cells, home: HomeFn)
    requires Shape(c) && Homes(c, home)
    requires forall i :: 0 <= i < |c.keys| ==> c.keys[i] == 0
    requires forall i :: 0 <= i < |c.vals| ==> c.vals[i] == 0
    requires forall i :: 0 <= i < |c.hops| ==> c.hops[i] == 0
    ensures Ok(c, home, map[])
  {
    forall b: nat, i: nat ensures !Claims(c.hops, b, i) {
      if b <= i { ZeroBits(i - b); }
    }
  }

  /** Every hop mask fits the `unsigned int` it is stored in. */
  lemma MaskWidth(c: Cells, home: HomeFn, m: map<nat, int>, b: nat)
    requires Ok(c, home, m) && b < c.size
    ensures c.hops[b] < Pow2(c.range)
  {
    forall d: nat | Bit(c.hops[b], d) ensures d < c.range { assert Claims(c.hops, b, b + d); }
    FitsInBits(c.hops[b], c.range);
  }

  ghost function Occupied(keys: seq<nat>): set<int> {
    set i | 0 <= i < |keys| && keys[i] != 0
  }

  lemma OccupiedRemove(keys: seq<nat>, i: nat)
    requires i < |keys| && keys[i] != 0
    ensures |Occupied(keys)| == |Occupied(keys[i := 0])| + 1
  {
    assert Occupied(keys) == Occupied(keys[i := 0]) + {i};
  }

  lemma WithoutKey(m: map<nat, int>, k: nat)
    requires k in m
    ensures |m - {k}| == |m| - 1
  {
    assert (m - {k}).Keys == m.Keys - {k};
    assert |(m - {k}).Keys| == |m.Keys| - 1;
  }

  /** The number of occupied cells is the number of pairs denoted. */
  lemma {:induction false} OccupiedCount(c: Cells, home: HomeFn, m: map<nat, int>)
    requires Ok(c, home, m)
    ensures |Occupied(c.keys)| == |m|
    decreases |m|
  {
    if m == map[] {
      AllZero(c, home, m);
      assert Occupied(c.keys) == {};
    } else {
      var k :| k in m;
      var i :| 0 <= i < |c.keys| && c.keys[i] == k;
      RemoveKeeps(c, home, m, i);
      WithoutKey(m, k);
      OccupiedCount(Remove(c, home, i), home, m - {k});
      OccupiedRemove(c.keys, i);
    }
  }

  lemma DoublePow2(n: nat)
    requires IsPow2(n)
    ensures IsPow2(n * 2)
  {
  }

  /** The pairs of the cells from `i` up, and no others, have been copied. */
  ghost predicate Copied(c: Cells, m: map<nat, int>, i: nat, copied: map<nat, int>) {
    && (forall j :: i <= j < |c.keys| && c.keys[j] != 0 ==> c.keys[j] in copied)
    && (forall k :: k in copied ==> k in m && copied[k] == m[k] && HeldFrom(c.keys, i, k))
  }

  ghost predicate HeldFrom(keys: seq<nat>, i: nat, k: nat) {
    exists j :: i <= j < |keys| && keys[j] == k
  }

  lemma NoneCopied(c: Cells, m: map<nat, int>)
    ensures Copied(c, m, |c.keys|, map[])
  {
  }

  lemma CopiedStep(c: Cells, home: HomeFn, m: map<nat, int>, i: nat, before: map<nat, int>, after: map<nat, int>)
    requires Ok(c, home, m) && 0 < i <= |c.keys| && Copied(c, m, i, before)
    requires after == if c.keys[i - 1] == 0 then before else before[c.keys[i - 1] := c.vals[i - 1]]
    ensures Copied(c, m, i - 1, after)
  {
    hide Ok, HeldFrom;
    var key := c.keys[i - 1];
    if key != 0 {
      CellKey(c, home, m, i - 1);
      HeldHere(c.keys, i - 1);
    }
    forall k | k in before ensures HeldFrom(c.keys, i - 1, k) { HeldEarlier(c.keys, i, k); }
  }

  lemma HeldHere(keys: seq<nat>, i: nat)
    requires i < |keys|
    ensures HeldFrom(keys, i, keys[i])
  {
  }

  lemma HeldEarlier(keys: seq<nat>, i: nat, k: nat)
    requires i > 0 && HeldFrom(keys, i, k)
    ensures HeldFrom(keys, i - 1, k)
  {
  }

  lemma NotYetCopied(c: Cells, home: HomeFn, m: map<nat, int>, i: nat, copied: map<nat, int>)
    requires Ok(c, home, m) && 0 < i <= |c.keys| && c.keys[i - 1] != 0
    requires Copied(c, m, i, copied)
    ensures c.keys[i - 1] !in copied && copied.Keys <= m.Keys
  {
  }

  lemma AllCopied(c: Cells, home: HomeFn, m: map<nat, int>, copied: map<nat, int>)
    requires Ok(c, home, m)
    requires Copied(c, m, 0, copied)
    ensures copied == m
  {
  }

  // ---- Searching a neighbourhood through its hop mask ----

  /** `bits` is `mask >> off`. */
  ghost predicate Shifted(bits: nat, mask: nat, off: nat) {
    forall j: nat :: Bit(bits, j) == Bit(mask, off + j)
  }

  /** No cell that bin `b` claims below `b + off` satisfies `hit`. */
  ghost predicate Missed(c: Cells, b: nat, off: nat, hit: nat -> bool) {
    forall i: nat {:trigger Claims(c.hops, b, i)} ::
      i < b + off && i < |c.keys| && Claims(c.hops, b, i) ==> !hit(c.keys[i])
  }

  lemma SearchStart(c: Cells, b: nat, hit: nat -> bool)
    requires b < |c.hops|
    ensures Shifted(c.hops[b], c.hops[b], 0) && Missed(c, b, 0, hit)
  {
  }

  lemma ClaimedCell(c: Cells, home: HomeFn, m: map<nat, int>, b: nat, bits: nat, off: nat)
    requires Ok(c, home, m) && b < c.size && Shifted(bits, c.hops[b], off) && bits % 2 == 1
    ensures b + off < |c.keys| && c.keys[b + off] != 0 && home(c.keys[b + off]) == b
  {
    assert Bit(bits, 0);
    BitClaims(c.hops, b, off);
  }

  lemma CellKey(c: Cells, home: HomeFn, m: map<nat, int>, i: nat)
    requires Ok(c, home, m) && i < |c.keys| && c.keys[i] != 0
    ensures |c.vals| == |c.keys| && c.keys[i] in m && m[c.keys[i]] == c.vals[i]
  {
  }

  lemma SetBitInWindow(bits: nat, w: nat) returns (j: nat)
    requires (w == 4 && bits % 16 != 0) || (w == 8 && bits % 256 != 0)
    ensures j < w && Bit(bits, j)
  {
    if w == 4 {
      ShiftFour(bits, 0);
      j := if Bit(bits, 0) then 0 else if Bit(bits, 1) then 1 else if Bit(bits, 2) then 2 else 3;
    } else {
      ShiftEight(bits, 0);
      j :| j < 8 && Bit(bits, j);
    }
  }

  /** A window of `w` cells in which one bit is set lies within the key array, even for the
      last bin: the hop range is a multiple of the window. */
  lemma WindowInBounds(c: Cells, home: HomeFn, m: map<nat, int>, b: nat, bits: nat, n: nat, w: nat)
    requires Ok(c, home, m) && b < c.size && Shifted(bits, c.hops[b], w * n)
    requires (w == 4 && bits % 16 != 0) || (w == 8 && bits % 256 != 0)
    ensures b + w * n + w <= |c.keys|
  {
    hide Bit, IsPow2;
    var j := SetBitInWindow(bits, w);
    assert Bit(c.hops[b], w * n + j);
    BitClaims(c.hops, b, w * n + j);
    if w == 4 { assert 4 * n < c.range; } else { assert 8 * n < c.range; }
  }

  function ShiftRight(bits: nat, w: nat): nat {
    if w == 1 then bits / 2 else if w == 4 then bits / 16 else bits / 256
  }

  lemma ShiftedStep(bits: nat, mask: nat, off: nat, w: nat)
    requires Shifted(bits, mask, off) && w in {1, 4, 8}
    ensures Shifted(ShiftRight(bits, w), mask, off + w)
  {
    forall j: nat ensures Bit(ShiftRight(bits, w), j) == Bit(mask, off + w + j) {
      if w == 1 { ShiftOne(bits, j); } else if w == 4 { ShiftFour(bits, j); } else { ShiftEight(bits, j); }
      assert Bit(bits, j + w) == Bit(mask, off + (j + w));
    }
  }

  lemma MissedStep(c: Cells, b: nat, bits: nat, off: nat, w: nat, hit: nat -> bool)
    requires b < |c.hops| && Shifted(bits, c.hops[b], off) && Missed(c, b, off, hit)
    requires forall j: nat :: j < w && Bit(bits, j) && b + off + j < |c.keys| ==> !hit(c.keys[b + off + j])
    ensures Missed(c, b, off + w, hit)
  {
    forall i: nat | i < b + off + w && i < |c.keys| && Claims(c.hops, b, i) ensures !hit(c.keys[i]) {
      if i >= b + off {
        var j := i - b - off;
        assert Bit(bits, j) && b + off + j == i;
      }
    }
  }

  /** One round of the search by single cells. */
  lemma StepOne(c: Cells, b: nat, bits: nat, off: nat, hit: nat -> bool)
    requires b < |c.hops| && Shifted(bits, c.hops[b], off) && Missed(c, b, off, hit)
    requires bits % 2 == 1 && b + off < |c.keys| ==> !hit(c.keys[b + off])
    ensures Shifted(bits / 2, c.hops[b], off + 1) && Missed(c, b, off + 1, hit)
  {
    ShiftedStep(bits, c.hops[b], off, 1);
    MissedStep(c, b, bits, off, 1, hit);
  }

  /** One round of the search by windows of `w` cells, skipped when none of the `w` bits is set. */
  lemma StepWindow(c: Cells, b: nat, bits: nat, off: nat, w: nat, hit: nat -> bool)
    requires b < |c.hops| && Shifted(bits, c.hops[b], off) && Missed(c, b, off, hit)
    requires w == 4 || w == 8
    requires bits % (if w == 4 then 16 else 256) != 0 ==>
      b + off + w <= |c.keys| && forall i :: b + off <= i < b + off + w ==> !hit(c.keys[i])
    ensures Shifted(ShiftRight(bits, w), c.hops[b], off + w) && Missed(c, b, off + w, hit)
  {
    ShiftedStep(bits, c.hops[b], off, w);
    if w == 4 { ShiftFour(bits, 0); } else { ShiftEight(bits, 0); }
    MissedStep(c, b, bits, off, w, hit);
  }

  /** When no bit is left, every key of the bin has been looked at. */
  lemma SearchedAll(c: Cells, home: HomeFn, m: map<nat, int>, b: nat, off: nat, hit: nat -> bool)
    requires Ok(c, home, m) && b < c.size && Shifted(0, c.hops[b], off) && Missed(c, b, off, hit)
    requires forall k :: k in m && hit(k) ==> home(k) == b
    ensures forall k :: k in m ==> !hit(k)
  {
    forall k | k in m ensures !hit(k) {
      if hit(k) {
        var i :| 0 <= i < |c.keys| && c.keys[i] == k;
        assert Claims(c.hops, b, i);
        ZeroBits(i - b - off);
      }
    }
  }
}
