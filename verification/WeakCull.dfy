/**
 * Culling the chains of one weak hash table.  Entries are linked from `index[bucket]` through
 * `next`, with 0 ending a chain.  The liveness test and the pointer fixing are parameters, as in
 * the source; the collector proper supplies them.
 */
module WeakCull {
  import opened HeapWords

  // The list of culled cells.

  /** A culled cell's index and bucket: packed in one fixnum if both fit in 14 bits. */
  datatype CulledCell = Small(bits: nat) | Large(index: nat, bucket: nat)

  function PackCell(index: nat, bucket: nat): (c: CulledCell) {
    if index < 0x4000 && bucket < 0x4000 then Small(index * 0x4000 + bucket) else Large(index, bucket)
  }

  function CellIndex(c: CulledCell): (index: nat) {
    match c case Small(bits) => bits / 0x4000 case Large(index, _) => index
  }

  function CellBucket(c: CulledCell): (bucket: nat) {
    match c case Small(bits) => bits % 0x4000 case Large(_, bucket) => bucket
  }

  lemma CellRoundTrip(index: nat, bucket: nat)
    ensures CellIndex(PackCell(index, bucket)) == index && CellBucket(PackCell(index, bucket)) == bucket
    ensures PackCell(index, bucket).Small? <==> index < 16384 && bucket < 16384
  {
    if index < 0x4000 && bucket < 0x4000 {
      assert (index * 0x4000 + bucket) / 0x4000 == index;
      assert (index * 0x4000 + bucket) % 0x4000 == bucket;
    }
  }

  // Chains.

  /** `chain` lists the cells reached from `first` through `next`. */
  predicate Linked(next: seq<nat>, first: nat, chain: seq<nat>)
    decreases |chain|
  {
    if chain == [] then first == 0
    else first == chain[0] && 0 < first < |next| && Linked(next, next[first], chain[1..])
  }

  /** Following links is deterministic, so a chain is determined by where it starts. */
  lemma {:induction false} ChainUnique(next: seq<nat>, first: nat, c: seq<nat>, d: seq<nat>)
    requires Linked(next, first, c) && Linked(next, first, d)
    ensures c == d
    decreases |c|
  {
    if c != [] { ChainUnique(next, next[first], c[1..], d[1..]); }
  }

  lemma {:induction false} ChainTail(next: seq<nat>, first: nat, chain: seq<nat>, n: nat)
    requires Linked(next, first, chain) && n < |chain|
    ensures Linked(next, chain[n], chain[n..])
    decreases n
  {
    if n > 0 {
      ChainTail(next, next[first], chain[1..], n - 1);
      assert chain[1..][n - 1..] == chain[n..];
    }
  }

  lemma FirstInside(next: seq<nat>, first: nat, chain: seq<nat>)
    requires Linked(next, first, chain) && chain != []
    ensures 0 < first < |next|
  {
  }

  /** A chain that ends visits no cell twice. */
  lemma ChainDistinct(next: seq<nat>, first: nat, chain: seq<nat>, i: nat, j: nat)
    requires Linked(next, first, chain) && i < j < |chain|
    ensures chain[i] != chain[j]
  {
    if chain[i] == chain[j] {
      ChainTail(next, first, chain, i);
      ChainTail(next, first, chain, j);
      ChainUnique(next, chain[i], chain[i..], chain[j..]);
    }
  }

  /** The chains of all buckets, no cell in two of them. */
  predicate Chains(next: seq<nat>, index: seq<nat>, chains: seq<seq<nat>>) {
    && |chains| == |index|
    && (forall b | 0 <= b < |index| :: Linked(next, index[b], chains[b]))
    && (forall b, c, i | 0 <= b < |index| && 0 <= c < |index| && i in chains[b] && i in chains[c] :: b == c)
  }

  function CellsOf(chain: seq<nat>): (cells: set<nat>) {
    set c | c in chain
  }

  /** The cells of the first `n` chains. */
  function CellsUpTo(chains: seq<seq<nat>>, n: nat): (cells: set<nat>)
    requires n <= |chains|
    ensures forall c :: c in cells <==> exists b :: 0 <= b < n && c in chains[b]
  {
    set b, c | 0 <= b < n && c in chains[b] :: c
  }

  lemma ChainStep(next: seq<nat>, i: nat, chain: seq<nat>, n: nat)
    requires n <= |chain| && Linked(next, i, chain[n..])
    ensures i == 0 <==> n == |chain|
    ensures n < |chain| ==> i == chain[n] && 0 < i < |next| && Linked(next, next[i], chain[n + 1..])
  {
    if n < |chain| { assert chain[n..][1..] == chain[n + 1..]; }
  }

  /** The cell reached after `n` links is none of those passed. */
  lemma CellFresh(next: seq<nat>, first: nat, chain: seq<nat>, n: nat)
    requires Linked(next, first, chain) && n < |chain|
    ensures chain[n] !in CellsOf(chain[..n])
  {
    forall k: nat | k < n ensures chain[k] != chain[n] { ChainDistinct(next, first, chain, k, n); }
  }

  lemma CellsGrow(done: set<nat>, chain: seq<nat>, n: nat)
    requires n < |chain|
    ensures done + CellsOf(chain[..n]) + {chain[n]} == done + CellsOf(chain[..n + 1])
  {
    assert chain[..n + 1] == chain[..n] + [chain[n]];
  }

  // What culling does to one entry.

  datatype Rules = Rules(alive: Pair -> bool, fix: Pair -> Pair, stable: Word -> bool)

  predicate Dies(rules: Rules, p: Pair) {
    p != EmptyPair && !rules.alive(p)
  }

  /** What the source takes for granted: a dead entry has both its parts, a live one keeps one. */
  predicate Sane(rules: Rules, pairs: seq<Pair>) {
    forall i | 0 <= i < |pairs| && pairs[i] != EmptyPair ::
      if rules.alive(pairs[i]) then rules.fix(pairs[i]) != EmptyPair
      else pairs[i].key != Empty && pairs[i].value != Empty
  }

  function Culled(rules: Rules, p: Pair): (q: Pair) {
    if p == EmptyPair || Dies(rules, p) then EmptyPair else rules.fix(p)
  }

  /** Whether the table hashes this key by address; `magic` are the marks of the hash vector. */
  predicate ByAddress(rules: Rules, eql: bool, magic: seq<bool>, i: nat, key: Word) {
    if |magic| == 0 then !eql || !rules.stable(key) else i < |magic| && magic[i]
  }

  /** A surviving entry whose address-hashed key has moved. */
  predicate Moves(rules: Rules, eql: bool, magic: seq<bool>, i: nat, p: Pair) {
    && p != EmptyPair && rules.alive(p)
    && rules.fix(p).key != p.key && ByAddress(rules, eql, magic, i, rules.fix(p).key)
  }

  function Occupied(pairs: seq<Pair>): (n: nat) {
    if pairs == [] then 0
    else Occupied(pairs[..|pairs| - 1]) + if pairs[|pairs| - 1] == EmptyPair then 0 else 1
  }

  lemma {:induction false} OccupiedUpdate(pairs: seq<Pair>, i: nat, p: Pair)
    requires i < |pairs|
    ensures Occupied(pairs[i := p])
         == Occupied(pairs) - (if pairs[i] == EmptyPair then 0 else 1) + (if p == EmptyPair then 0 else 1)
  {
    var last := |pairs| - 1;
    if i < last {
      OccupiedUpdate(pairs[..last], i, p);
      assert pairs[i := p][..last] == pairs[..last][i := p];
    } else {
      assert pairs[i := p][..last] == pairs[..last];
    }
  }

  // What has been done once the cells `done` have been visited.

  /** The entries in `done` are culled and the others as they were. */
  predicate PairsDone(rules: Rules, was: seq<Pair>, now: seq<Pair>, done: set<nat>) {
    && |now| == |was|
    && forall i | 0 <= i < |was| :: now[i] == if i in done then Culled(rules, was[i]) else was[i]
  }

  predicate IsCulledCell(rules: Rules, was: seq<Pair>, done: set<nat>, i: nat) {
    i in done && i < |was| && Dies(rules, was[i])
  }

  /** `cells` names each entry of `done` that died once, with the bucket it was in. */
  ghost predicate CellsDone(rules: Rules, was: seq<Pair>, chains: seq<seq<nat>>, cells: seq<CulledCell>, done: set<nat>) {
    && (forall k | 0 <= k < |cells| ::
         && IsCulledCell(rules, was, done, CellIndex(cells[k]))
         && CellBucket(cells[k]) < |chains| && CellIndex(cells[k]) in chains[CellBucket(cells[k])])
    && (forall k, l | 0 <= k < l < |cells| :: CellIndex(cells[k]) != CellIndex(cells[l]))
    && (forall i: nat | IsCulledCell(rules, was, done, i) :: exists k :: 0 <= k < |cells| && CellIndex(cells[k]) == i)
  }

  predicate FlagDone(rules: Rules, eql: bool, magic: seq<bool>, was: seq<Pair>, done: set<nat>, flag: bool) {
    flag <==> SomeMoves(rules, eql, magic, was, done)
  }

  predicate SomeMoves(rules: Rules, eql: bool, magic: seq<bool>, was: seq<Pair>, done: set<nat>) {
    exists i :: i in done && i < |was| && Moves(rules, eql, magic, i, was[i])
  }

  lemma PairsStep(rules: Rules, was: seq<Pair>, now: seq<Pair>, done: set<nat>, i: nat)
    requires PairsDone(rules, was, now, done) && i < |was| && i !in done
    ensures now[i] == was[i] && PairsDone(rules, was, now[i := Culled(rules, was[i])], done + {i})
  {
  }

  lemma CellsSame(rules: Rules, was: seq<Pair>, chains: seq<seq<nat>>, cells: seq<CulledCell>, done: set<nat>, i: nat)
    requires CellsDone(rules, was, chains, cells, done) && i < |was| && !Dies(rules, was[i])
    ensures CellsDone(rules, was, chains, cells, done + {i})
  {
    forall j: nat ensures IsCulledCell(rules, was, done + {i}, j) <==> IsCulledCell(rules, was, done, j) {}
  }

  lemma CellsPush(rules: Rules, was: seq<Pair>, chains: seq<seq<nat>>, cells: seq<CulledCell>, done: set<nat>, i: nat, b: nat)
    requires CellsDone(rules, was, chains, cells, done) && i < |was| && i !in done && Dies(rules, was[i])
    requires b < |chains| && i in chains[b]
    ensures CellsDone(rules, was, chains, [PackCell(i, b)] + cells, done + {i})
  {
    CellRoundTrip(i, b);
    var more := [PackCell(i, b)] + cells;
    forall k | 0 <= k < |more|
      ensures IsCulledCell(rules, was, done + {i}, CellIndex(more[k]))
      ensures CellBucket(more[k]) < |chains| && CellIndex(more[k]) in chains[CellBucket(more[k])]
    {
      if k > 0 { assert more[k] == cells[k - 1]; }
    }
    forall k, l | 0 <= k < l < |more| ensures CellIndex(more[k]) != CellIndex(more[l]) {
      assert more[l] == cells[l - 1];
      if k > 0 { assert more[k] == cells[k - 1]; }
    }
    forall j: nat | IsCulledCell(rules, was, done + {i}, j)
      ensures exists k :: 0 <= k < |more| && CellIndex(more[k]) == j
    {
      if j == i {
        assert CellIndex(more[0]) == j;
      } else {
        assert IsCulledCell(rules, was, done, j);
        var k :| 0 <= k < |cells| && CellIndex(cells[k]) == j;
        assert more[k + 1] == cells[k];
      }
    }
  }

  lemma FlagStep(rules: Rules, eql: bool, magic: seq<bool>, was: seq<Pair>, done: set<nat>, flag: bool, i: nat)
    requires FlagDone(rules, eql, magic, was, done, flag) && i < |was|
    ensures FlagDone(rules, eql, magic, was, done + {i}, flag || Moves(rules, eql, magic, i, was[i]))
  {
    if flag {
      var j :| j in done && j < |was| && Moves(rules, eql, magic, j, was[j]);
      assert j in done + {i};
    } else if Moves(rules, eql, magic, i, was[i]) {
      assert i in done + {i};
    }
  }

  class WeakTable {
    const pairs: array<Pair>
    const next: array<nat>
    const index: array<nat>
    const magic: seq<bool>
    const eql: bool
    var count: int
    var smashed: seq<CulledCell>
    var rehash: bool

    constructor (pairs: array<Pair>, next: array<nat>, index: array<nat>, magic: seq<bool>, eql: bool, count: int, smashed: seq<CulledCell>, rehash: bool)
      ensures this.pairs == pairs && this.next == next && this.index == index
      ensures this.magic == magic && this.eql == eql
      ensures this.count == count && this.smashed == smashed && this.rehash == rehash
    {
      this.pairs, this.next, this.index := pairs, next, index;
      this.magic, this.eql := magic, eql;
      this.count, this.smashed, this.rehash := count, smashed, rehash;
    }

    /** The shape of the table; the arrays of links are never written here. */
    ghost predicate Shape(chains: seq<seq<nat>>)
      reads this, next, index
    {
      && pairs.Length == next.Length
      && Chains(next[..], index[..], chains)
    }

    /** Everything visiting the cells `done` was to do, from the old pairs and the old cells. */
    ghost predicate Progress(rules: Rules, chains: seq<seq<nat>>, was: seq<Pair>, cells: seq<CulledCell>, done: set<nat>, flag: bool)
      reads this, pairs
    {
      && |was| == pairs.Length && PairsDone(rules, was, pairs[..], done)
      && count == Occupied(pairs[..])
      && FlagDone(rules, eql, magic, was, done, flag)
      && |smashed| >= |cells| && smashed == smashed[..|smashed| - |cells|] + cells
      && CellsDone(rules, was, chains, smashed[..|smashed| - |cells|], done)
    }

    /** The body of the chain walk for one entry. */
    method CullEntry(rules: Rules, i: nat, bucket: nat, flag: bool, ghost chains: seq<seq<nat>>,
                     ghost was: seq<Pair>, ghost cells: seq<CulledCell>, ghost done: set<nat>)
      returns (rehash': bool)
      requires Progress(rules, chains, was, cells, done, flag) && Sane(rules, was)
      requires i < pairs.Length && i !in done && bucket < |chains| && i in chains[bucket]
      modifies this`count, this`smashed, pairs
      ensures Progress(rules, chains, was, cells, done + {i}, rehash')
    {
      hide PairsDone, CellsDone, FlagDone, Occupied, PackCell;
      rehash' := flag;
      ghost var now, added := pairs[..], smashed[..|smashed| - |cells|];
      PairsStep(rules, was, now, done, i);
      FlagStep(rules, eql, magic, was, done, flag, i);
      OccupiedUpdate(now, i, Culled(rules, was[i]));
      var p := pairs[i];
      if p == EmptyPair {
        assert now[i := Culled(rules, was[i])] == now;
        CellsSame(rules, was, chains, added, done, i);
      } else if !rules.alive(p) {
        CellsPush(rules, was, chains, added, done, i, bucket);
        assert count > 0 && p.key != Empty && p.value != Empty;
        pairs[i] := EmptyPair;
        count := count - 1;
        smashed := [PackCell(i, bucket)] + smashed;
        assert pairs[..] == now[i := EmptyPair];
        assert smashed[..|smashed| - |cells|] == [PackCell(i, bucket)] + added;
      } else {
        CellsSame(rules, was, chains, added, done, i);
        pairs[i] := rules.fix(p);
        assert pairs[..] == now[i := rules.fix(p)];
        if pairs[i].key != p.key &&
           (if |magic| == 0 then rehash' || !eql || !rules.stable(pairs[i].key)
            else i < |magic| && magic[i]) {
          rehash' := true;
        }
      }
    }

    /** Walks the chain of one bucket. */
    method CullBucket(rules: Rules, bucket: nat, flag: bool, ghost chains: seq<seq<nat>>,
                      ghost was: seq<Pair>, ghost cells: seq<CulledCell>, ghost done: set<nat>)
      returns (rehash': bool)
      requires Shape(chains) && Sane(rules, was) && bucket < index.Length
      requires pairs != next as object && pairs != index as object
      requires Progress(rules, chains, was, cells, done, flag)
      requires forall i | i in chains[bucket] :: i !in done
      modifies this`count, this`smashed, pairs
      ensures Progress(rules, chains, was, cells, done + CellsOf(chains[bucket]), rehash')
    {
      hide Progress, Sane, Linked, CellsOf;
      rehash' := flag;
      ghost var chain := chains[bucket];
      ghost var n: nat := 0;
      var i := index[bucket];
      ghost var links := next[..];
      assert chain[0..] == chain;
      NoCells(done, chain);
      while i != 0
        invariant n <= |chain| && Linked(links, i, chain[n..]) && next[..] == links
        invariant Progress(rules, chains, was, cells, done + CellsOf(chain[..n]), rehash')
        decreases |chain| - n
      {
        ChainStep(links, i, chain, n);
        CellFresh(links, index[bucket], chain, n);
        rehash' := CullEntry(rules, i, bucket, rehash', chains, was, cells, done + CellsOf(chain[..n]));
        CellsGrow(done, chain, n);
        i := next[i];
        n := n + 1;
      }
      ChainStep(links, i, chain, n);
      assert chain[..n] == chain;
    }

    /**
     * Culls every chain: an entry in a chain is emptied if it fails the liveness test and has
     * its pointers followed if not; the count is again the number of entries present; the list
     * of culled cells gains each emptied entry once, with its bucket; and the table is marked
     * for rehashing exactly when a surviving address-hashed key moved.
     */
    method CullWeakHashTable(rules: Rules, ghost chains: seq<seq<nat>>)
      requires Shape(chains) && Sane(rules, pairs[..]) && count == Occupied(pairs[..])
      requires pairs != next as object && pairs != index as object
      modifies this, pairs
      ensures PairsDone(rules, old(pairs[..]), pairs[..], CellsUpTo(chains, |chains|))
      ensures count == Occupied(pairs[..])
      ensures |smashed| >= |old(smashed)| && smashed == smashed[..|smashed| - |old(smashed)|] + old(smashed)
      ensures CellsDone(rules, old(pairs[..]), chains, smashed[..|smashed| - |old(smashed)|], CellsUpTo(chains, |chains|))
      ensures rehash <==> old(rehash) || SomeMoves(rules, eql, magic, old(pairs[..]), CellsUpTo(chains, |chains|))
    {
      hide PairsDone, CellsDone, Occupied, Moves;
      ghost var was, cells := pairs[..], smashed;
      ghost var links, heads := next[..], index[..];
      NothingDone(rules, eql, magic, was, chains);
      assert smashed[..0] == [] && CellsUpTo(chains, 0) == {};
      var flag := false;
      for b := 0 to index.Length
        invariant Shape(chains) && next[..] == links && index[..] == heads && rehash == old(rehash)
        invariant Progress(rules, chains, was, cells, CellsUpTo(chains, b), flag)
      {
        BucketFresh(links, heads, chains, b);
        flag := CullBucket(rules, b, flag, chains, was, cells, CellsUpTo(chains, b));
        assert next[..] == links && index[..] == heads;
      }
      if flag {
        rehash := true;
      }
    }
  }

  lemma NoCells(done: set<nat>, chain: seq<nat>)
    ensures done + CellsOf(chain[..0]) == done
  {
  }

  lemma NothingDone(rules: Rules, eql: bool, magic: seq<bool>, was: seq<Pair>, chains: seq<seq<nat>>)
    ensures PairsDone(rules, was, was, {}) && CellsDone(rules, was, chains, [], {})
    ensures FlagDone(rules, eql, magic, was, {}, false)
  {
  }

  /** The cells of the next chain are new, and adding them gives those of one chain more. */
  lemma BucketFresh(next: seq<nat>, index: seq<nat>, chains: seq<seq<nat>>, b: nat)
    requires Chains(next, index, chains) && b < |index|
    ensures forall i | i in chains[b] :: i !in CellsUpTo(chains, b)
    ensures CellsUpTo(chains, b) + CellsOf(chains[b]) == CellsUpTo(chains, b + 1)
  {
    hide Linked;
  }
}
