/**
 * Coalescing with a hopscotch table.  Keys are addresses, hashed and compared by the contents of
 * the objects there, and those contents are in a heap that coalescing rewrites: the table stays
 * valid and gives the answers of the association list all the same.
 */
module CoalesceTable {
  import opened Options
  import opened CoalesceSpec
  import H = Hopscotch
  import S = HopscotchSpec

  /** Hashing and comparing addresses by what heap `h` holds there. */
  function FamilyOf(h: Heap, mix: Mixer): (f: H.Family) {
    H.Family((k: nat) => k, (k: nat) => k,
             (k: nat) => if k in h then HashOf(h[k], mix) else 0,
             (a: nat, b: nat) => EqualAt(h, a, b))
  }

  predicate EqualAt(h: Heap, a: nat, b: nat) {
    a == b || (a in h && b in h && SameContent(h[a], h[b]))
  }

  lemma EqualAtEquivalence(h: Heap, mix: Mixer, a: nat, b: nat, c: nat)
    ensures EqualAt(h, a, a)
    ensures EqualAt(h, a, b) ==> EqualAt(h, b, a)
    ensures EqualAt(h, a, b) && EqualAt(h, b, c) ==> EqualAt(h, a, c)
    ensures EqualAt(h, a, b) ==> FamilyOf(h, mix).content(a) == FamilyOf(h, mix).content(b)
  {
  }

  lemma FamilyCompatible(h: Heap, mix: Mixer)
    ensures H.Compatible(FamilyOf(h, mix))
  {
    hide HashOf, EqualAt;
    var f := FamilyOf(h, mix);
    forall a: nat ensures f.eql(a, a) { EqualAtEquivalence(h, mix, a, a, a); }
    forall a: nat, b: nat | f.eql(a, b) ensures f.eql(b, a) && f.content(a) == f.content(b) {
      EqualAtEquivalence(h, mix, a, b, b);
    }
    forall a: nat, b: nat, c: nat | f.eql(a, b) && f.eql(b, c) ensures f.eql(a, c) {
      EqualAtEquivalence(h, mix, a, b, c);
    }
  }

  /** The map of a hopscotch set whose keys are those of `table`. */
  ghost predicate SameKeys(m: map<nat, int>, table: Keys) {
    forall a :: a in m <==> IsKey(table, a)
  }

  /** A lookup in the association list finds a key exactly when a hopscotch lookup finds one, and the same. */
  lemma SameAnswers(h: Heap, table: Keys, m: map<nat, int>, mix: Mixer, aggressive: bool, a: Addr)
    requires TableOk(h, table, mix, aggressive) && SameKeys(m, table) && a in h
    ensures var r := Find(table, h, a, HashOf(h[a], mix));
      && (r == None <==> H.Absent(FamilyOf(h, mix), H.Content, m, a))
      && (r.Some? ==> forall k :: k in m && H.Same(FamilyOf(h, mix), H.Content, k, a) <==> k == r.value)
  {
    hide TableOk, HashOf, SameContent, IsKey;
    var r := Find(table, h, a, HashOf(h[a], mix));
    if r == None {
      forall k | k in m ensures !H.Same(FamilyOf(h, mix), H.Content, k, a) { NoneEqual(h, table, mix, aggressive, a, k); }
    } else {
      assert H.Same(FamilyOf(h, mix), H.Content, r.value, a);
      forall k | k in m && H.Same(FamilyOf(h, mix), H.Content, k, a) ensures k == r.value {
        OneEqual(h, table, mix, aggressive, a, k, r.value);
      }
    }
  }

  lemma NoneEqual(h: Heap, table: Keys, mix: Mixer, aggressive: bool, a: Addr, k: Addr)
    requires TableOk(h, table, mix, aggressive) && a in h && IsKey(table, k)
    requires Find(table, h, a, HashOf(h[a], mix)) == None
    ensures k != a && k in h && !SameContent(h[k], h[a])
  {
    hide SameContent, HashOf, Find;
    FindComplete(table, h, a, HashOf(h[a], mix));
    var i :| 0 <= i < |table| && table[i].key == k;
    assert KeyOk(h, table, table[i], mix, aggressive);
    if SameContent(h[k], h[a]) { EqualHashEqual(h[k], h[a], mix); }
  }

  lemma OneEqual(h: Heap, table: Keys, mix: Mixer, aggressive: bool, a: Addr, k: Addr, r: Addr)
    requires TableOk(h, table, mix, aggressive) && a in h && IsKey(table, k) && IsKey(table, r)
    requires k == a || (k in h && SameContent(h[k], h[a]))
    requires r == a || (r in h && SameContent(h[r], h[a]))
    ensures k == r
  {
    hide TableOk;
    KeyInHeap(h, table, mix, aggressive, k);
    KeyInHeap(h, table, mix, aggressive, r);
    assert SameContent(h[k], h[r]);
    UniqueContent(h, table, mix, aggressive, k, r);
  }

  /** A key's hash does not change while coalescing goes on. */
  lemma KeyHashStays(h: Heap, t: Keys, k: Heap, u: Keys, mix: Mixer, aggressive: bool, a: Addr)
    requires TableOk(h, t, mix, aggressive) && TableOk(k, u, mix, aggressive) && t <= u && IsKey(t, a)
    ensures FamilyOf(k, mix).content(a) == FamilyOf(h, mix).content(a)
  {
    hide HashOf, SameContent;
    var i :| 0 <= i < |t| && t[i].key == a;
    assert KeyOk(h, t, t[i], mix, aggressive) && KeyOk(k, u, u[i], mix, aggressive);
  }

  /** Cells that are valid for one assignment of home bins are so for any that agrees on the keys present. */
  lemma SameHomes(c: S.Cells, home: S.HomeFn, home': S.HomeFn, m: map<nat, int>)
    requires S.Ok(c, home, m) && S.Homes(c, home') && forall k :: k in m ==> home'(k) == home(k)
    ensures S.Ok(c, home', m)
  {
  }

  /**
   * After any stretch of coalescing, the storage of a hopscotch table filled under the old heap is
   * still a valid table of the same keys under the new one, and no two of them are equal there.
   */
  lemma TableSurvives(h: Heap, t: Keys, k: Heap, u: Keys, mix: Mixer, aggressive: bool, c: S.Cells, m: map<nat, int>)
    requires TableOk(h, t, mix, aggressive) && Steps(h, t, k, u, mix, aggressive) && SameKeys(m, t)
    requires c.size > 0 && S.Ok(c, H.HomeOf(FamilyOf(h, mix), H.Content, false, c.size), m)
    ensures S.Ok(c, H.HomeOf(FamilyOf(k, mix), H.Content, false, c.size), m)
    ensures H.Unique(FamilyOf(k, mix), H.Content, m)
  {
    hide TableOk, S.Ok, HashOf, SameContent, Preserves, Evolves, WellFormed, IsKey;
    var home, home' := H.HomeOf(FamilyOf(h, mix), H.Content, false, c.size), H.HomeOf(FamilyOf(k, mix), H.Content, false, c.size);
    forall a | a in m ensures home'(a) == home(a) { KeyHashStays(h, t, k, u, mix, aggressive, a); }
    SameHomes(c, home, home', m);
    forall a, b | a in m && b in m && H.Same(FamilyOf(k, mix), H.Content, a, b) ensures a == b {
      KeysGrow(t, u, a);
      KeysGrow(t, u, b);
      KeyInHeap(k, u, mix, aggressive, a);
      KeyInHeap(k, u, mix, aggressive, b);
      if a != b { UniqueContent(k, u, mix, aggressive, a, b); }
    }
  }
}
