/**
 * Constant coalescing: what it looks at, what it must keep and what it achieves.
 *
 * The heap is a finite map from addresses to objects.  An object's `words` are its elements or
 * slots; for a specialized vector the length word comes first.  `header` stands for the header
 * bits beside the widetag: for a vector its two low bits are the two shareable flags.
 */
module CoalesceSpec {
  import opened Options

  type Addr = nat

  /** `Ref` is a pointer with other-pointer lowtag; `Foreign` is any other pointer or immediate. */
  datatype Word = Fixnum(n: int) | Nil | Raw(bits: int) | Ref(a: Addr) | Foreign(bits: int)

  datatype Kind =
    | SimpleVector
    | Specialized(widetag: nat, isString: bool)
    | Bignum
    | Float(widetag: nat)
    | Rational(widetag: nat)
    | Symbol
    | Other(widetag: nat)

  /** `managed` says whether the object is in a space that coalescing looks at. */
  datatype Object = Object(kind: Kind, header: nat, managed: bool, words: seq<Word>)

  type Heap = map<Addr, Object>

  // What is coalesced.

  predicate Leaf(kind: Kind) {
    kind.Specialized? || kind.Bignum? || kind.Float?
  }

  /** Every pointer leads to an object, and leaf objects hold none. */
  predicate WellFormed(h: Heap) {
    && (forall a, w | a in h && w in h[a].words && w.Ref? :: w.a in h)
    && (forall a, w | a in h && w in h[a].words && Leaf(h[a].kind) :: !w.Ref?)
  }

  predicate CoalescibleNumber(o: Object) {
    || o.kind.Bignum?
    || o.kind.Float?
    || (o.kind.Rational? && |o.words| == 2 && o.words[0].Fixnum? && o.words[1].Fixnum?)
  }

  predicate EqlKind(kind: Kind) {
    kind.Bignum? || kind.Symbol? || (kind.Specialized? && kind.isString)
  }

  predicate EqlComparable(h: Heap, w: Word) {
    w.Fixnum? || w.Nil? || (w.Ref? && w.a in h && EqlKind(h[w.a].kind))
  }

  /** The shareable flags that count; `aggressive` takes the non-standard one too. */
  predicate Shareable(o: Object, aggressive: bool) {
    o.header % 2 == 1 || (aggressive && o.header / 2 % 2 == 1)
  }

  /** A coalescible object without pointers. */
  predicate CoalescibleLeaf(o: Object, aggressive: bool) {
    o.managed && (CoalescibleNumber(o) || (Shareable(o, aggressive) && o.kind.Specialized?))
  }

  predicate CoalescibleVector(h: Heap, o: Object, aggressive: bool) {
    && o.managed && Shareable(o, aggressive) && o.kind.SimpleVector?
    && forall w | w in o.words :: EqlComparable(h, w)
  }

  predicate Coalescible(h: Heap, a: Addr, aggressive: bool) {
    a in h && (CoalescibleLeaf(h[a], aggressive) || CoalescibleVector(h, h[a], aggressive))
  }

  // Comparing and hashing.

  predicate Number(kind: Kind) {
    kind.Bignum? || kind.Float? || kind.Rational?
  }

  /** `vector_eql` on contents: of a vector only the widetag, of a number the whole header. */
  predicate SameContent(x: Object, y: Object) {
    x.kind == y.kind && (Number(x.kind) ==> x.header == y.header) && x.words == y.words
  }

  datatype Seed = OfTag(kind: Kind) | OfHeader(kind: Kind, low: nat)

  type Mixer = (Seed, seq<Word>) -> nat

  function HashOf(o: Object, mix: Mixer): (hash: nat) {
    mix(if Number(o.kind) then OfHeader(o.kind, o.header % 0x1_0000_0000) else OfTag(o.kind), o.words)
  }

  /** Equal objects hash equal, whatever the mixing function. */
  lemma EqualHashEqual(x: Object, y: Object, mix: Mixer)
    requires SameContent(x, y)
    ensures HashOf(x, mix) == HashOf(y, mix)
  {
  }

  // The table.  An entry is found under the hash its key had when it was put in.

  datatype Entry = Entry(hash: nat, key: Addr)

  type Keys = seq<Entry>

  predicate IsKey(table: Keys, a: Addr) {
    exists i :: 0 <= i < |table| && table[i].key == a
  }

  function Find(table: Keys, h: Heap, a: Addr, hash: nat): (r: Option<Addr>)
    requires a in h
    ensures r.Some? ==> IsKey(table, r.value) && (r.value == a || (r.value in h && SameContent(h[r.value], h[a])))
  {
    if table == [] then None else
    var e := table[0];
    if e.hash == hash && (e.key == a || (e.key in h && SameContent(h[e.key], h[a]))) then
      assert IsKey(table, e.key);
      Some(e.key)
    else
      var r := Find(table[1..], h, a, hash);
      assert r.Some? ==> IsKey(table, r.value) by {
        if r.Some? {
          var i :| 0 <= i < |table[1..]| && table[1..][i].key == r.value;
          assert table[i + 1].key == r.value;
        }
      }
      r
  }

  lemma {:induction false} FindComplete(table: Keys, h: Heap, a: Addr, hash: nat)
    requires a in h && Find(table, h, a, hash) == None
    ensures forall i | 0 <= i < |table| && table[i].hash == hash ::
      table[i].key != a && !(table[i].key in h && SameContent(h[table[i].key], h[a]))
  {
    if table != [] {
      FindComplete(table[1..], h, a, hash);
      forall i | 0 <= i < |table| && table[i].hash == hash
        ensures table[i].key != a && !(table[i].key in h && SameContent(h[table[i].key], h[a]))
      {
        if i > 0 { assert table[i] == table[1..][i - 1]; }
      }
    }
  }

  /** A word that is no longer to be changed: it does not point to a coalescible non-key. */
  predicate Settled(h: Heap, table: Keys, w: Word, aggressive: bool) {
    w.Ref? && Coalescible(h, w.a, aggressive) ==> IsKey(table, w.a)
  }

  predicate SettledWords(h: Heap, table: Keys, a: Addr, aggressive: bool) {
    a in h && forall w | w in h[a].words :: Settled(h, table, w, aggressive)
  }

  predicate KeyOk(h: Heap, table: Keys, e: Entry, mix: Mixer, aggressive: bool) {
    && Coalescible(h, e.key, aggressive)
    && e.hash == HashOf(h[e.key], mix)
    && SettledWords(h, table, e.key, aggressive)
  }

  /** No two keys are equal, each still has the hash it was put in under, and none will change. */
  predicate TableOk(h: Heap, table: Keys, mix: Mixer, aggressive: bool) {
    && (forall i | 0 <= i < |table| :: KeyOk(h, table, table[i], mix, aggressive))
    && (forall a, b | IsKey(table, a) && IsKey(table, b) && a in h && b in h && SameContent(h[a], h[b]) :: a == b)
  }

  // What a word means: coalescible objects by content, all others by identity.

  datatype Meaning = Itself(w: Word) | Content(kind: Kind, header: nat, words: seq<Word>) | Vector(elements: seq<Meaning>)

  function ElementMeaning(h: Heap, w: Word, aggressive: bool): (m: Meaning) {
    if w.Ref? && w.a in h && CoalescibleLeaf(h[w.a], aggressive) then
      var o := h[w.a];
      Content(o.kind, if Number(o.kind) then o.header else 0, o.words)
    else Itself(w)
  }

  function ElementMeanings(h: Heap, words: seq<Word>, aggressive: bool): (ms: seq<Meaning>)
    ensures |ms| == |words|
    ensures forall i | 0 <= i < |words| :: ms[i] == ElementMeaning(h, words[i], aggressive)
  {
    seq(|words|, i requires 0 <= i < |words| => ElementMeaning(h, words[i], aggressive))
  }

  function MeaningOf(h: Heap, w: Word, aggressive: bool): (m: Meaning) {
    if w.Ref? && w.a in h && CoalescibleVector(h, h[w.a], aggressive)
    then Vector(ElementMeanings(h, h[w.a].words, aggressive))
    else ElementMeaning(h, w, aggressive)
  }

  predicate SameFrame(x: Object, y: Object) {
    x.kind == y.kind && x.header == y.header && x.managed == y.managed && |x.words| == |y.words|
  }

  /** Nothing but pointers changed, and every slot of every object means what it meant. */
  predicate Preserves(h: Heap, k: Heap, aggressive: bool) {
    && h.Keys == k.Keys
    && (forall a | a in h :: SameFrame(h[a], k[a]))
    && (forall a, i | a in h && 0 <= i < |h[a].words| && i < |k[a].words| ::
         MeaningOf(k, k[a].words[i], aggressive) == MeaningOf(h, h[a].words[i], aggressive))
    && (forall a | a in h :: Coalescible(k, a, aggressive) <==> Coalescible(h, a, aggressive))
    && (forall a | a in h && CoalescibleLeaf(h[a], aggressive) :: k[a] == h[a])
  }

  lemma PreservesRefl(h: Heap, aggressive: bool)
    ensures Preserves(h, h, aggressive)
  {
  }

  lemma PreservesTrans(h: Heap, k: Heap, l: Heap, aggressive: bool)
    requires Preserves(h, k, aggressive) && Preserves(k, l, aggressive)
    ensures Preserves(h, l, aggressive)
  {
    hide MeaningOf, Coalescible, CoalescibleLeaf;
    forall a, i | a in h && 0 <= i < |h[a].words| && i < |l[a].words|
      ensures MeaningOf(l, l[a].words[i], aggressive) == MeaningOf(h, h[a].words[i], aggressive)
    {
      assert a in k && SameFrame(h[a], k[a]);
    }
    forall a | a in h && CoalescibleLeaf(h[a], aggressive) ensures l[a] == h[a] {
      assert a in k && k[a] == h[a];
    }
    forall a | a in h
      ensures SameFrame(h[a], l[a]) && (Coalescible(l, a, aggressive) <==> Coalescible(h, a, aggressive))
    {
      assert a in k && SameFrame(h[a], k[a]) && SameFrame(k[a], l[a]);
    }
  }

  // Redirecting one slot to an equal object.

  function Redirected(h: Heap, a: Addr, i: nat, key: Addr): (k: Heap)
    requires a in h && i < |h[a].words|
  {
    h[a := h[a].(words := h[a].words[i := Ref(key)])]
  }

  /** Slot `i` of `a` points to `b`, and `key` is coalescible with the same content. */
  predicate CanRedirect(h: Heap, a: Addr, i: nat, b: Addr, key: Addr, aggressive: bool) {
    && WellFormed(h) && a in h && i < |h[a].words| && h[a].words[i] == Ref(b)
    && Coalescible(h, b, aggressive) && Coalescible(h, key, aggressive) && SameContent(h[b], h[key])
  }

  lemma RedirectedFrame(h: Heap, a: Addr, i: nat, b: Addr, key: Addr, aggressive: bool)
    requires CanRedirect(h, a, i, b, key, aggressive)
    ensures var k := Redirected(h, a, i, key);
      && k.Keys == h.Keys
      && (forall x | x in h :: SameFrame(h[x], k[x]) && (x != a ==> k[x] == h[x]))
      && WellFormed(k)
  {
    hide Coalescible;
    var k := Redirected(h, a, i, key);
    RedirectInside(h, b, key, aggressive);
    assert h[a].words[i] in h[a].words;
    forall x, w | x in k && w in k[x].words && w.Ref? ensures w.a in k && !Leaf(k[x].kind) {
      if w != Ref(key) { WordBefore(h, a, i, key, x, w); }
    }
  }

  lemma RedirectInside(h: Heap, b: Addr, key: Addr, aggressive: bool)
    requires Coalescible(h, b, aggressive) && Coalescible(h, key, aggressive)
    ensures b in h && key in h
  {
  }

  lemma WordBefore(h: Heap, a: Addr, i: nat, key: Addr, x: Addr, w: Word)
    requires a in h && i < |h[a].words| && x in h
    requires w in Redirected(h, a, i, key)[x].words && w != Ref(key)
    ensures w in h[x].words
  {
  }

  /** The object whose slot is redirected holds a pointer, so is no leaf before or after. */
  lemma RedirectedNotLeaf(h: Heap, a: Addr, i: nat, b: Addr, key: Addr, aggressive: bool)
    requires CanRedirect(h, a, i, b, key, aggressive)
    ensures !CoalescibleLeaf(h[a], aggressive) && !CoalescibleLeaf(Redirected(h, a, i, key)[a], aggressive)
  {
    assert h[a].words[i] in h[a].words;
  }

  lemma RedirectedElement(h: Heap, a: Addr, i: nat, b: Addr, key: Addr, aggressive: bool, w: Word)
    requires CanRedirect(h, a, i, b, key, aggressive)
    ensures var k := Redirected(h, a, i, key);
      && (EqlComparable(k, w) <==> EqlComparable(h, w))
      && ElementMeaning(k, w, aggressive) == ElementMeaning(h, w, aggressive)
  {
    hide Coalescible, CoalescibleLeaf;
    RedirectedNotLeaf(h, a, i, b, key, aggressive);
  }

  /** Equal coalescible objects are eql-comparable alike and mean the same. */
  lemma EqualMeaning(h: Heap, b: Addr, key: Addr, aggressive: bool)
    requires Coalescible(h, b, aggressive) && Coalescible(h, key, aggressive) && SameContent(h[b], h[key])
    ensures EqlComparable(h, Ref(b)) <==> EqlComparable(h, Ref(key))
    ensures MeaningOf(h, Ref(b), aggressive) == MeaningOf(h, Ref(key), aggressive)
    ensures EqlComparable(h, Ref(b)) ==> ElementMeaning(h, Ref(b), aggressive) == ElementMeaning(h, Ref(key), aggressive)
  {
  }

  /** A vector is as coalescible after a redirection as before. */
  lemma RedirectedVector(h: Heap, a: Addr, i: nat, b: Addr, key: Addr, aggressive: bool, x: Addr)
    requires CanRedirect(h, a, i, b, key, aggressive) && x in h
    ensures var k := Redirected(h, a, i, key);
      CoalescibleVector(k, k[x], aggressive) <==> CoalescibleVector(h, h[x], aggressive)
  {
    hide Coalescible, CoalescibleLeaf, EqlComparable, ElementMeaning, MeaningOf, WellFormed, SameContent;
    var k := Redirected(h, a, i, key);
    EqualMeaning(h, b, key, aggressive);
    forall w ensures EqlComparable(k, w) <==> EqlComparable(h, w) {
      RedirectedElement(h, a, i, b, key, aggressive, w);
    }
    if x == a {
      assert h[a].words[i] in h[a].words && k[a].words[i] in k[a].words;
      forall w | w in h[a].words && w != Ref(b) ensures w in k[a].words {
        var j :| 0 <= j < |h[a].words| && h[a].words[j] == w;
        assert k[a].words[j] == w;
      }
      forall w | w in k[a].words && w != Ref(key) ensures w in h[a].words {
        WordBefore(h, a, i, key, a, w);
      }
    }
  }

  /** Every word means after a redirection what it meant before. */
  lemma RedirectedMeaning(h: Heap, a: Addr, i: nat, b: Addr, key: Addr, aggressive: bool, w: Word)
    requires CanRedirect(h, a, i, b, key, aggressive)
    ensures MeaningOf(Redirected(h, a, i, key), w, aggressive) == MeaningOf(h, w, aggressive)
  {
    hide Coalescible, CoalescibleLeaf, EqlComparable, ElementMeaning, Shareable, WellFormed, SameContent;
    var k := Redirected(h, a, i, key);
    RedirectedElement(h, a, i, b, key, aggressive, w);
    if w.Ref? && w.a in h {
      RedirectedVector(h, a, i, b, key, aggressive, w.a);
      if CoalescibleVector(h, h[w.a], aggressive) {
        var before, after := h[w.a].words, k[w.a].words;
        forall j | 0 <= j < |before|
          ensures ElementMeaning(k, after[j], aggressive) == ElementMeaning(h, before[j], aggressive)
        {
          RedirectedElement(h, a, i, b, key, aggressive, after[j]);
          if w.a == a && j == i {
            assert before[j] in before;
            EqualMeaning(h, b, key, aggressive);
          }
        }
      }
    }
  }

  /** Redirecting a slot to an equal object changes the meaning of nothing. */
  lemma RedirectPreserves(h: Heap, a: Addr, i: nat, b: Addr, key: Addr, aggressive: bool)
    requires CanRedirect(h, a, i, b, key, aggressive)
    ensures Preserves(h, Redirected(h, a, i, key), aggressive) && WellFormed(Redirected(h, a, i, key))
  {
    hide CoalescibleLeaf, CoalescibleVector, MeaningOf, ElementMeaning, WellFormed, SameContent;
    var k := Redirected(h, a, i, key);
    RedirectedFrame(h, a, i, b, key, aggressive);
    RedirectedNotLeaf(h, a, i, b, key, aggressive);
    EqualMeaning(h, b, key, aggressive);
    forall x, j | x in h && 0 <= j < |h[x].words| && j < |k[x].words|
      ensures MeaningOf(k, k[x].words[j], aggressive) == MeaningOf(h, h[x].words[j], aggressive)
    {
      RedirectedMeaning(h, a, i, b, key, aggressive, k[x].words[j]);
    }
    forall x | x in h ensures Coalescible(k, x, aggressive) <==> Coalescible(h, x, aggressive) {
      RedirectedVector(h, a, i, b, key, aggressive, x);
    }
  }

  // The table under these changes.

  lemma SettledStays(h: Heap, k: Heap, table: Keys, more: Keys, w: Word, aggressive: bool)
    requires Preserves(h, k, aggressive) && table <= more && Settled(h, table, w, aggressive)
    ensures Settled(k, more, w, aggressive)
  {
    hide MeaningOf, CoalescibleLeaf, CoalescibleVector;
    if w.Ref? && Coalescible(k, w.a, aggressive) {
      assert w.a in h;
      var i :| 0 <= i < |table| && table[i].key == w.a;
      assert more[i].key == w.a;
    }
  }

  /** The slot of a key is settled, so only other objects are ever changed. */
  lemma KeysSettled(h: Heap, table: Keys, mix: Mixer, aggressive: bool, a: Addr, w: Word)
    requires TableOk(h, table, mix, aggressive) && IsKey(table, a) && a in h && w in h[a].words
    ensures Settled(h, table, w, aggressive)
  {
    hide Settled, Coalescible, HashOf, SameContent;
    var i :| 0 <= i < |table| && table[i].key == a;
    assert KeyOk(h, table, table[i], mix, aggressive);
  }

  lemma KeyInHeap(h: Heap, table: Keys, mix: Mixer, aggressive: bool, a: Addr)
    requires TableOk(h, table, mix, aggressive) && IsKey(table, a)
    ensures a in h && Coalescible(h, a, aggressive)
  {
    var i :| 0 <= i < |table| && table[i].key == a;
    assert KeyOk(h, table, table[i], mix, aggressive);
  }

  lemma RedirectKeepsTable(h: Heap, a: Addr, i: nat, b: Addr, key: Addr, table: Keys, mix: Mixer, aggressive: bool)
    requires CanRedirect(h, a, i, b, key, aggressive) && TableOk(h, table, mix, aggressive)
    requires !IsKey(table, b)
    ensures TableOk(Redirected(h, a, i, key), table, mix, aggressive)
  {
    hide Coalescible, HashOf, SameContent, Settled, WellFormed;
    var k := Redirected(h, a, i, key);
    RedirectPreserves(h, a, i, b, key, aggressive);
    if IsKey(table, a) {
      KeysSettled(h, table, mix, aggressive, a, h[a].words[i]);
      UnsettledSlot(h, table, b, aggressive);
    }
    forall j | 0 <= j < |table| ensures KeyOk(k, table, table[j], mix, aggressive) {
      assert KeyOk(h, table, table[j], mix, aggressive);
      assert IsKey(table, table[j].key);
      forall w | w in k[table[j].key].words ensures Settled(k, table, w, aggressive) {
        SettledStays(h, k, table, table, w, aggressive);
      }
    }
  }

  lemma UnsettledSlot(h: Heap, table: Keys, b: Addr, aggressive: bool)
    requires Coalescible(h, b, aggressive) && !IsKey(table, b)
    ensures !Settled(h, table, Ref(b), aggressive)
  {
  }

  /** An object unlike every key, with settled words, may become a key. */
  lemma InsertKeepsTable(h: Heap, table: Keys, v: Addr, mix: Mixer, aggressive: bool)
    requires TableOk(h, table, mix, aggressive) && Coalescible(h, v, aggressive)
    requires SettledWords(h, table, v, aggressive)
    requires Find(table, h, v, HashOf(h[v], mix)) == None
    ensures TableOk(h, table + [Entry(HashOf(h[v], mix), v)], mix, aggressive)
  {
    hide Coalescible, HashOf, SameContent, Settled, Find;
    var e := Entry(HashOf(h[v], mix), v);
    var more := table + [e];
    PreservesRefl(h, aggressive);
    forall j | 0 <= j < |more| ensures KeyOk(h, more, more[j], mix, aggressive) {
      assert j < |table| ==> KeyOk(h, table, table[j], mix, aggressive);
      forall w | w in h[more[j].key].words ensures Settled(h, more, w, aggressive) {
        SettledStays(h, h, table, more, w, aggressive);
      }
    }
    FindComplete(table, h, v, e.hash);
    forall a | IsKey(table, a) && a in h ensures !SameContent(h[a], h[v]) && !SameContent(h[v], h[a]) {
      var j :| 0 <= j < |table| && table[j].key == a;
      assert KeyOk(h, table, table[j], mix, aggressive);
      SameContentSymmetric(h[a], h[v]);
      if SameContent(h[a], h[v]) { EqualHashEqual(h[a], h[v], mix); }
    }
    forall a | IsKey(more, a) ensures a == v || IsKey(table, a) {
      var j :| 0 <= j < |more| && more[j].key == a;
      assert j < |table| ==> table[j].key == a;
    }
  }

  lemma SameContentSymmetric(x: Object, y: Object)
    ensures SameContent(x, y) <==> SameContent(y, x)
  {
  }

  /** Looking up a key finds that key. */
  lemma FindSelf(h: Heap, table: Keys, v: Addr, mix: Mixer, aggressive: bool)
    requires TableOk(h, table, mix, aggressive) && IsKey(table, v) && v in h
    ensures Find(table, h, v, HashOf(h[v], mix)) == Some(v)
  {
    hide Coalescible, HashOf, SameContent, Settled, Find;
    var j :| 0 <= j < |table| && table[j].key == v;
    assert KeyOk(h, table, table[j], mix, aggressive);
    if Find(table, h, v, HashOf(h[v], mix)) == None {
      FindComplete(table, h, v, HashOf(h[v], mix));
    }
  }

  // What the table gives.

  /** Two keys that mean the same are the same object. */
  lemma KeysCanonical(h: Heap, table: Keys, mix: Mixer, aggressive: bool, x: Addr, y: Addr)
    requires TableOk(h, table, mix, aggressive) && IsKey(table, x) && IsKey(table, y)
    requires x in h && y in h && MeaningOf(h, Ref(x), aggressive) == MeaningOf(h, Ref(y), aggressive)
    ensures x == y
  {
    hide TableOk, ElementMeaning, Settled;
    KeyInHeap(h, table, mix, aggressive, x);
    KeyInHeap(h, table, mix, aggressive, y);
    if CoalescibleVector(h, h[x], aggressive) {
      var ms := ElementMeanings(h, h[x].words, aggressive);
      VectorMeaning(h, x, y, aggressive);
      forall i | 0 <= i < |h[x].words| ensures h[x].words[i] == h[y].words[i] {
        KeysSettled(h, table, mix, aggressive, x, h[x].words[i]);
        KeysSettled(h, table, mix, aggressive, y, h[y].words[i]);
        assert ms[i] == ElementMeaning(h, h[y].words[i], aggressive);
        ElementsCanonical(h, table, mix, aggressive, h[x].words[i], h[y].words[i]);
      }
      assert SameContent(h[x], h[y]);
      UniqueContent(h, table, mix, aggressive, x, y);
    } else {
      LeafMeaning(h, x, y, aggressive);
      UniqueContent(h, table, mix, aggressive, x, y);
    }
  }

  lemma UniqueContent(h: Heap, table: Keys, mix: Mixer, aggressive: bool, x: Addr, y: Addr)
    requires TableOk(h, table, mix, aggressive) && IsKey(table, x) && IsKey(table, y)
    requires x in h && y in h && SameContent(h[x], h[y])
    ensures x == y
  {
  }

  lemma VectorMeaning(h: Heap, x: Addr, y: Addr, aggressive: bool)
    requires x in h && y in h && CoalescibleVector(h, h[x], aggressive)
    requires MeaningOf(h, Ref(x), aggressive) == MeaningOf(h, Ref(y), aggressive)
    ensures CoalescibleVector(h, h[y], aggressive)
    ensures ElementMeanings(h, h[x].words, aggressive) == ElementMeanings(h, h[y].words, aggressive)
  {
  }

  lemma LeafMeaning(h: Heap, x: Addr, y: Addr, aggressive: bool)
    requires Coalescible(h, x, aggressive) && !CoalescibleVector(h, h[x], aggressive) && y in h
    requires MeaningOf(h, Ref(x), aggressive) == MeaningOf(h, Ref(y), aggressive)
    ensures SameContent(h[x], h[y])
  {
  }

  lemma ElementsCanonical(h: Heap, table: Keys, mix: Mixer, aggressive: bool, v: Word, w: Word)
    requires TableOk(h, table, mix, aggressive)
    requires Settled(h, table, v, aggressive) && Settled(h, table, w, aggressive)
    requires ElementMeaning(h, v, aggressive) == ElementMeaning(h, w, aggressive)
    ensures v == w
  {
    hide TableOk, IsKey;
    if ElementMeaning(h, v, aggressive).Content? {
      UniqueContent(h, table, mix, aggressive, v.a, w.a);
    }
  }

  // Whole runs.

  /** Every slot still holds its old word, or has come to point to a key. */
  predicate Evolves(h: Heap, k: Heap, table: Keys) {
    forall a, i | a in h && a in k && 0 <= i < |h[a].words| && i < |k[a].words| ::
      k[a].words[i] == h[a].words[i] || (k[a].words[i].Ref? && IsKey(table, k[a].words[i].a))
  }

  /** What any stretch of coalescing from heap `h` and table `t` to `k` and `u` guarantees. */
  predicate Steps(h: Heap, t: Keys, k: Heap, u: Keys, mix: Mixer, aggressive: bool) {
    && WellFormed(k) && TableOk(k, u, mix, aggressive)
    && Preserves(h, k, aggressive) && t <= u && Evolves(h, k, u)
  }

  predicate SlotExists(h: Heap, a: Addr, i: nat) {
    a in h && i < |h[a].words|
  }

  predicate SettledAt(h: Heap, table: Keys, a: Addr, i: nat, aggressive: bool) {
    SlotExists(h, a, i) && Settled(h, table, h[a].words[i], aggressive)
  }

  lemma StepsRefl(h: Heap, t: Keys, mix: Mixer, aggressive: bool)
    requires WellFormed(h) && TableOk(h, t, mix, aggressive)
    ensures Steps(h, t, h, t, mix, aggressive)
  {
    hide WellFormed, TableOk, MeaningOf, Coalescible;
  }

  lemma StepsTrans(h: Heap, t: Keys, k: Heap, u: Keys, l: Heap, v: Keys, mix: Mixer, aggressive: bool)
    requires Steps(h, t, k, u, mix, aggressive) && Steps(k, u, l, v, mix, aggressive)
    ensures Steps(h, t, l, v, mix, aggressive)
  {
    hide WellFormed, TableOk, IsKey, MeaningOf, Coalescible, CoalescibleLeaf;
    PreservesTrans(h, k, l, aggressive);
    forall a, i | a in h && a in l && 0 <= i < |h[a].words| && i < |l[a].words|
      ensures l[a].words[i] == h[a].words[i] || (l[a].words[i].Ref? && IsKey(v, l[a].words[i].a))
    {
      assert a in k && SameFrame(h[a], k[a]);
      if l[a].words[i] == k[a].words[i] && k[a].words[i] != h[a].words[i] {
        KeysGrow(u, v, k[a].words[i].a);
      }
    }
  }

  lemma KeysGrow(t: Keys, u: Keys, a: Addr)
    requires t <= u && IsKey(t, a)
    ensures IsKey(u, a)
  {
    var i :| 0 <= i < |t| && t[i].key == a;
    assert u[i].key == a;
  }

  lemma SlotStays(h: Heap, t: Keys, k: Heap, u: Keys, mix: Mixer, aggressive: bool, a: Addr, i: nat)
    requires Steps(h, t, k, u, mix, aggressive) && SlotExists(h, a, i)
    ensures SlotExists(k, a, i)
  {
    hide WellFormed, TableOk, Evolves, MeaningOf, Coalescible, CoalescibleLeaf;
    assert SameFrame(h[a], k[a]);
  }

  lemma SettledAtStays(h: Heap, t: Keys, k: Heap, u: Keys, mix: Mixer, aggressive: bool, a: Addr, i: nat)
    requires Steps(h, t, k, u, mix, aggressive) && SettledAt(h, t, a, i, aggressive)
    ensures SettledAt(k, u, a, i, aggressive)
  {
    hide WellFormed, TableOk, Preserves, Coalescible, IsKey;
    SlotStays(h, t, k, u, mix, aggressive, a, i);
    if k[a].words[i] == h[a].words[i] {
      SettledStays(h, k, t, u, h[a].words[i], aggressive);
    }
  }

  lemma RedirectSteps(h: Heap, a: Addr, i: nat, b: Addr, key: Addr, table: Keys, mix: Mixer, aggressive: bool)
    requires CanRedirect(h, a, i, b, key, aggressive) && TableOk(h, table, mix, aggressive)
    requires IsKey(table, key) && (IsKey(table, b) ==> key == b)
    ensures var k := Redirected(h, a, i, key);
      Steps(h, table, k, table, mix, aggressive) && SettledAt(k, table, a, i, aggressive)
      && (key == b ==> k == h)
  {
    hide TableOk, MeaningOf, Coalescible, CoalescibleLeaf, WellFormed, Preserves, IsKey;
    var k := Redirected(h, a, i, key);
    if key == b {
      assert h[a].words[i := Ref(key)] == h[a].words;
      assert k == h;
      HeapWellFormed(h, a, i, b, key, aggressive);
      StepsRefl(h, table, mix, aggressive);
    } else {
      RedirectPreserves(h, a, i, b, key, aggressive);
      RedirectKeepsTable(h, a, i, b, key, table, mix, aggressive);
    }
  }

  lemma HeapWellFormed(h: Heap, a: Addr, i: nat, b: Addr, key: Addr, aggressive: bool)
    requires CanRedirect(h, a, i, b, key, aggressive)
    ensures WellFormed(h)
  {
  }

  lemma InsertSteps(h: Heap, table: Keys, v: Addr, mix: Mixer, aggressive: bool)
    requires WellFormed(h) && TableOk(h, table, mix, aggressive) && Coalescible(h, v, aggressive)
    requires SettledWords(h, table, v, aggressive)
    requires Find(table, h, v, HashOf(h[v], mix)) == None
    ensures var u := table + [Entry(HashOf(h[v], mix), v)];
      Steps(h, table, h, u, mix, aggressive) && IsKey(u, v)
  {
    hide TableOk, MeaningOf, Coalescible, CoalescibleLeaf, WellFormed, Find, HashOf;
    var u := table + [Entry(HashOf(h[v], mix), v)];
    InsertKeepsTable(h, table, v, mix, aggressive);
    assert u[|table|].key == v;
  }

  lemma StepsValid(h: Heap, t: Keys, k: Heap, u: Keys, mix: Mixer, aggressive: bool)
    requires Steps(h, t, k, u, mix, aggressive)
    ensures WellFormed(k) && TableOk(k, u, mix, aggressive) && k.Keys == h.Keys
  {
  }

  lemma StepsObject(h: Heap, t: Keys, k: Heap, u: Keys, mix: Mixer, aggressive: bool, x: Addr)
    requires Steps(h, t, k, u, mix, aggressive) && x in h
    ensures x in k && SameFrame(h[x], k[x]) && (Coalescible(h, x, aggressive) <==> Coalescible(k, x, aggressive))
  {
  }

  lemma NotCoalescibleSettled(h: Heap, t: Keys, w: Word, aggressive: bool)
    requires !w.Ref? || !Coalescible(h, w.a, aggressive)
    ensures Settled(h, t, w, aggressive)
  {
  }

  lemma UnmanagedSettled(h: Heap, t: Keys, w: Word, aggressive: bool)
    requires w.Ref? ==> w.a in h && !h[w.a].managed
    ensures Settled(h, t, w, aggressive)
  {
  }

  lemma PointsInside(h: Heap, a: Addr, i: nat)
    requires WellFormed(h) && SlotExists(h, a, i) && h[a].words[i].Ref?
    ensures h[a].words[i].a in h
  {
    assert h[a].words[i] in h[a].words;
  }

  lemma KeyWordsSettled(h: Heap, t: Keys, v: Addr, mix: Mixer, aggressive: bool)
    requires TableOk(h, t, mix, aggressive) && IsKey(t, v)
    ensures SettledWords(h, t, v, aggressive)
  {
    var i :| 0 <= i < |t| && t[i].key == v;
    assert KeyOk(h, t, t[i], mix, aggressive);
  }

  lemma LeafWordsSettled(h: Heap, t: Keys, v: Addr, aggressive: bool)
    requires WellFormed(h) && Coalescible(h, v, aggressive) && !h[v].kind.SimpleVector?
    ensures SettledWords(h, t, v, aggressive)
  {
  }

  /** A coalescible vector does not contain itself or any other vector. */
  lemma VectorIsFlat(h: Heap, v: Addr, j: nat, aggressive: bool)
    requires v in h && CoalescibleVector(h, h[v], aggressive) && j < |h[v].words|
    ensures h[v].words[j].Ref? ==> h[v].words[j].a in h && !h[h[v].words[j].a].kind.SimpleVector?
  {
    assert h[v].words[j] in h[v].words;
  }

  lemma VectorByKind(h: Heap, v: Addr, aggressive: bool)
    requires Coalescible(h, v, aggressive) && h[v].kind.SimpleVector?
    ensures v in h && CoalescibleVector(h, h[v], aggressive)
  {
  }

  lemma VectorCoalescible(h: Heap, v: Addr, aggressive: bool)
    requires v in h && CoalescibleVector(h, h[v], aggressive)
    ensures Coalescible(h, v, aggressive) && h[v].kind.SimpleVector?
  {
  }

  /** What a successful lookup of the object in a slot allows. */
  lemma FoundKey(h: Heap, t: Keys, a: Addr, i: nat, v: Addr, key: Addr, mix: Mixer, aggressive: bool)
    requires WellFormed(h) && TableOk(h, t, mix, aggressive) && Coalescible(h, v, aggressive)
    requires SlotExists(h, a, i) && h[a].words[i] == Ref(v)
    requires Find(t, h, v, HashOf(h[v], mix)) == Some(key)
    ensures CanRedirect(h, a, i, v, key, aggressive) && IsKey(t, key) && (IsKey(t, v) ==> key == v)
  {
    hide TableOk, WellFormed, CoalescibleLeaf, CoalescibleVector, HashOf, Find;
    KeyInHeap(h, t, mix, aggressive, key);
    SameContentSymmetric(h[key], h[v]);
    if IsKey(t, v) { FindSelf(h, t, v, mix, aggressive); }
  }

  // The unfolding of a word to any depth.

  datatype Tree = Cut | Datum(w: Word) | Node(identity: Option<Addr>, kind: Kind, header: nat, kids: seq<Tree>)

  /**
   * What a program that follows pointers from `w` can see in `n` steps: contents everywhere, and
   * identity of the objects that are not coalescible.  The header of a coalescible vector, whose
   * flags may differ between equal vectors, is left out.
   */
  function Unfold(h: Heap, w: Word, n: nat, aggressive: bool): (t: Tree)
    decreases n
  {
    if !w.Ref? || w.a !in h then Datum(w)
    else if n == 0 then Cut
    else
      var o := h[w.a];
      var shared := Coalescible(h, w.a, aggressive);
      Node(if shared then None else Some(w.a), o.kind,
           if shared && !Number(o.kind) then 0 else o.header,
           seq(|o.words|, i requires 0 <= i < |o.words| => Unfold(h, o.words[i], n - 1, aggressive)))
  }

  /** Words of the same meaning in heaps related by preservation unfold alike. */
  lemma {:induction false} SameUnfolding(h: Heap, k: Heap, v: Word, w: Word, n: nat, aggressive: bool)
    requires Preserves(h, k, aggressive) && WellFormed(h) && WellFormed(k)
    requires MeaningOf(h, v, aggressive) == MeaningOf(k, w, aggressive)
    ensures Unfold(h, v, n, aggressive) == Unfold(k, w, n, aggressive)
    decreases n
  {
    hide Preserves, WellFormed, MeaningOf, Coalescible;
    SameRoot(h, k, v, w, aggressive);
    if v.Ref? && v.a in h && n > 0 {
      forall i | 0 <= i < |h[v.a].words|
        ensures Unfold(h, h[v.a].words[i], n - 1, aggressive) == Unfold(k, k[w.a].words[i], n - 1, aggressive)
      {
        SameKid(h, k, v.a, w.a, i, aggressive);
        SameUnfolding(h, k, h[v.a].words[i], k[w.a].words[i], n - 1, aggressive);
      }
    }
  }

  /** Equal meaning: the same plain word, or two objects alike in all that is compared. */
  lemma SameRoot(h: Heap, k: Heap, v: Word, w: Word, aggressive: bool)
    requires Preserves(h, k, aggressive) && MeaningOf(h, v, aggressive) == MeaningOf(k, w, aggressive)
    ensures if v.Ref? && v.a in h then
        && w.Ref? && w.a in k
        && |h[v.a].words| == |k[w.a].words| && h[v.a].kind == k[w.a].kind
        && (Coalescible(h, v.a, aggressive) <==> Coalescible(k, w.a, aggressive))
        && ((Coalescible(h, v.a, aggressive) && !Number(h[v.a].kind)) || h[v.a].header == k[w.a].header)
        && (Coalescible(h, v.a, aggressive) || v == w)
      else v == w && !(w.Ref? && w.a in k)
  {
    hide ElementMeanings, EqlComparable, Shareable, CoalescibleNumber;
    if v.Ref? && v.a in h && CoalescibleVector(h, h[v.a], aggressive) {
      SameLength(h, k, v.a, w, aggressive);
    } else if v.Ref? && v.a in h && v == w {
      assert SameFrame(h[v.a], k[v.a]);
    }
  }

  lemma SameLength(h: Heap, k: Heap, x: Addr, w: Word, aggressive: bool)
    requires x in h && CoalescibleVector(h, h[x], aggressive)
    requires MeaningOf(h, Ref(x), aggressive) == MeaningOf(k, w, aggressive)
    ensures w.Ref? && w.a in k && CoalescibleVector(k, k[w.a], aggressive)
    ensures ElementMeanings(h, h[x].words, aggressive) == ElementMeanings(k, k[w.a].words, aggressive)
    ensures |h[x].words| == |k[w.a].words|
  {
    assert |ElementMeanings(h, h[x].words, aggressive)| == |h[x].words|;
  }

  /** Objects of the same meaning have slots of the same meaning. */
  lemma SameKid(h: Heap, k: Heap, x: Addr, y: Addr, i: nat, aggressive: bool)
    requires Preserves(h, k, aggressive) && WellFormed(h) && WellFormed(k) && x in h && y in k
    requires MeaningOf(h, Ref(x), aggressive) == MeaningOf(k, Ref(y), aggressive)
    requires i < |h[x].words| == |k[y].words|
    ensures MeaningOf(h, h[x].words[i], aggressive) == MeaningOf(k, k[y].words[i], aggressive)
  {
    hide Shareable, EqlComparable, ElementMeaning, Coalescible, WellFormed, CoalescibleLeaf;
    if CoalescibleVector(h, h[x], aggressive) {
      var ms := ElementMeanings(h, h[x].words, aggressive);
      SameLength(h, k, x, Ref(y), aggressive);
      assert ms[i] == ElementMeaning(k, k[y].words[i], aggressive);
      assert h[x].words[i] in h[x].words && k[y].words[i] in k[y].words;
      ElementIsMeaning(h, h[x].words[i], aggressive);
      ElementIsMeaning(k, k[y].words[i], aggressive);
    } else if CoalescibleLeaf(h[x], aggressive) {
      LeafKid(h, k, x, y, i, aggressive);
    } else {
      IdentityKid(h, k, x, y, aggressive);
    }
  }

  lemma IdentityKid(h: Heap, k: Heap, x: Addr, y: Addr, aggressive: bool)
    requires x in h && y in k && !CoalescibleVector(h, h[x], aggressive) && !CoalescibleLeaf(h[x], aggressive)
    requires MeaningOf(h, Ref(x), aggressive) == MeaningOf(k, Ref(y), aggressive)
    ensures x == y
  {
  }

  lemma LeafKid(h: Heap, k: Heap, x: Addr, y: Addr, i: nat, aggressive: bool)
    requires WellFormed(h) && x in h && y in k && CoalescibleLeaf(h[x], aggressive)
    requires MeaningOf(h, Ref(x), aggressive) == MeaningOf(k, Ref(y), aggressive)
    requires i < |h[x].words| == |k[y].words|
    ensures MeaningOf(h, h[x].words[i], aggressive) == MeaningOf(k, k[y].words[i], aggressive)
  {
    assert h[x].words == k[y].words;
    assert h[x].words[i] in h[x].words;
    assert !h[x].words[i].Ref?;
  }

  /** An eql-comparable word is no vector, so means what it means as an element. */
  lemma ElementIsMeaning(h: Heap, w: Word, aggressive: bool)
    requires EqlComparable(h, w)
    ensures MeaningOf(h, w, aggressive) == ElementMeaning(h, w, aggressive)
  {
  }
}
