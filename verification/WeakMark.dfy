/**
 * Weak tables in the non-moving mark phase: triggers are tested only when the queue is empty,
 * and the phase goes on only if that put something on the queue.
 *
 * Objects are addresses in `kids`; any other word is an immediate or an object that is not
 * collected, which always counts as surviving.  A weak table's entries are in `entries`.
 */
module WeakMark {

  /** An entry lives if its key survives and `byKey`, or its value does and `byValue`. */
  datatype Entry = Entry(byKey: bool, byValue: bool, key: nat, value: nat)

  datatype Graph = Graph(kids: map<nat, seq<nat>>, leaf: set<nat>, entries: map<nat, seq<Entry>>)

  datatype State = State(marks: set<nat>, queue: seq<nat>, triggers: map<nat, seq<nat>>)

  function Kids(g: Graph, x: nat): (k: seq<nat>) {
    if x in g.kids then g.kids[x] else []
  }

  function Entries(g: Graph, x: nat): (e: seq<Entry>) {
    if x in g.entries then g.entries[x] else []
  }

  predicate Wf(g: Graph) {
    forall x | x in g.leaf :: Kids(g, x) == [] && Entries(g, x) == []
  }

  predicate Survived(g: Graph, marks: set<nat>, p: nat) {
    p !in g.kids || p in marks
  }

  predicate Alive(g: Graph, marks: set<nat>, e: Entry) {
    (e.byKey && Survived(g, marks, e.key)) || (e.byValue && Survived(g, marks, e.value))
  }

  // The phase.

  function Mark(g: Graph, s: State, p: nat): (r: State) {
    if Survived(g, s.marks, p) then s
    else s.(marks := s.marks + {p}, queue := if p in g.leaf then s.queue else s.queue + [p])
  }

  function MarkAll(g: Graph, s: State, ps: seq<nat>): (r: State)
    decreases |ps|
  {
    if ps == [] then s else MarkAll(g, Mark(g, s, ps[0]), ps[1..])
  }

  function AddTrigger(g: Graph, s: State, t: nat, livened: nat): (r: State) {
    if livened !in g.kids then s
    else s.(triggers := s.triggers[t := [livened] + if t in s.triggers then s.triggers[t] else []])
  }

  function ScanEntry(g: Graph, s: State, e: Entry): (r: State) {
    if Alive(g, s.marks, e) then MarkAll(g, s, [e.key, e.value])
    else
      var s1 := if e.byKey then AddTrigger(g, s, e.key, e.value) else s;
      if e.byValue then AddTrigger(g, s1, e.value, e.key) else s1
  }

  function ScanEntries(g: Graph, s: State, es: seq<Entry>): (r: State)
    decreases |es|
  {
    if es == [] then s else ScanEntries(g, ScanEntry(g, s, es[0]), es[1..])
  }

  function Trace(g: Graph, s: State, x: nat): (r: State) {
    ScanEntries(g, MarkAll(g, s, Kids(g, x)), Entries(g, x))
  }

  function TestTrigger(g: Graph, s: State, t: nat): (r: State) {
    if t in s.triggers && Survived(g, s.marks, t)
    then var m := MarkAll(g, s, s.triggers[t]); m.(triggers := m.triggers - {t})
    else s
  }

  /** One pass over the trigger table, in the order in which the table happens to hold it. */
  function TestTriggers(g: Graph, s: State, order: seq<nat>): (r: State)
    decreases |order|
  {
    if order == [] then s else TestTriggers(g, TestTrigger(g, s, order[0]), order[1..])
  }

  type Order = State -> seq<nat>

  ghost predicate Enumerates(order: Order, s: State) {
    forall t :: t in order(s) <==> t in s.triggers
  }

  // What must be marked.

  predicate EntryClosed(g: Graph, s: set<nat>, e: Entry) {
    Alive(g, s, e) ==> Survived(g, s, e.key) && Survived(g, s, e.value)
  }

  /** A set that holds the roots and all that its members, strongly or by entries, keep alive. */
  predicate Closed(g: Graph, roots: seq<nat>, s: set<nat>) {
    && (forall p | p in roots :: Survived(g, s, p))
    && (forall x, p | x in s && p in Kids(g, x) :: Survived(g, s, p))
    && (forall x, e | x in s && e in Entries(g, x) :: EntryClosed(g, s, e))
  }

  /**
   * A set is closed if every root, every pointer of a member, and for every entry of a member table the
   * value once the key that keeps it is in, and the key once the value that keeps it is, is in the set
   * or not an object that can die.
   */
  lemma ClosedMeans(g: Graph, roots: seq<nat>, s: set<nat>)
    ensures Closed(g, roots, s) <==>
      && (forall p | p in roots && p in g.kids :: p in s)
      && (forall x, p | x in s && x in g.kids && p in g.kids[x] && p in g.kids :: p in s)
      && (forall x, e | x in s && x in g.entries && e in g.entries[x] ::
           && (e.byKey && (e.key in g.kids ==> e.key in s) ==> e.value in g.kids ==> e.value in s)
           && (e.byValue && (e.value in g.kids ==> e.value in s) ==> e.key in g.kids ==> e.key in s))
  {
    if Closed(g, roots, s) {
      forall p | p in roots && p in g.kids ensures p in s { assert Survived(g, s, p); }
      forall x, p | x in s && x in g.kids && p in g.kids[x] && p in g.kids ensures p in s {
        assert p in Kids(g, x);
        assert Survived(g, s, p);
      }
      forall x, e | x in s && x in g.entries && e in g.entries[x]
        ensures e.byKey && (e.key in g.kids ==> e.key in s) ==> e.value in g.kids ==> e.value in s
        ensures e.byValue && (e.value in g.kids ==> e.value in s) ==> e.key in g.kids ==> e.key in s
      {
        assert e in Entries(g, x);
        assert EntryClosed(g, s, e);
      }
    }
  }

  ghost predicate Live(g: Graph, roots: seq<nat>, o: nat) {
    o in g.kids && forall s: set<nat> | Closed(g, roots, s) :: o in s
  }

  // Marking.

  /** What marking the words `ps` does. */
  predicate MarkedAll(g: Graph, s: State, r: State, ps: seq<nat>) {
    && r.triggers == s.triggers && s.marks <= r.marks && s.queue <= r.queue
    && (forall p | p in ps :: Survived(g, r.marks, p))
    && (forall x | x in r.marks :: x in s.marks || (x in ps && x in g.kids && (x in g.leaf || x in r.queue)))
    && (forall x | x in r.queue :: x in s.queue || (x in r.marks && x !in s.marks))
    && (r.marks == s.marks ==> r.queue == s.queue)
  }

  lemma {:induction false} MarkAllDoes(g: Graph, s: State, ps: seq<nat>)
    ensures MarkedAll(g, s, MarkAll(g, s, ps), ps)
    decreases |ps|
  {
    if ps != [] {
      var m := Mark(g, s, ps[0]);
      var r := MarkAll(g, m, ps[1..]);
      MarkAllDoes(g, m, ps[1..]);
      assert ps == [ps[0]] + ps[1..];
      assert s.queue <= m.queue <= r.queue;
      if !Survived(g, s.marks, ps[0]) {
        assert ps[0] in r.marks && ps[0] !in s.marks;
        if ps[0] !in g.leaf { assert ps[0] == m.queue[|s.queue|] == r.queue[|s.queue|]; }
      }
    }
  }

  // Soundness: nothing is marked that some closed set leaves out.

  predicate SoundFor(g: Graph, s: State, closed: set<nat>) {
    && s.marks <= closed
    && (forall x | x in s.queue :: x in s.marks)
    && (forall t, l | t in s.triggers && l in s.triggers[t] :: Survived(g, closed, t) ==> Survived(g, closed, l))
  }

  lemma SurvivedGrows(g: Graph, a: set<nat>, b: set<nat>, e: Entry)
    requires a <= b && Alive(g, a, e)
    ensures Alive(g, b, e)
  {
  }

  lemma MarkSound(g: Graph, s: State, ps: seq<nat>, closed: set<nat>)
    requires SoundFor(g, s, closed) && forall p | p in ps :: Survived(g, closed, p)
    ensures SoundFor(g, MarkAll(g, s, ps), closed)
  {
    MarkAllDoes(g, s, ps);
  }

  lemma AddTriggerSound(g: Graph, s: State, t: nat, l: nat, closed: set<nat>)
    requires SoundFor(g, s, closed) && (Survived(g, closed, t) ==> Survived(g, closed, l))
    ensures SoundFor(g, AddTrigger(g, s, t, l), closed)
  {
  }

  lemma ScanEntrySound(g: Graph, s: State, e: Entry, closed: set<nat>)
    requires SoundFor(g, s, closed) && EntryClosed(g, closed, e)
    ensures SoundFor(g, ScanEntry(g, s, e), closed)
  {
    hide SoundFor, AddTrigger, MarkAll;
    if Alive(g, s.marks, e) {
      SoundMarks(g, s, closed);
      SurvivedGrows(g, s.marks, closed, e);
      MarkSound(g, s, [e.key, e.value], closed);
    } else {
      if e.byKey { AddTriggerSound(g, s, e.key, e.value, closed); }
      var s1 := if e.byKey then AddTrigger(g, s, e.key, e.value) else s;
      if e.byValue { AddTriggerSound(g, s1, e.value, e.key, closed); }
    }
  }

  lemma SoundMarks(g: Graph, s: State, closed: set<nat>)
    requires SoundFor(g, s, closed)
    ensures s.marks <= closed
  {
  }

  lemma {:induction false} ScanEntriesSound(g: Graph, s: State, es: seq<Entry>, closed: set<nat>)
    requires SoundFor(g, s, closed) && forall e | e in es :: EntryClosed(g, closed, e)
    ensures SoundFor(g, ScanEntries(g, s, es), closed)
    decreases |es|
  {
    if es != [] {
      ScanEntrySound(g, s, es[0], closed);
      ScanEntriesSound(g, ScanEntry(g, s, es[0]), es[1..], closed);
    }
  }

  lemma TraceSound(g: Graph, roots: seq<nat>, s: State, x: nat, closed: set<nat>)
    requires Closed(g, roots, closed) && SoundFor(g, s, closed) && x in closed
    ensures SoundFor(g, Trace(g, s, x), closed)
  {
    hide SoundFor, MarkAll, ScanEntries, EntryClosed;
    MarkSound(g, s, Kids(g, x), closed);
    ScanEntriesSound(g, MarkAll(g, s, Kids(g, x)), Entries(g, x), closed);
  }

  lemma TestTriggerSound(g: Graph, s: State, t: nat, closed: set<nat>)
    requires SoundFor(g, s, closed)
    ensures SoundFor(g, TestTrigger(g, s, t), closed)
  {
    if t in s.triggers && Survived(g, s.marks, t) {
      MarkSound(g, s, s.triggers[t], closed);
    }
  }

  lemma {:induction false} TestTriggersSound(g: Graph, s: State, order: seq<nat>, closed: set<nat>)
    requires SoundFor(g, s, closed)
    ensures SoundFor(g, TestTriggers(g, s, order), closed)
    decreases |order|
  {
    if order != [] {
      TestTriggerSound(g, s, order[0], closed);
      TestTriggersSound(g, TestTrigger(g, s, order[0]), order[1..], closed);
    }
  }

  // Completeness: what is traced is done, or waits for a trigger.

  /** If `t` survives, `l` is marked already or will be when `t` is tested. */
  predicate Edge(g: Graph, s: State, t: nat, l: nat) {
    Survived(g, s.marks, l) || (t in s.triggers && l in s.triggers[t])
  }

  predicate Covered(g: Graph, s: State, e: Entry) {
    (e.byKey ==> Edge(g, s, e.key, e.value)) && (e.byValue ==> Edge(g, s, e.value, e.key))
  }

  predicate Done(g: Graph, s: State, x: nat) {
    && (forall p | p in Kids(g, x) :: Survived(g, s.marks, p))
    && (forall e | e in Entries(g, x) :: Covered(g, s, e))
  }

  /** Every marked object is done, or is still on the queue, or is `current`. */
  predicate Complete(g: Graph, s: State, current: set<nat>) {
    forall x | x in s.marks :: x in s.queue || x in current || Done(g, s, x)
  }

  /** Nothing marked or promised in `s` is lost in `r`. */
  predicate Keeps(g: Graph, s: State, r: State) {
    && s.marks <= r.marks
    && (forall t, l | t in s.triggers && l in s.triggers[t] :: Edge(g, r, t, l))
  }

  lemma KeepsEdge(g: Graph, s: State, r: State, t: nat, l: nat)
    requires Keeps(g, s, r) && Edge(g, s, t, l)
    ensures Edge(g, r, t, l)
  {
  }

  lemma KeepsDone(g: Graph, s: State, r: State, x: nat)
    requires Keeps(g, s, r) && Done(g, s, x)
    ensures Done(g, r, x)
  {
    hide Edge;
    forall e | e in Entries(g, x) ensures Covered(g, r, e) {
      assert Covered(g, s, e);
      if e.byKey { KeepsEdge(g, s, r, e.key, e.value); }
      if e.byValue { KeepsEdge(g, s, r, e.value, e.key); }
    }
  }

  lemma KeepsTrans(g: Graph, s: State, r: State, u: State)
    requires Keeps(g, s, r) && Keeps(g, r, u)
    ensures Keeps(g, s, u)
  {
    forall t, l | t in s.triggers && l in s.triggers[t] ensures Edge(g, u, t, l) {
      assert Edge(g, r, t, l);
      KeepsEdge(g, r, u, t, l);
    }
  }

  /** What every part of the phase does: `r` follows `s`. */
  predicate Follows(g: Graph, s: State, r: State) {
    && Keeps(g, s, r)
    && s.queue <= r.queue
    && (forall x | x in r.marks && x !in s.marks :: x in g.kids && (x in g.leaf || x in r.queue))
    && (forall x | x in r.queue :: x in s.queue || (x in r.marks && x !in s.marks))
    && (r.marks == s.marks ==> r.queue == s.queue)
  }

  lemma FollowsTrans(g: Graph, s: State, r: State, u: State)
    requires Follows(g, s, r) && Follows(g, r, u)
    ensures Follows(g, s, u)
  {
    hide Edge, Keeps;
    KeepsTrans(g, s, r, u);
    KeepsMarks(g, s, r);
    KeepsMarks(g, r, u);
  }

  lemma KeepsMarks(g: Graph, s: State, r: State)
    requires Keeps(g, s, r)
    ensures s.marks <= r.marks
  {
  }

  lemma FollowsRefl(g: Graph, s: State)
    ensures Follows(g, s, s)
  {
  }

  lemma MarkFollows(g: Graph, s: State, ps: seq<nat>)
    ensures Follows(g, s, MarkAll(g, s, ps)) && MarkedAll(g, s, MarkAll(g, s, ps), ps)
  {
    MarkAllDoes(g, s, ps);
  }

  lemma AddTriggerFollows(g: Graph, s: State, t: nat, l: nat)
    ensures Follows(g, s, AddTrigger(g, s, t, l)) && Edge(g, AddTrigger(g, s, t, l), t, l)
    ensures AddTrigger(g, s, t, l).marks == s.marks
  {
  }

  lemma ScanEntryFollows(g: Graph, s: State, e: Entry)
    ensures Follows(g, s, ScanEntry(g, s, e)) && Covered(g, ScanEntry(g, s, e), e)
  {
    hide Follows, AddTrigger, MarkAll;
    FollowsRefl(g, s);
    if Alive(g, s.marks, e) {
      MarkFollows(g, s, [e.key, e.value]);
    } else {
      var s1 := if e.byKey then AddTrigger(g, s, e.key, e.value) else s;
      var s2 := if e.byValue then AddTrigger(g, s1, e.value, e.key) else s1;
      if e.byKey { AddTriggerFollows(g, s, e.key, e.value); }
      FollowsRefl(g, s1);
      if e.byValue { AddTriggerFollows(g, s1, e.value, e.key); }
      FollowsTrans(g, s, s1, s2);
      if e.byKey {
        FollowsKeeps(g, s1, s2);
        KeepsEdge(g, s1, s2, e.key, e.value);
      }
    }
  }

  lemma FollowsKeeps(g: Graph, s: State, r: State)
    requires Follows(g, s, r)
    ensures Keeps(g, s, r)
  {
  }

  lemma KeepsCovered(g: Graph, s: State, r: State, e: Entry)
    requires Keeps(g, s, r) && Covered(g, s, e)
    ensures Covered(g, r, e)
  {
    hide Keeps, Edge;
    if e.byKey { KeepsEdge(g, s, r, e.key, e.value); }
    if e.byValue { KeepsEdge(g, s, r, e.value, e.key); }
  }

  lemma {:induction false} ScanEntriesFollows(g: Graph, s: State, es: seq<Entry>)
    ensures Follows(g, s, ScanEntries(g, s, es))
    ensures forall e | e in es :: Covered(g, ScanEntries(g, s, es), e)
    decreases |es|
  {
    hide Follows, Covered, ScanEntry;
    FollowsRefl(g, s);
    if es != [] {
      var m := ScanEntry(g, s, es[0]);
      var r := ScanEntries(g, m, es[1..]);
      ScanEntryFollows(g, s, es[0]);
      ScanEntriesFollows(g, m, es[1..]);
      FollowsTrans(g, s, m, r);
      FollowsKeeps(g, m, r);
      KeepsCovered(g, m, r, es[0]);
      assert es == [es[0]] + es[1..];
    }
  }

  lemma TraceFollows(g: Graph, s: State, x: nat)
    ensures Follows(g, s, Trace(g, s, x)) && Done(g, Trace(g, s, x), x)
  {
    hide Follows, Covered, MarkAll, ScanEntries;
    var m := MarkAll(g, s, Kids(g, x));
    var r := Trace(g, s, x);
    MarkFollows(g, s, Kids(g, x));
    ScanEntriesFollows(g, m, Entries(g, x));
    FollowsTrans(g, s, m, r);
    FollowsKeeps(g, m, r);
    KeepsMarks(g, m, r);
  }

  lemma LeafDone(g: Graph, s: State, x: nat)
    requires Wf(g) && x in g.leaf
    ensures Done(g, s, x)
  {
  }

  lemma FollowsComplete(g: Graph, s: State, r: State, current: set<nat>)
    requires Wf(g) && Complete(g, s, current) && Follows(g, s, r)
    ensures Complete(g, r, current)
  {
    hide Done, Keeps;
    forall x | x in r.marks ensures x in r.queue || x in current || Done(g, r, x) {
      if x !in s.marks {
        if x in g.leaf { LeafDone(g, r, x); }
      } else if Done(g, s, x) {
        KeepsDone(g, s, r, x);
      }
    }
  }

  // One pass over the triggers.

  lemma TestTriggerFollows(g: Graph, s: State, t: nat)
    ensures Follows(g, s, TestTrigger(g, s, t))
  {
    if t in s.triggers && Survived(g, s.marks, t) {
      MarkFollows(g, s, s.triggers[t]);
    }
  }

  /** A test either does nothing or removes a trigger. */
  lemma TestTriggerRemoves(g: Graph, s: State, t: nat)
    ensures var r := TestTrigger(g, s, t);
      && (r == s || (t in s.triggers && r.triggers == s.triggers - {t}))
      && (forall x | x in r.marks && x !in s.marks :: t in s.triggers && x in s.triggers[t])
      && (t in r.triggers ==> t in g.kids && t !in s.marks)
  {
    if t in s.triggers && Survived(g, s.marks, t) { MarkAllDoes(g, s, s.triggers[t]); }
  }

  /** The triggers of entries, and what entries liven. */
  function AllEntries(g: Graph): (es: set<Entry>) {
    set x, e | x in g.entries && e in g.entries[x] :: e
  }

  predicate IsTrigger(g: Graph, t: nat) {
    exists e :: e in AllEntries(g) && ((e.byKey && e.key == t) || (e.byValue && e.value == t))
  }

  predicate IsLivened(g: Graph, l: nat) {
    exists e :: e in AllEntries(g) && ((e.byKey && e.value == l) || (e.byValue && e.key == l))
  }

  /** What a trigger may hold: it watches for the entries' triggers and livens their others. */
  predicate TriggerOk(g: Graph, t: nat, watched: seq<nat>) {
    IsTrigger(g, t) && watched != [] && forall l | l in watched :: IsLivened(g, l)
  }

  predicate TableOk(g: Graph, s: State) {
    forall t | t in s.triggers :: TriggerOk(g, t, s.triggers[t])
  }

  lemma MarkKeepsTable(g: Graph, s: State, ps: seq<nat>)
    requires TableOk(g, s)
    ensures TableOk(g, MarkAll(g, s, ps))
  {
    MarkAllDoes(g, s, ps);
  }

  lemma AddTriggerKeepsTable(g: Graph, s: State, t: nat, l: nat)
    requires TableOk(g, s) && IsTrigger(g, t) && IsLivened(g, l)
    ensures TableOk(g, AddTrigger(g, s, t, l))
  {
    hide IsTrigger, IsLivened;
  }

  lemma ScanEntryKeepsTable(g: Graph, s: State, e: Entry)
    requires TableOk(g, s) && e in AllEntries(g)
    ensures TableOk(g, ScanEntry(g, s, e))
  {
    hide TableOk, AddTrigger, MarkAll;
    MarkKeepsTable(g, s, [e.key, e.value]);
    if e.byKey { AddTriggerKeepsTable(g, s, e.key, e.value); }
    var s1 := if e.byKey then AddTrigger(g, s, e.key, e.value) else s;
    if e.byValue { AddTriggerKeepsTable(g, s1, e.value, e.key); }
  }

  lemma {:induction false} ScanEntriesKeepsTable(g: Graph, s: State, es: seq<Entry>)
    requires TableOk(g, s) && forall e | e in es :: e in AllEntries(g)
    ensures TableOk(g, ScanEntries(g, s, es))
    decreases |es|
  {
    hide TableOk, ScanEntry, AllEntries;
    if es != [] {
      ScanEntryKeepsTable(g, s, es[0]);
      ScanEntriesKeepsTable(g, ScanEntry(g, s, es[0]), es[1..]);
    }
  }

  lemma TraceKeepsTable(g: Graph, s: State, x: nat)
    requires TableOk(g, s)
    ensures TableOk(g, Trace(g, s, x))
  {
    hide TableOk, ScanEntries, MarkAll;
    MarkKeepsTable(g, s, Kids(g, x));
    ScanEntriesKeepsTable(g, MarkAll(g, s, Kids(g, x)), Entries(g, x));
  }

  lemma TestTriggerKeepsTable(g: Graph, s: State, t: nat)
    requires TableOk(g, s)
    ensures TableOk(g, TestTrigger(g, s, t))
  {
    if t in s.triggers && Survived(g, s.marks, t) { MarkKeepsTable(g, s, s.triggers[t]); }
  }

  /** What a pass does. */
  lemma {:induction false} TestTriggersFollows(g: Graph, s: State, order: seq<nat>)
    requires TableOk(g, s)
    ensures var r := TestTriggers(g, s, order);
      && Follows(g, s, r) && TableOk(g, r)
      && r.triggers.Keys <= s.triggers.Keys && (r.triggers.Keys == s.triggers.Keys ==> r == s)
      && (forall x | x in r.marks && x !in s.marks :: IsLivened(g, x))
    decreases |order|
  {
    hide Follows, IsLivened, IsTrigger;
    FollowsRefl(g, s);
    if order != [] {
      var m := TestTrigger(g, s, order[0]);
      var r := TestTriggers(g, m, order[1..]);
      TestTriggerFollows(g, s, order[0]);
      TestTriggerRemoves(g, s, order[0]);
      TestTriggerKeepsTable(g, s, order[0]);
      TestTriggersFollows(g, m, order[1..]);
      FollowsTrans(g, s, m, r);
    }
  }

  /** A trigger left over by a pass over it survives only if it was marked by that very pass. */
  lemma {:induction false} LeftOver(g: Graph, s: State, order: seq<nat>, t: nat)
    requires TableOk(g, s) && t in order && t in TestTriggers(g, s, order).triggers
    ensures t in g.kids && t !in s.marks
    decreases |order|
  {
    hide Follows, TableOk, TestTrigger;
    var m := TestTrigger(g, s, order[0]);
    TestTriggerRemoves(g, s, order[0]);
    TestTriggerKeepsTable(g, s, order[0]);
    TestTriggersFollows(g, m, order[1..]);
    if t != order[0] {
      assert order == [order[0]] + order[1..];
      LeftOver(g, m, order[1..], t);
      TestTriggerFollows(g, s, order[0]);
      FollowsMarks(g, s, m);
    }
  }

  lemma FollowsMarks(g: Graph, s: State, r: State)
    requires Follows(g, s, r)
    ensures s.marks <= r.marks
  {
  }

  // The whole phase.

  /** The trigger table after a pass has fewer entries exactly when the pass did anything. */
  lemma FewerTriggers(s: State, r: State)
    requires r.triggers.Keys <= s.triggers.Keys
    ensures |r.triggers| == |s.triggers| <==> r.triggers.Keys == s.triggers.Keys
  {
    assert s.triggers.Keys == r.triggers.Keys + (s.triggers.Keys - r.triggers.Keys);
    assert |s.triggers| == |s.triggers.Keys| && |r.triggers| == |r.triggers.Keys|;
  }

  /** What holds whenever the loop looks at the queue. */
  predicate LoopInv(g: Graph, s: State) {
    Complete(g, s, {}) && TableOk(g, s) && s.marks <= g.kids.Keys && (forall x | x in s.queue :: x in s.marks)
  }

  /** The state once the first object of the queue has been traced. */
  function AfterTrace(g: Graph, s: State): (r: State)
    requires s.queue != []
  {
    Trace(g, s.(queue := s.queue[1..]), s.queue[0])
  }

  lemma AfterTraceKeeps(g: Graph, s: State)
    requires Wf(g) && LoopInv(g, s) && s.queue != []
    ensures var r := AfterTrace(g, s);
      && LoopInv(g, r) && s.marks <= r.marks && (r.marks == s.marks ==> r.queue == s.queue[1..])
  {
    hide Done, Keeps, TableOk, Trace;
    var x, q := s.queue[0], s.(queue := s.queue[1..]);
    var r := AfterTrace(g, s);
    assert s.queue == [x] + q.queue;
    SameDone(g, s, q);
    assert Complete(g, q, {x});
    TraceFollows(g, q, x);
    FollowsComplete(g, q, r, {x});
    FollowsMarks(g, q, r);
    SameTable(g, s, q);
    TraceKeepsTable(g, q, x);
  }

  lemma SameDone(g: Graph, s: State, q: State)
    requires q.marks == s.marks && q.triggers == s.triggers
    ensures forall x :: Done(g, s, x) ==> Done(g, q, x)
  {
    forall x | Done(g, s, x) ensures Done(g, q, x) {
      forall e | e in Entries(g, x) ensures Covered(g, q, e) { assert Covered(g, s, e); }
    }
  }

  lemma SameTable(g: Graph, s: State, q: State)
    requires q.triggers == s.triggers && TableOk(g, s)
    ensures TableOk(g, q)
  {
  }

  lemma PassKeeps(g: Graph, s: State, order: seq<nat>)
    requires Wf(g) && LoopInv(g, s)
    ensures var r := TestTriggers(g, s, order);
      && LoopInv(g, r) && s.marks <= r.marks && s.queue <= r.queue
      && (r.marks == s.marks ==> r.queue == s.queue)
  {
    hide Done, Keeps, TableOk, IsLivened, Complete;
    var r := TestTriggers(g, s, order);
    TestTriggersFollows(g, s, order);
    FollowsComplete(g, s, r, {});
    FollowsMarks(g, s, r);
  }

  /** The do-while loop of the mark phase, entered with something on the queue. */
  function Phase(g: Graph, s: State, order: Order): (r: State)
    requires Wf(g) && LoopInv(g, s) && s.queue != []
    ensures LoopInv(g, r)
    decreases g.kids.Keys - s.marks, |s.queue|
  {
    var s1 := AfterTrace(g, s);
    AfterTraceKeeps(g, s);
    Shrinks(g.kids.Keys, s.marks, s1.marks);
    if s1.queue != [] then Phase(g, s1, order) else
    var s2 := TestTriggers(g, s1, order(s1));
    PassKeeps(g, s1, order(s1));
    Shrinks(g.kids.Keys, s1.marks, s2.marks);
    if |s2.triggers| != |s1.triggers| && s2.queue != [] then Phase(g, s2, order) else s2
  }

  lemma Shrinks(all: set<nat>, a: set<nat>, b: set<nat>)
    requires a <= b <= all
    ensures a == b || all - b < all - a
  {
    if a != b {
      var x :| x in b && x !in a;
      assert x in all - a && x !in all - b;
    }
  }

  lemma StartInv(g: Graph, roots: seq<nat>)
    requires Wf(g)
    ensures var s := MarkAll(g, State({}, [], map[]), roots);
      LoopInv(g, s) && forall p | p in roots :: Survived(g, s.marks, p)
  {
    var s0 := State({}, [], map[]);
    MarkFollows(g, s0, roots);
    FollowsComplete(g, s0, MarkAll(g, s0, roots), {});
  }

  /** The state once the roots have been marked. */
  function Start(g: Graph, roots: seq<nat>): (s: State)
    requires Wf(g)
    ensures LoopInv(g, s)
  {
    StartInv(g, roots);
    MarkAll(g, State({}, [], map[]), roots)
  }

  // Only live objects are marked.

  lemma {:induction false} PhaseSound(g: Graph, roots: seq<nat>, s: State, order: Order, closed: set<nat>)
    requires Wf(g) && LoopInv(g, s) && s.queue != [] && Closed(g, roots, closed) && SoundFor(g, s, closed)
    ensures SoundFor(g, Phase(g, s, order), closed) && s.marks <= Phase(g, s, order).marks
    decreases g.kids.Keys - s.marks, |s.queue|
  {
    hide Closed, LoopInv, Trace, TestTriggers, SoundFor;
    var s1 := AfterTrace(g, s);
    AfterTraceSound(g, roots, s, closed);
    AfterTraceKeeps(g, s);
    LoopMarks(g, s1);
    Shrinks(g.kids.Keys, s.marks, s1.marks);
    if s1.queue != [] {
      PhaseSound(g, roots, s1, order, closed);
    } else {
      var s2 := TestTriggers(g, s1, order(s1));
      TestTriggersSound(g, s1, order(s1), closed);
      PassKeeps(g, s1, order(s1));
      LoopMarks(g, s2);
      Shrinks(g.kids.Keys, s1.marks, s2.marks);
      if |s2.triggers| != |s1.triggers| && s2.queue != [] {
        PhaseSound(g, roots, s2, order, closed);
      }
    }
  }

  lemma LoopMarks(g: Graph, s: State)
    requires LoopInv(g, s)
    ensures s.marks <= g.kids.Keys
  {
  }

  lemma AfterTraceSound(g: Graph, roots: seq<nat>, s: State, closed: set<nat>)
    requires s.queue != [] && Closed(g, roots, closed) && SoundFor(g, s, closed)
    ensures SoundFor(g, AfterTrace(g, s), closed)
  {
    hide Closed, Trace;
    TraceSound(g, roots, s.(queue := s.queue[1..]), s.queue[0], closed);
  }

  // All live objects are marked, if no leaf passes liveness on.

  /** No leaf object both is livened by one entry and triggers another. */
  predicate NoLeafRelay(g: Graph) {
    forall x | x in g.leaf :: !(IsTrigger(g, x) && IsLivened(g, x))
  }

  /** No pending trigger survives. */
  predicate Quiet(g: Graph, s: State) {
    forall t | t in s.triggers :: !Survived(g, s.marks, t)
  }

  lemma PassQuiet(g: Graph, s: State, order: seq<nat>)
    requires NoLeafRelay(g) && TableOk(g, s) && forall t :: t in order <==> t in s.triggers
    requires TestTriggers(g, s, order).queue == []
    ensures Quiet(g, TestTriggers(g, s, order))
  {
    hide IsTrigger, IsLivened;
    var r := TestTriggers(g, s, order);
    TestTriggersFollows(g, s, order);
    forall t | t in r.triggers ensures !Survived(g, r.marks, t) {
      LeftOver(g, s, order, t);
      assert TriggerOk(g, t, r.triggers[t]);
    }
  }

  lemma {:induction false} PhaseQuiet(g: Graph, s: State, order: Order)
    requires Wf(g) && LoopInv(g, s) && s.queue != [] && NoLeafRelay(g)
    requires forall q: State :: Enumerates(order, q)
    ensures Phase(g, s, order).queue == [] && Quiet(g, Phase(g, s, order)) && s.marks <= Phase(g, s, order).marks
    decreases g.kids.Keys - s.marks, |s.queue|
  {
    hide LoopInv, Trace, TestTriggers, NoLeafRelay, Quiet;
    var s1 := AfterTrace(g, s);
    AfterTraceKeeps(g, s);
    LoopMarks(g, s1);
    Shrinks(g.kids.Keys, s.marks, s1.marks);
    if s1.queue != [] {
      PhaseQuiet(g, s1, order);
    } else {
      var s2 := TestTriggers(g, s1, order(s1));
      PassKeeps(g, s1, order(s1));
      LoopMarks(g, s2);
      Shrinks(g.kids.Keys, s1.marks, s2.marks);
      LoopTable(g, s1);
      TestTriggersFollows(g, s1, order(s1));
      FewerTriggers(s1, s2);
      if |s2.triggers| != |s1.triggers| && s2.queue != [] {
        PhaseQuiet(g, s2, order);
      } else {
        assert Enumerates(order, s1);
        PassQuiet(g, s1, order(s1));
      }
    }
  }

  lemma LoopTable(g: Graph, s: State)
    requires LoopInv(g, s)
    ensures TableOk(g, s)
  {
  }

  /** Whatever the order of the passes, only live objects are ever marked. */
  lemma OnlyLiveMarked(g: Graph, roots: seq<nat>, order: Order)
    requires Wf(g) && Start(g, roots).queue != []
    ensures forall o | o in Phase(g, Start(g, roots), order).marks :: Live(g, roots, o)
  {
    hide Phase, Start;
    var r := Phase(g, Start(g, roots), order);
    forall o, closed: set<nat> | o in r.marks && Closed(g, roots, closed) ensures o in closed {
      StartSound(g, roots, closed);
      PhaseSound(g, roots, Start(g, roots), order, closed);
      SoundMarks(g, r, closed);
    }
    LoopMarks(g, r);
  }

  lemma StartSound(g: Graph, roots: seq<nat>, closed: set<nat>)
    requires Wf(g) && Closed(g, roots, closed)
    ensures SoundFor(g, Start(g, roots), closed)
  {
    MarkSound(g, State({}, [], map[]), roots, closed);
  }

  /**
   * If no leaf passes liveness on, the mark phase marks exactly the live objects, whatever the
   * order in which the trigger table is scanned.
   */
  lemma MarksExactlyLive(g: Graph, roots: seq<nat>, order: Order)
    requires Wf(g) && Start(g, roots).queue != []
    requires NoLeafRelay(g) && forall q: State :: Enumerates(order, q)
    ensures forall o | o in g.kids :: o in Phase(g, Start(g, roots), order).marks <==> Live(g, roots, o)
  {
    hide Phase, Closed, LoopInv, NoLeafRelay, MarkAll;
    PhaseQuiet(g, Start(g, roots), order);
    ExactUnlessOpen(g, roots, order);
  }

  // Exactly when something is missed.

  /** An entry is waiting for a trigger that has survived: some live object is unmarked. */
  predicate Open(g: Graph, s: State) {
    exists t, l :: t in s.triggers && l in s.triggers[t] && Survived(g, s.marks, t) && !Survived(g, s.marks, l)
  }

  /** The phase ends with nothing left to trace, whatever the order of its passes. */
  lemma {:induction false} PhaseDrains(g: Graph, s: State, order: Order)
    requires Wf(g) && LoopInv(g, s) && s.queue != []
    ensures Phase(g, s, order).queue == [] && s.marks <= Phase(g, s, order).marks
    decreases g.kids.Keys - s.marks, |s.queue|
  {
    hide LoopInv, Trace, TestTriggers;
    var s1 := AfterTrace(g, s);
    AfterTraceKeeps(g, s);
    LoopMarks(g, s1);
    Shrinks(g.kids.Keys, s.marks, s1.marks);
    if s1.queue != [] {
      PhaseDrains(g, s1, order);
    } else {
      var s2 := TestTriggers(g, s1, order(s1));
      PassKeeps(g, s1, order(s1));
      LoopMarks(g, s2);
      Shrinks(g.kids.Keys, s1.marks, s2.marks);
      LoopTable(g, s1);
      TestTriggersFollows(g, s1, order(s1));
      FewerTriggers(s1, s2);
      if |s2.triggers| != |s1.triggers| && s2.queue != [] { PhaseDrains(g, s2, order); }
    }
  }

  /** With the queue empty and nothing open, the marked set is closed. */
  lemma NotOpenIsClosed(g: Graph, roots: seq<nat>, s: State)
    requires LoopInv(g, s) && s.queue == [] && !Open(g, s) && forall p | p in roots :: Survived(g, s.marks, p)
    ensures Closed(g, roots, s.marks)
  {
    hide TableOk;
    forall x, e | x in s.marks && e in Entries(g, x) ensures EntryClosed(g, s.marks, e) {
      assert Done(g, s, x);
      assert Covered(g, s, e);
    }
    forall x, p | x in s.marks && p in Kids(g, x) ensures Survived(g, s.marks, p) {
      assert Done(g, s, x);
    }
  }

  /**
   * For every heap and every order of the passes: the phase marks exactly the live objects if and
   * only if it leaves no entry waiting for a trigger that has survived.
   */
  lemma ExactUnlessOpen(g: Graph, roots: seq<nat>, order: Order)
    requires Wf(g) && Start(g, roots).queue != []
    ensures var r := Phase(g, Start(g, roots), order);
      (forall o | o in g.kids :: o in r.marks <==> Live(g, roots, o)) <==> !Open(g, r)
  {
    hide Phase, Closed, LoopInv, MarkAll, SoundFor;
    var s := Start(g, roots);
    var r := Phase(g, s, order);
    OnlyLiveMarked(g, roots, order);
    StartInv(g, roots);
    PhaseDrains(g, s, order);
    if Open(g, r) {
      var t, l :| t in r.triggers && l in r.triggers[t] && Survived(g, r.marks, t) && !Survived(g, r.marks, l);
      forall closed: set<nat> | Closed(g, roots, closed) ensures l in closed {
        StartSound(g, roots, closed);
        PhaseSound(g, roots, s, order, closed);
        OpenIsLive(g, r, closed, t, l);
      }
      assert Live(g, roots, l);
    } else {
      NotOpenIsClosed(g, roots, r);
    }
  }

  lemma OpenIsLive(g: Graph, r: State, closed: set<nat>, t: nat, l: nat)
    requires SoundFor(g, r, closed) && t in r.triggers && l in r.triggers[t]
    requires Survived(g, r.marks, t) && !Survived(g, r.marks, l)
    ensures l in closed
  {
    assert Survived(g, closed, t);
    assert Survived(g, closed, l);
  }

  /** Waiting for a trigger that survives already: what one pass must mark. */
  predicate Direct(g: Graph, s: State, l: nat) {
    !Survived(g, s.marks, l) && exists t :: t in s.triggers && l in s.triggers[t] && Survived(g, s.marks, t)
  }

  /** A directly livened object is itself a trigger, for something that is not directly livened. */
  predicate Relay(g: Graph, s: State) {
    exists x, l :: x in s.triggers && l in s.triggers[x] && Direct(g, s, x) && !Survived(g, s.marks, l) && !Direct(g, s, l)
  }

  predicate DirectLeaves(g: Graph, s: State) {
    forall l | l in g.kids && Direct(g, s, l) :: l in g.leaf
  }

  /** The marks of `m` are those of `s` and directly livened objects. */
  predicate OnlyDirect(g: Graph, s: State, m: State) {
    && (forall x | x in m.marks :: x in s.marks || Direct(g, s, x))
    && (forall t | t in m.triggers :: t in s.triggers && m.triggers[t] == s.triggers[t])
  }

  lemma TestOnlyDirect(g: Graph, s: State, m: State, t: nat)
    requires OnlyDirect(g, s, m) && !Relay(g, s)
    ensures OnlyDirect(g, s, TestTrigger(g, m, t))
  {
    hide Direct, Relay;
    if t in m.triggers && Survived(g, m.marks, t) {
      var r := TestTrigger(g, m, t);
      TestTriggerRemoves(g, m, t);
      forall x | x in r.marks && x !in m.marks ensures x in s.marks || Direct(g, s, x) {
        assert x in m.triggers[t];
        if x !in s.marks { FiredIsDirect(g, s, t, x); }
        MarkAllDoes(g, m, m.triggers[t]);
      }
    }
  }

  lemma FiredIsDirect(g: Graph, s: State, t: nat, x: nat)
    requires t in s.triggers && x in s.triggers[t] && !Relay(g, s) && x !in s.marks
    requires Survived(g, s.marks, t) || Direct(g, s, t)
    ensures x in g.kids ==> Direct(g, s, x)
  {
  }

  lemma {:induction false} PassOnlyDirect(g: Graph, s: State, m: State, order: seq<nat>)
    requires OnlyDirect(g, s, m) && !Relay(g, s)
    ensures OnlyDirect(g, s, TestTriggers(g, m, order))
    decreases |order|
  {
    hide OnlyDirect, Relay;
    if order != [] {
      TestOnlyDirect(g, s, m, order[0]);
      PassOnlyDirect(g, s, TestTrigger(g, m, order[0]), order[1..]);
    }
  }

  /** A pass marks everything that is directly livened. */
  lemma {:induction false} PassFires(g: Graph, s: State, order: seq<nat>, t: nat, l: nat)
    requires TableOk(g, s) && t in order && t in s.triggers && l in s.triggers[t] && Survived(g, s.marks, t)
    ensures Survived(g, TestTriggers(g, s, order).marks, l)
    decreases |order|
  {
    hide TableOk;
    var m := TestTrigger(g, s, order[0]);
    TestTriggerKeepsTable(g, s, order[0]);
    TestTriggerFollows(g, s, order[0]);
    FollowsMarks(g, s, m);
    TestTriggersFollows(g, m, order[1..]);
    FollowsMarks(g, m, TestTriggers(g, m, order[1..]));
    if order[0] == t {
      MarkAllDoes(g, s, s.triggers[t]);
    } else {
      assert order == [order[0]] + order[1..];
      TestTriggerRemoves(g, s, order[0]);
      PassFires(g, m, order[1..], t, l);
    }
  }

  /** A pass over triggers that do not survive does nothing. */
  lemma {:induction false} DeadPass(g: Graph, s: State, dead: seq<nat>, more: seq<nat>)
    requires forall t | t in dead :: !Survived(g, s.marks, t)
    ensures TestTriggers(g, s, dead + more) == TestTriggers(g, s, more)
    decreases |dead|
  {
    if dead == [] {
      assert dead + more == more;
    } else {
      assert (dead + more)[1..] == dead[1..] + more && (dead + more)[0] == dead[0];
      assert dead[0] in dead;
      DeadPass(g, s, dead[1..], more);
    }
  }

  /** A pass over triggers that survive leaves the others and marks only what they liven. */
  lemma {:induction false} LivePass(g: Graph, s: State, m: State, live: seq<nat>)
    requires (forall t | t in live :: Survived(g, s.marks, t)) && s.marks <= m.marks
    requires OnlyDirect(g, s, m) && (forall t | t in s.triggers && !Survived(g, s.marks, t) :: t in m.triggers)
    ensures var r := TestTriggers(g, m, live);
      OnlyDirect(g, s, r) && (forall t | t in s.triggers && !Survived(g, s.marks, t) :: t in r.triggers)
    decreases |live|
  {
    hide Direct;
    if live != [] {
      var t := live[0];
      assert t in live;
      var r := TestTrigger(g, m, t);
      TestTriggerRemoves(g, m, t);
      if t in m.triggers { MarkAllDoes(g, m, m.triggers[t]); }
      forall x | x in r.marks && x !in m.marks && x !in s.marks ensures Direct(g, s, x) {
        LivenedIsDirect(g, s, t, x);
      }
      assert r.triggers.Keys <= m.triggers.Keys;
      LivePass(g, s, r, live[1..]);
    }
  }

  lemma LivenedIsDirect(g: Graph, s: State, t: nat, x: nat)
    requires t in s.triggers && x in s.triggers[t] && Survived(g, s.marks, t) && x in g.kids && x !in s.marks
    ensures Direct(g, s, x)
  {
  }

  lemma {:induction false} Listed(xs: set<nat>) returns (list: seq<nat>)
    ensures forall x :: x in list <==> x in xs
  {
    if xs == {} {
      list := [];
    } else {
      var x :| x in xs;
      var rest := Listed(xs - {x});
      list := [x] + rest;
    }
  }

  ghost predicate Lists(order: seq<nat>, s: State) {
    forall t :: t in order <==> t in s.triggers
  }

  /** Some order of the pass ends the phase with a live object unmarked. */
  ghost predicate CanMiss(g: Graph, s: State) {
    exists order :: Lists(order, s) && TestTriggers(g, s, order).queue == [] && Open(g, TestTriggers(g, s, order))
  }

  lemma MissedHasRelay(g: Graph, s: State, order: seq<nat>)
    requires TableOk(g, s) && s.queue == [] && Lists(order, s)
    requires TestTriggers(g, s, order).queue == [] && Open(g, TestTriggers(g, s, order))
    ensures DirectLeaves(g, s) && Relay(g, s)
  {
    hide TableOk, Relay;
    var r := TestTriggers(g, s, order);
    TestTriggersFollows(g, s, order);
    forall l | l in g.kids && Direct(g, s, l) ensures l in g.leaf && l in r.marks {
      var t :| t in s.triggers && l in s.triggers[t] && Survived(g, s.marks, t);
      PassFires(g, s, order, t, l);
    }
    if !Relay(g, s) {
      PassOnlyDirect(g, s, s, order);
      var t, l :| t in r.triggers && l in r.triggers[t] && Survived(g, r.marks, t) && !Survived(g, r.marks, l);
      LeftOver(g, s, order, t);
      FollowsMarks(g, s, r);
      NoRelayHere(g, s, t, l);
    }
  }

  lemma NoRelayHere(g: Graph, s: State, t: nat, l: nat)
    requires !Relay(g, s) && t in s.triggers && l in s.triggers[t] && Direct(g, s, t)
    ensures Survived(g, s.marks, l) || Direct(g, s, l)
  {
  }

  /** Testing the dead triggers first livens nothing beyond the direct, and keeps the dead ones. */
  lemma DeadFirst(g: Graph, s: State) returns (order: seq<nat>)
    requires TableOk(g, s)
    ensures Lists(order, s)
    ensures var r := TestTriggers(g, s, order);
      OnlyDirect(g, s, r) && (forall t | t in s.triggers && !Survived(g, s.marks, t) :: t in r.triggers)
  {
    hide TableOk, Direct, TestTriggers;
    var dead := Listed(set t | t in s.triggers && !Survived(g, s.marks, t));
    var live := Listed(set t | t in s.triggers && Survived(g, s.marks, t));
    order := dead + live;
    DeadPass(g, s, dead, live);
    LivePass(g, s, s, live);
  }

  lemma LeavesNotQueued(g: Graph, s: State, order: seq<nat>)
    requires TableOk(g, s) && s.queue == [] && DirectLeaves(g, s) && OnlyDirect(g, s, TestTriggers(g, s, order))
    ensures TestTriggers(g, s, order).queue == []
  {
    hide TableOk, Direct, TestTriggers;
    var r := TestTriggers(g, s, order);
    TestTriggersFollows(g, s, order);
    if r.queue != [] {
      var x := r.queue[0];
      assert x in r.queue;
      LeafNotQueued(g, s, order, x);
    }
  }

  lemma RelayIsMissed(g: Graph, s: State) returns (order: seq<nat>)
    requires TableOk(g, s) && s.queue == [] && DirectLeaves(g, s) && Relay(g, s)
    ensures Lists(order, s) && TestTriggers(g, s, order).queue == [] && Open(g, TestTriggers(g, s, order))
  {
    hide TableOk, TestTriggers, DirectLeaves;
    order := DeadFirst(g, s);
    var r := TestTriggers(g, s, order);
    LeavesNotQueued(g, s, order);
    var x, l :| x in s.triggers && l in s.triggers[x] && Direct(g, s, x) && !Survived(g, s.marks, l) && !Direct(g, s, l);
    var t :| t in s.triggers && x in s.triggers[t] && Survived(g, s.marks, t);
    PassFires(g, s, order, t, x);
    assert x in r.triggers && r.triggers[x] == s.triggers[x];
    assert l in r.triggers[x] && Survived(g, r.marks, x) && !Survived(g, r.marks, l);
  }

  /** A leaf is never queued. */
  lemma {:induction false} LeafNotQueued(g: Graph, s: State, order: seq<nat>, x: nat)
    requires x in g.leaf && x !in s.queue
    ensures x !in TestTriggers(g, s, order).queue
    decreases |order|
  {
    if order != [] {
      var t := order[0];
      if t in s.triggers && Survived(g, s.marks, t) { LeafNotMarkedInto(g, s, s.triggers[t], x); }
      LeafNotQueued(g, TestTrigger(g, s, t), order[1..], x);
    }
  }

  lemma {:induction false} LeafNotMarkedInto(g: Graph, s: State, ps: seq<nat>, x: nat)
    requires x in g.leaf && x !in s.queue
    ensures x !in MarkAll(g, s, ps).queue
    decreases |ps|
  {
    if ps != [] { LeafNotMarkedInto(g, Mark(g, s, ps[0]), ps[1..], x); }
  }

  /**
   * For every state in which the queue is empty: some order of the trigger table makes the coming
   * pass the last one and leaves a live object unmarked, if and only if all that the surviving
   * triggers liven are leaves and one of these is the trigger of something they do not liven.
   */
  lemma MissedExactlyByRelays(g: Graph, s: State)
    requires TableOk(g, s) && s.queue == []
    ensures CanMiss(g, s) <==> DirectLeaves(g, s) && Relay(g, s)
  {
    hide TableOk, DirectLeaves, Relay, Open, TestTriggers;
    if CanMiss(g, s) {
      var order :| Lists(order, s) && TestTriggers(g, s, order).queue == [] && Open(g, TestTriggers(g, s, order));
      MissedHasRelay(g, s, order);
    }
    if DirectLeaves(g, s) && Relay(g, s) {
      var order := RelayIsMissed(g, s);
    }
  }

  // A leaf that passes liveness on can be missed.

  /** The objects of a small heap: a weak table in which `key` livens `leaf` and `leaf` livens `target`,
      and an object that points to `key`.  `leaf` and `target` have no pointers. */
  datatype Names = Names(table: nat, holder: nat, key: nat, leaf: nat, target: nat)

  predicate Different(n: Names) {
    && n.table != n.holder && n.table != n.key && n.table != n.leaf && n.table != n.target
    && n.holder != n.key && n.holder != n.leaf && n.holder != n.target
    && n.key != n.leaf && n.key != n.target && n.leaf != n.target
  }

  function RelayGraph(n: Names): (g: Graph) {
    Graph(map[n.table := [], n.key := [], n.leaf := [], n.target := [], n.holder := [n.key]], {n.leaf, n.target},
          map[n.table := [Entry(true, false, n.leaf, n.target), Entry(true, false, n.key, n.leaf)]])
  }

  function RelayTriggers(n: Names): (t: map<nat, seq<nat>>) { map[n.leaf := [n.target], n.key := [n.leaf]] }

  function RelayStart(n: Names): (s: State) { State({n.table, n.holder}, [n.table, n.holder], map[]) }

  function RelayScanned(n: Names): (s: State) { State({n.table, n.holder}, [n.holder], RelayTriggers(n)) }

  function RelayHeld(n: Names): (s: State) { State({n.table, n.holder, n.key}, [n.key], RelayTriggers(n)) }

  function RelayTraced(n: Names): (s: State) { State({n.table, n.holder, n.key}, [], RelayTriggers(n)) }

  lemma RelayStarts(n: Names)
    requires Different(n)
    ensures MarkAll(RelayGraph(n), State({}, [], map[]), [n.table, n.holder]) == RelayStart(n)
  {
    RelayMark(RelayGraph(n), State({}, [], map[]), n.table, n.holder);
  }

  lemma RelayScans(n: Names)
    requires Different(n)
    ensures AfterTrace(RelayGraph(n), RelayStart(n)) == RelayScanned(n)
  {
    hide ScanEntries;
    var g, q := RelayGraph(n), State({n.table, n.holder}, [n.holder], map[]);
    var e, f := Entry(true, false, n.leaf, n.target), Entry(true, false, n.key, n.leaf);
    var none: seq<nat> := [];
    assert [n.target] + none == [n.target] && [n.leaf] + none == [n.leaf];
    var t := State({n.table, n.holder}, [n.holder], map[n.leaf := [n.target]]);
    assert ScanEntry(g, q, e) == t;
    assert ScanEntry(g, t, f) == RelayScanned(n);
    RelayScan(g, q, e, f);
    assert RelayStart(n).queue[1..] == [n.holder];
  }

  lemma RelayHolds(n: Names)
    requires Different(n)
    ensures AfterTrace(RelayGraph(n), RelayScanned(n)) == RelayHeld(n)
  {
    var g, u := RelayGraph(n), State({n.table, n.holder}, [], RelayTriggers(n));
    RelayMarkOne(g, u, n.key);
    assert Mark(g, u, n.key) == RelayHeld(n);
    assert RelayScanned(n).queue[1..] == [];
    assert ScanEntries(g, RelayHeld(n), []) == RelayHeld(n);
  }

  lemma RelayTraces(n: Names)
    requires Different(n)
    ensures AfterTrace(RelayGraph(n), RelayHeld(n)) == RelayTraced(n)
  {
    assert RelayHeld(n).queue[1..] == [];
    assert MarkAll(RelayGraph(n), RelayTraced(n), []) == RelayTraced(n);
    assert ScanEntries(RelayGraph(n), RelayTraced(n), []) == RelayTraced(n);
  }

  lemma RelayMarkOne(g: Graph, s: State, p: nat)
    ensures MarkAll(g, s, [p]) == Mark(g, s, p)
  {
    assert [p][1..] == [];
  }

  lemma RelayMark(g: Graph, s: State, p: nat, q: nat)
    ensures MarkAll(g, s, [p, q]) == Mark(g, Mark(g, s, p), q)
  {
    assert [p, q][1..] == [q];
    RelayMarkOne(g, Mark(g, s, p), q);
  }

  lemma RelayScan(g: Graph, s: State, e: Entry, f: Entry)
    ensures ScanEntries(g, s, [e, f]) == ScanEntry(g, ScanEntry(g, s, e), f)
  {
    var m := ScanEntry(g, s, e);
    assert [e, f][1..] == [f] && [f][1..] == [];
    assert ScanEntries(g, ScanEntry(g, m, f), []) == ScanEntry(g, m, f);
  }

  lemma RelayPass(n: Names)
    requires Different(n)
    ensures TestTriggers(RelayGraph(n), RelayTraced(n), [n.leaf, n.key])
         == State({n.table, n.holder, n.key, n.leaf}, [], map[n.leaf := [n.target]])
  {
    var g, s := RelayGraph(n), RelayTraced(n);
    assert TestTrigger(g, s, n.leaf) == s;
    RelayMarkOne(g, s, n.leaf);
    var r := TestTrigger(g, s, n.key);
    assert r == State({n.table, n.holder, n.key, n.leaf}, [], map[n.leaf := [n.target]]);
    assert [n.leaf, n.key][1..] == [n.key] && [n.key][1..] == [];
    assert TestTriggers(g, r, []) == r;
    assert TestTriggers(g, s, [n.key]) == r;
  }

  /**
   * Wherever such objects lie: the target is live, since the table, its key and the leaf that the
   * key livens are, but a phase that tests the leaf before the key ends without marking it, because
   * marking the leaf leaves the queue empty and the loop stops.
   */
  lemma LeafRelayMissed(n: Names, order: Order)
    requires Different(n) && order(RelayTraced(n)) == [n.leaf, n.key]
    ensures var g, roots := RelayGraph(n), [n.table, n.holder];
      && Wf(g) && Start(g, roots).queue != [] && Enumerates(order, RelayTraced(n)) && !NoLeafRelay(g)
      && Live(g, roots, n.target) && n.target !in Phase(g, Start(g, roots), order).marks
  {
    hide LoopInv, AfterTrace, TestTriggers, Phase, Live, NoLeafRelay, MarkAll;
    var g, roots := RelayGraph(n), [n.table, n.holder];
    RelayStarts(n);
    RelayScans(n);
    RelayHolds(n);
    RelayTraces(n);
    RelayPass(n);
    RelayLive(n);
    RelayIsRelay(n);
    var s := Start(g, roots);
    PhaseStep(g, s, order);
    PhaseStep(g, RelayScanned(n), order);
    PhaseEnd(g, RelayHeld(n), order);
  }

  lemma PhaseStep(g: Graph, s: State, order: Order)
    requires Wf(g) && LoopInv(g, s) && s.queue != [] && AfterTrace(g, s).queue != []
    ensures LoopInv(g, AfterTrace(g, s)) && Phase(g, s, order) == Phase(g, AfterTrace(g, s), order)
  {
    hide LoopInv, AfterTrace, TestTriggers;
    AfterTraceKeeps(g, s);
  }

  lemma PhaseEnd(g: Graph, s: State, order: Order)
    requires Wf(g) && LoopInv(g, s) && s.queue != [] && AfterTrace(g, s).queue == []
    requires TestTriggers(g, AfterTrace(g, s), order(AfterTrace(g, s))).queue == []
    ensures Phase(g, s, order) == TestTriggers(g, AfterTrace(g, s), order(AfterTrace(g, s)))
  {
    hide LoopInv, AfterTrace, TestTriggers;
  }

  lemma RelayIsRelay(n: Names)
    ensures !NoLeafRelay(RelayGraph(n))
  {
    var g := RelayGraph(n);
    var e, f := Entry(true, false, n.leaf, n.target), Entry(true, false, n.key, n.leaf);
    assert e in g.entries[n.table] && f in g.entries[n.table];
    assert e in AllEntries(g) && f in AllEntries(g);
    assert IsTrigger(g, n.leaf) && IsLivened(g, n.leaf);
  }

  lemma RelayLive(n: Names)
    requires Different(n)
    ensures Live(RelayGraph(n), [n.table, n.holder], n.target)
  {
    var g, roots := RelayGraph(n), [n.table, n.holder];
    var e, f := Entry(true, false, n.leaf, n.target), Entry(true, false, n.key, n.leaf);
    forall s: set<nat> | Closed(g, roots, s) ensures n.target in s {
      assert n.table in roots && n.holder in roots;
      assert n.key in Kids(g, n.holder);
      assert f in Entries(g, n.table) && e in Entries(g, n.table);
      assert EntryClosed(g, s, f);
      assert EntryClosed(g, s, e);
    }
  }
}
