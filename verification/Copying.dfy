/** The copying collector: root scan, list linearisation, the scan of the space copied to,
    weak table triggers, and culling. */
module Copying {
  import opened HeapWords
  import opened CopySpec
  import opened CollectSpec
  import W = WeakCull

  class Collector {
    ghost const heap: Heap           // from-space before the collection
    ghost const start: seq<Word>     // the root words before the collection
    const lists: set<nat>            // addresses whose pointers carry the list tag
    var from: map<nat, Cell>
    var news: Heap
    var free: nat                    // the bump pointer of new space
    var triggers: map<nat, seq<Word>>
    var deferred: seq<nat>           // weak tables to cull, by new address
    var roots: seq<Word>
    ghost var order: seq<nat>
    ghost var at: seq<nat>

    ghost function View(): Space
      reads this
    {
      Space(from, news, free, order, at, triggers, set p | p in deferred)
    }

    ghost predicate Ok(n: nat)
      reads this
    {
      Inv(heap, start, View(), n) && forall a :: a in heap ==> (a in lists <==> heap[a].kind.ConsCell?)
    }

    ghost predicate MayScavenge(w: Word)
      reads this
    {
      (w.From? ==> WfWord(heap, w)) && Forced(heap, start, w)
    }

    /** Copy one object to the bump pointer and leave a forwarding pointer behind. */
    method Transport(a: nat, ghost n: nat) returns (p: nat)
      requires Ok(n) && a in heap && a in from && from[a].Live? && Forced(heap, start, From(a))
      modifies this`from, this`news, this`free, this`order, this`at
      ensures Ok(n) && Grows(old(View()), View())
      ensures View() == CopyOne(old(View()), a, heap[a])
      ensures p == old(free)
    {
      hide Inv, Grows, Forced;
      CopyKeeps(heap, start, View(), n, a);
      var o := from[a].obj;
      p := free;
      news := news[free := o];
      from := from[a := Forwarded(free)];
      order, at := order + [a], at + [free];
      free := free + Size(o);
    }

    /** Store `w` as word `j` of the copy `k`, which has not been scanned yet. */
    method StoreWord(p: nat, j: nat, w: Word, ghost n: nat, ghost k: nat)
      requires Ok(n) && n <= k < |order| && |order| == |at| && at[k] == p && order[k] in heap
      requires j < |heap[order[k]].words| && Done(from, heap[order[k]].words[j], w)
      modifies this`news
      ensures Ok(n) && p in old(news) && j < |old(news)[p].words| && news == old(news)[p := SetWord(old(news)[p], j, w)]
    {
      hide Inv, Fresh, Done, Forced, WfObj;
      FreshAt(heap, start, View(), n, k);
      ShapeOfFresh(from, heap[order[k]], news[p]);
      FreshSetWord(from, heap[order[k]], news[p], j, w);
      RewriteKeeps(heap, start, View(), n, k, SetWord(news[p], j, w));
      news := news[p := SetWord(news[p], j, w)];
    }

    predicate Listp(w: Word) { w.From? && w.addr in lists }

    /** Copy a cons, and then the conses reached by following cdrs, to consecutive addresses,
        until the cdr is not a from-space list or has been copied already. */
    method TransList(a: nat, ghost n: nat) returns (p: nat)
      requires Ok(n) && a in heap && a in from && from[a].Live? && a in lists && Forced(heap, start, From(a))
      modifies this`from, this`news, this`free, this`order, this`at
      ensures Ok(n) && Grows(old(View()), View())
      ensures a in from && from[a] == Forwarded(p)
    {
      hide Inv, Grows, Forced, WfObj, Fresh, Uncopied;
      ghost var s0 := View();
      Lengths(heap, start, s0, n);
      CdrOf(heap, start, s0, n, a);
      UncopiedShrinks(heap, start, s0, n, a);
      var cdr := from[a].obj.words[1];
      p := Transport(a, n);
      NewestCopy(heap, start, s0, n, a);
      ghost var k: nat := |at| - 1;
      var copy := p;
      while Listp(cdr)
        invariant Linearising(s0, a, p, n, k, copy, cdr)
        decreases Uncopied(heap, order)
      {
        if from[cdr.addr].Forwarded? {
          ghost var s1 := View();
          StoreWord(copy, 1, New(from[cdr.addr].to), n, k);
          StoredGrows(s0, s1, n, k, news[copy]);
          break;
        }
        copy, cdr := CopyNext(copy, cdr, s0, a, p, n, k);
        k := |at| - 1;
      }
    }

    /** The state of the loop: the conses from `a` on have been copied up to `copy`, whose object is the
        `k`th copied and whose cdr was `cdr`. */
    ghost predicate Linearising(s0: Space, a: nat, p: nat, n: nat, k: nat, copy: nat, cdr: Word)
      reads this
    {
      && Ok(n) && Grows(s0, View()) && |order| == |at| && from.Keys == heap.Keys
      && a in from && from[a] == Forwarded(p)
      && |s0.at| <= k < |at| && n <= k && at[k] == copy && order[k] in heap
      && |heap[order[k]].words| == 2 && cdr == heap[order[k]].words[1]
      && Forced(heap, start, cdr) && WfWord(heap, cdr)
    }

    /** Copy the cons that `cdr` points to and make it the cdr of the previous copy. */
    method CopyNext(copy: nat, cdr: Word, ghost s0: Space, ghost a: nat, ghost p: nat, ghost n: nat, ghost k: nat)
      returns (q: nat, next: Word)
      requires Linearising(s0, a, p, n, k, copy, cdr) && cdr.From? && cdr.addr in lists && from[cdr.addr].Live?
      requires forall p :: p in s0.news ==> p in s0.at
      modifies this`from, this`news, this`free, this`order, this`at
      ensures |at| > 0 && Linearising(s0, a, p, n, |at| - 1, q, next)
      ensures Uncopied(heap, order) < Uncopied(heap, old(order))
    {
      hide Inv, Grows, Forced, WfObj, Fresh, Uncopied;
      ghost var s1 := View();
      CdrOf(heap, start, s1, n, cdr.addr);
      UncopiedShrinks(heap, start, s1, n, cdr.addr);
      next := from[cdr.addr].obj.words[1];
      q := Transport(cdr.addr, n);
      ghost var s2 := View();
      NewestCopy(heap, start, s1, n, cdr.addr);
      GrowsTrans(s0, s1, s2);
      GrowsKeeps(s1, s2, a, k);
      StoreWord(copy, 1, New(q), n, k);
      StoredGrows(s0, s2, n, k, news[copy]);
    }

    lemma StoredGrows(s0: Space, s: Space, n: nat, k: nat, o: Obj)
      requires Inv(heap, start, s, n) && Grows(s0, s) && |s0.at| <= k < |s.at|
      requires forall p :: p in s0.news ==> p in s0.at
      ensures Grows(s0, Rewrite(s, k, o))
    {
      RewriteGrows(heap, s0, s, k, o);
    }

    /** Scavenge one word: the forwarding pointer if its object has moved, else move it. */
    method Scav1(w: Word, ghost n: nat) returns (w': Word)
      requires Ok(n) && MayScavenge(w)
      modifies this`from, this`news, this`free, this`order, this`at
      ensures Ok(n) && Grows(old(View()), View())
      ensures Done(from, w, w')
    {
      hide Inv, Grows, Forced, Fresh, WfObj;
      Lengths(heap, start, View(), n);
      if !w.From? {
        GrowsRefl(View());
        return w;
      }
      if from[w.addr].Forwarded? {
        GrowsRefl(View());
        return New(from[w.addr].to);
      }
      if w.addr in lists {
        var p := TransList(w.addr, n);
        w' := New(p);
      } else {
        ghost var s0 := View();
        var p := Transport(w.addr, n);
        NewestCopy(heap, start, s0, n, w.addr);
        w' := New(p);
      }
    }

    /** Scavenge the strong words of copy `n`, in place. */
    method ScavengeWords(p: nat, ghost n: nat)
      requires Ok(n) && n < |order| && |order| == |at| && at[n] == p
      modifies this`from, this`news, this`free, this`order, this`at
      ensures Ok(n) && Later(old(View()), View()) && n < |order| && |order| == |at| && p in news
      ensures Half(from, heap[order[n]], news[p], |news[p].words|)
    {
      hide Inv, Grows, Forced, Fresh, WfObj, Later, Half;
      ghost var s0 := View();
      FreshAt(heap, start, s0, n, n);
      ghost var o := heap[order[n]];
      ShapeOfFresh(from, o, news[p]);
      HalfStart(from, o, news[p]);
      LaterRefl(s0);
      var i := 0;
      while i < |news[p].words|
        invariant Ok(n) && Later(s0, View()) && n < |order| && |order| == |at| && p in news
        invariant at[n] == p && order[n] in heap && heap[order[n]] == o
        invariant Half(from, o, news[p], i) && i <= |news[p].words|
      {
        ghost var s1 := View();
        FreshAt(heap, start, s1, n, n);
        FreshWord(heap, start, s1, o, n, i);
        var w := Scav1(news[p].words[i], n);
        ghost var s2 := View();
        Lengths(heap, start, s2, n);
        HalfGrows(heap, s1, s2, o, p, n, i, w);
        StoreWord(p, i, w, n, n);
        LaterStep(s0, s1, s2, View());
        i := i + 1;
      }
    }

    /** Store entry `i` of the copy `n`, which is being scanned. */
    method StorePair(p: nat, i: nat, e: Pair, ghost n: nat)
      requires Ok(n) && n < |order| && |order| == |at| && at[n] == p && order[n] in heap
      requires i < |heap[order[n]].pairs| && DonePair(from, heap[order[n]].pairs[i], e)
      modifies this`news
      ensures Ok(n) && p in old(news) && i < |old(news)[p].pairs| && news == old(news)[p := SetPair(old(news)[p], i, e)]
    {
      hide Inv, Fresh, DonePair, Forced, WfObj;
      FreshAt(heap, start, View(), n, n);
      ShapeOfFresh(from, heap[order[n]], news[p]);
      FreshSetPair(from, heap[order[n]], news[p], i, e);
      RewriteKeeps(heap, start, View(), n, n, SetPair(news[p], i, e));
      news := news[p := SetPair(news[p], i, e)];
    }

    /** Arrange for `w` to be livened if `t` survives. Words that are not pointers are ignored. */
    method AddTrigger(t: Word, w: Word, ghost n: nat)
      requires Ok(n) && t.From? && TriggerOk(heap, start, t.addr, w)
      modifies this`triggers
      ensures Ok(n) && MoreTriggers(old(triggers), triggers) && Watched(from, triggers, t, w)
    {
      hide Inv, TriggerOk, MoreTriggers;
      WatchMore(triggers, t.addr, w);
      WatchKeeps(heap, start, View(), n, t.addr, w);
      MoreRefl(triggers);
      if !w.Imm? {
        triggers := Watch(triggers, t.addr, w);
      }
    }

    /** The entry `i` of the weak table copied to `p`, the entries before it dealt with. */
    ghost predicate AtEntry(p: nat, i: nat, n: nat, o: Obj, some: bool)
      reads this
    {
      && Ok(n) && n < |order| && |order| == |at| && at[n] == p && order[n] in heap && p in news && heap[order[n]] == o
      && o.kind.WeakTable? && (o.kind.byKey || o.kind.byValue) && i < |o.pairs| && i < |news[p].pairs|
      && news[p].kind == o.kind && PairsHalf(from, triggers, o, news[p], i, some)
      && (news[p].pairs[i] == o.pairs[i] || DonePair(from, o.pairs[i], news[p].pairs[i]))
    }

    /** Scavenge both halves of an entry found alive. */
    method ScavengeEntry(p: nat, i: nat, ghost n: nat, ghost o: Obj, ghost some: bool)
      requires AtEntry(p, i, n, o, some) && EntryAlive(from, o.kind, news[p].pairs[i])
      modifies this`from, this`news, this`free, this`order, this`at
      ensures Ok(n) && Later(old(View()), View()) && n < |order| && |order| == |at| && p in news
      ensures order[n] == old(order[n]) && at[n] == p
      ensures PairsHalf(from, triggers, o, news[p], i + 1, some) && news[p].words == old(news[p].words)
    {
      hide Inv, Grows, Forced, Fresh, WfObj, PairsHalf, TriggerOk, MoreTriggers;
      ghost var s0 := View();
      var e := news[p].pairs[i];
      AliveForced(heap, start, s0, n, n, i, e);
      DeferredOk(heap, start, s0, n, n, i);
      var k := Scav1(e.key, n);
      ghost var s1 := View();
      var v := Scav1(e.value, n);
      Lengths(heap, start, View(), n);
      EntryScavenged(s0, s1, View(), o, p, i, some, e, Pair(k, v), n);
      PairDone(from, triggers, o, news[p], i, some, Pair(k, v));
      StorePair(p, i, Pair(k, v), n);
    }

    /** Put off an entry not found alive: whichever half would keep it alive triggers the other. */
    method DeferEntry(p: nat, i: nat, ghost n: nat, ghost o: Obj, ghost some: bool)
      requires AtEntry(p, i, n, o, some) && !EntryAlive(from, o.kind, news[p].pairs[i])
      modifies this`triggers
      ensures Ok(n) && Later(old(View()), View()) && MoreTriggers(old(triggers), triggers)
      ensures PairsHalf(from, triggers, o, news[p], i + 1, true)
    {
      hide Inv, Grows, Forced, Fresh, WfObj, PairsHalf, TriggerOk, MoreTriggers;
      ghost var s0 := View();
      LaterRefl(s0);
      MoreRefl(triggers);
      DeferredOk(heap, start, s0, n, n, i);
      var e := news[p].pairs[i];
      if news[p].kind.byKey { AddTrigger(e.key, e.value, n); }
      ghost var t1 := triggers;
      if news[p].kind.byValue { AddTrigger(e.value, e.key, n); }
      MoreTrans(s0.triggers, t1, triggers);
      WatchedMore(from, t1, triggers, e.key, e.value);
      PairsHalfGrows(from, from, s0.triggers, triggers, o, news[p], i, some);
      PairDeferred(from, triggers, o, news[p], i, some);
    }

    /** Scavenge an entry found alive, or defer it: one round of the scan of a weak table. */
    method ScanEntry(p: nat, i: nat, ghost n: nat, ghost some: bool) returns (later: bool)
      requires Ok(n) && n < |order| && |order| == |at| && at[n] == p && order[n] in heap && p in news
      requires var o := heap[order[n]];
        o.kind.WeakTable? && (o.kind.byKey || o.kind.byValue) && i < |o.pairs| && PairsHalf(from, triggers, o, news[p], i, some)
      modifies this`from, this`news, this`free, this`order, this`at, this`triggers
      ensures Ok(n) && Later(old(View()), View()) && n < |order| && |order| == |at| && p in news
      ensures MoreTriggers(old(triggers), triggers)
      ensures PairsHalf(from, triggers, heap[order[n]], news[p], i + 1, some || later)
      ensures news[p].words == old(news[p].words)
    {
      hide Inv, Later, Forced, Fresh, WfObj, PairsHalf, MoreTriggers;
      ghost var o := heap[order[n]];
      LaterRefl(View());
      MoreRefl(triggers);
      PairAt(from, triggers, o, news[p], i, some);
      var e := news[p].pairs[i];
      if e.key.Imm? && e.value.Imm? {
        PairDone(from, triggers, o, news[p], i, some, e);
        assert SetPair(news[p], i, e) == news[p];
        return false;
      }
      if EntryAlive(from, news[p].kind, e) {
        ScavengeEntry(p, i, n, o, some);
        return false;
      }
      DeferEntry(p, i, n, o, some);
      later := true;
    }

    /** Scan the entries of a weak table whose strong words have been scavenged. A table with an
        entry put off, and any key-and-value table, is listed for culling. */
    method ScanTable(p: nat, ghost n: nat)
      requires Ok(n) && n < |order| && |order| == |at| && at[n] == p && order[n] in heap && p in news
      requires heap[order[n]].kind.WeakTable?
      requires Half(from, heap[order[n]], news[p], |heap[order[n]].words|)
      modifies this`from, this`news, this`free, this`order, this`at, this`triggers, this`deferred
      ensures Ok(n + 1) && Later(old(View()), View())
    {
      hide Inv, Grows, Forced, Fresh, WfObj, PairsHalf, MoreTriggers, Half, Scanned, Later;
      ghost var s0, o := View(), heap[order[n]];
      LaterRefl(s0);
      FreshAt(heap, start, s0, n, n);
      PairsStart(from, triggers, o, news[p]);
      KindOfHalf(from, o, news[p], |o.words|);
      var defer := true;
      if news[p].kind.byKey || news[p].kind.byValue {
        defer := false;
        var i := 0;
        while i < |news[p].pairs|
          invariant Ok(n) && Later(s0, View()) && n < |order| && |order| == |at| && at[n] == p && order[n] in heap
          invariant p in news && heap[order[n]] == o && news[p].kind == o.kind && |news[p].pairs| == |o.pairs|
          invariant i <= |o.pairs| && PairsHalf(from, triggers, o, news[p], i, defer)
          invariant Half(from, o, news[p], |o.words|) && deferred == old(deferred)
        {
          ghost var s1, o1 := View(), news[p];
          var later := ScanEntry(p, i, n, defer);
          LaterTrans(s0, s1, View());
          LaterAt(s1, View(), n);
          LaterHalf(s1, View(), o, o1, news[p], i + 1, defer || later);
          defer := defer || later;
          i := i + 1;
        }
      }
      if defer {
        ListKeeps(heap, start, View(), n, p);
        ghost var was := View();
        deferred := [p] + deferred;
        assert View() == was.(deferred := was.deferred + {p});
        LaterOnlyList(s0, was, View());
      }
      WholeScan(from, triggers, p in View().deferred, o, news[p], defer);
      ScanStep(heap, start, View(), n);
    }

    /** Scan one object of new space. */
    method ScanObject(p: nat, ghost n: nat)
      requires Ok(n) && n < |order| && |order| == |at| && at[n] == p
      modifies this`from, this`news, this`free, this`order, this`at, this`triggers, this`deferred
      ensures Ok(n + 1) && Later(old(View()), View())
    {
      hide Inv, Grows, Forced, Fresh, Half, Scanned, Later;
      ghost var s0 := View();
      FreshAt(heap, start, s0, n, n);
      ScavengeWords(p, n);
      ghost var s1 := View();
      LaterAt(s0, s1, n);
      ghost var o := heap[order[n]];
      KindOfHalf(from, o, news[p], |news[p].words|);
      if news[p].kind.WeakTable? {
        ScanTable(p, n);
        LaterTrans(s0, s1, View());
      } else {
        PlainScan(from, triggers, p in View().deferred, o, news[p]);
        ScanStep(heap, start, View(), n);
      }
    }

    /** Scan the objects from address `here` to address `end`, stepping by their sizes. The walk
        meets `end` exactly. */
    method HeapScavenge(here: nat, end: nat, ghost n: nat, ghost m: nat)
      requires Ok(n) && n <= m <= |at| && here == Pos(View(), n) && end == Pos(View(), m)
      modifies this`from, this`news, this`free, this`order, this`at, this`triggers, this`deferred
      ensures Ok(m) && Later(old(View()), View()) && end == Pos(View(), m)
    {
      hide Inv, Later, Size;
      ghost var s0 := View();
      LaterRefl(s0);
      var ptr := here;
      ghost var i := n;
      PosOrder(heap, start, s0, n, i, m);
      while ptr < end
        invariant n <= i <= m && m <= |at| && Ok(i) && Later(s0, View())
        invariant ptr == Pos(View(), i) && end == Pos(View(), m)
        invariant i < m <==> ptr < end
        decreases m - i
      {
        ghost var s1 := View();
        Lengths(heap, start, s1, i);
        PosNext(heap, start, s1, i, i);
        var size := Size(news[ptr]);
        ScanObject(ptr, i);
        LaterTrans(s0, s1, View());
        Positions(heap, start, s1, i, View(), i + 1, i + 1);
        Positions(heap, start, s1, i, View(), i + 1, m);
        ptr := ptr + size;
        i := i + 1;
        PosOrder(heap, start, View(), i, i, m);
      }
    }

    /** Scavenge every word that the surviving `t` livens, without storing the results, and drop the trigger. */
    method LivenAll(t: nat, ghost n: nat)
      requires Ok(n) && t in triggers && Survived(from, From(t))
      modifies this`from, this`news, this`free, this`order, this`at, this`triggers
      ensures Ok(n) && Later(old(View()), View()) && triggers == old(triggers) - {t}
    {
      hide Inv, Later, Grows, Forced;
      ghost var s0 := View();
      var livened := triggers[t];
      GrowsRefl(s0);
      var i := 0;
      while i < |livened|
        invariant Ok(n) && i <= |livened| && Grows(s0, View()) && triggers == s0.triggers
        invariant forall j :: 0 <= j < i ==> Survived(from, livened[j])
      {
        ghost var s1 := View();
        LivenedForced(heap, start, s0, s1, n, t, i);
        var _ := Scav1(livened[i], n);
        GrowsTrans(s0, s1, View());
        SurvivalGrows(s1, View());
        i := i + 1;
      }
      ghost var s2 := View();
      DropKeeps(heap, start, s2, n, t);
      triggers := triggers - {t};
      GrowsLater(s0, s2, View());
    }

    /** Liven what each surviving trigger watches, visiting the triggers in any order. */
    method TestWeakTriggers(ghost n: nat) returns (changed: bool)
      requires Ok(n)
      modifies this`from, this`news, this`free, this`order, this`at, this`triggers
      ensures Ok(n) && Later(old(View()), View())
      ensures order == old(order) ==> Quiet(from, triggers)
      ensures !changed ==> order == old(order)
    {
      hide Inv, Later, Grows, Forced;
      ghost var s0 := View();
      LaterRefl(s0);
      var pending := triggers.Keys;
      changed := false;
      while pending != {}
        invariant Ok(n) && Later(s0, View()) && pending <= triggers.Keys
        invariant order == s0.order ==> from == s0.from && forall t :: t in triggers && t !in pending ==> !Survived(from, From(t))
        invariant !changed ==> order == s0.order
      {
        var t :| t in pending;
        pending := pending - {t};
        if Survived(from, From(t)) {
          ghost var s1 := View();
          LivenAll(t, n);
          LaterTrans(s0, s1, View());
          SameOrder(heap, start, s0, s1, View(), n);
          changed := true;
        }
      }
    }

    /** Scan from `here` until the scan catches up with the bump pointer. */
    method CatchUp(here: nat, ghost n: nat) returns (end: nat)
      requires Ok(n) && n <= |at| && here == Pos(View(), n)
      modifies this`from, this`news, this`free, this`order, this`at, this`triggers, this`deferred
      ensures Ok(|order|) && Later(old(View()), View()) && end == free && |at| == |order|
    {
      hide Inv, Later;
      ghost var s0, k := View(), n;
      LaterRefl(s0);
      Lengths(heap, start, s0, n);
      end := free;
      HeapScavenge(here, end, k, |at|);
      k := |s0.at|;
      ghost var s1 := View();
      Caught(heap, start, s1, k);
      while free > end
        invariant Ok(k) && Later(s0, View()) && k <= |at| == |order| <= |heap| && end == Pos(View(), k)
        invariant k < |at| <==> free > end
        decreases |heap| - k
      {
        s1 := View();
        ghost var m := |at|;
        var next := free;
        HeapScavenge(end, next, k, m);
        end, k := next, m;
        LaterTrans(s0, s1, View());
        Caught(heap, start, View(), k);
      }
    }

    /** Scan new space to a fixed point: after the last round there is nothing left to scan and no
        surviving trigger left to fire. */
    method ScavengeNewspace()
      requires Ok(0)
      modifies this`from, this`news, this`free, this`order, this`at, this`triggers, this`deferred
      ensures Ok(|order|) && Later(old(View()), View()) && Quiet(from, triggers)
    {
      hide Inv, Later, Quiet;
      ghost var s0 := View();
      StartPos(heap, start, s0);
      var here := CatchUp(0, 0);
      ghost var s1, n := View(), |order|;
      var changed := TestWeakTriggers(n);
      LaterTrans(s0, s1, View());
      Fired(heap, start, s1, View(), n);
      while changed && free > here
        invariant Ok(n) && Later(s0, View()) && n <= |at| == |order| <= |heap| && here == Pos(View(), n)
        invariant free > here <==> n < |at|
        invariant n == |at| || !changed ==> Quiet(from, triggers) && n == |order|
        decreases |heap| - n
      {
        s1 := View();
        here := CatchUp(here, n);
        ghost var s2 := View();
        LaterAt(s1, s2, n);
        n := |order|;
        LaterTrans(s0, s1, s2);
        changed := TestWeakTriggers(n);
        LaterTrans(s0, s2, View());
        Fired(heap, start, s2, View(), n);
      }
    }

    /** Cull one entry of the table at `p`: follow the forwarding pointers of a live one; empty a dead
        one and push a cell with its index and bucket, one or two conses, onto the table's list. */
    method CullEntry(p: nat, i: nat, bucket: nat, ghost o: Obj, ghost lo: nat, ghost news0: Heap, ghost free0: nat,
                     ghost cells0: seq<W.CulledCell>, ghost cells: seq<W.CulledCell>, ghost done: set<nat>)
      returns (ghost cells': seq<W.CulledCell>)
      requires TableOk(from, o, lo, news, free, p, cells, done) && Extended(p, news0, free0, cells0, news, free, cells)
      requires bucket < |o.kind.chains| && i in o.kind.chains[bucket] && i < |o.pairs|
      modifies this`news, this`free
      ensures TableOk(from, o, lo, news, free, p, cells', done + {i}) && Extended(p, news0, free0, cells0, news, free, cells')
    {
      hide CulledTo, ListAt, Extended, Spots, W.PackCell;
      TableShape(from, o, news[p], cells, done);
      cells' := cells;
      var e := news[p].pairs[i];
      if e == EmptyPair {
        CullLiveKeeps(from, o, lo, news0, free0, cells0, news, free, p, cells, done, i);
      } else if !EntryAlive(from, news[p].kind, e) {
        CullDeadKeeps(from, o, lo, news0, free0, cells0, news, free, p, cells, done, i, bucket);
        var cell := W.PackCell(i, bucket);
        var table := SetWord(SetPair(news[p], i, EmptyPair), 0, New(free));
        news := Allocate(news, free, cell, news[p].words[0]);
        news := news[p := table];
        free := free + CellWords(cell);
        cells' := [cell] + cells;
      } else {
        CullLiveKeeps(from, o, lo, news0, free0, cells0, news, free, p, cells, done, i);
        news := news[p := SetPair(news[p], i, Pair(Image(from, e.key), Image(from, e.value)))];
      }
    }

    /** Cull the entries of one bucket, in the order of its chain. */
    method CullBucket(p: nat, bucket: nat, ghost o: Obj, ghost lo: nat, ghost news0: Heap, ghost free0: nat,
                      ghost cells0: seq<W.CulledCell>, ghost cells: seq<W.CulledCell>, ghost done: set<nat>)
      returns (ghost cells': seq<W.CulledCell>)
      requires TableOk(from, o, lo, news, free, p, cells, done) && Extended(p, news0, free0, cells0, news, free, cells)
      requires p in news && o.kind.WeakTable? && news[p].kind == o.kind && bucket < |o.kind.chains|
      requires forall i :: i in o.kind.chains[bucket] ==> i < |o.pairs|
      modifies this`news, this`free
      ensures TableOk(from, o, lo, news, free, p, cells', done + W.CellsOf(o.kind.chains[bucket]))
      ensures Extended(p, news0, free0, cells0, news, free, cells')
    {
      hide TableOk, Extended, W.CellsOf;
      var chain := news[p].kind.chains[bucket];
      cells' := cells;
      W.NoCells(done, chain);
      var j := 0;
      while j < |chain|
        invariant j <= |chain| && TableOk(from, o, lo, news, free, p, cells', done + W.CellsOf(chain[..j]))
        invariant Extended(p, news0, free0, cells0, news, free, cells')
      {
        assert chain[j] in chain;
        W.CellsGrow(done, chain, j);
        cells' := CullEntry(p, chain[j], bucket, o, lo, news0, free0, cells0, cells', done + W.CellsOf(chain[..j]));
        j := j + 1;
      }
      assert chain[..j] == chain;
    }

    /** Cull one table, bucket by bucket. */
    method CullTable(p: nat, ghost o: Obj, ghost lo: nat, ghost cells: seq<W.CulledCell>, ghost done: set<nat>)
      returns (ghost cells': seq<W.CulledCell>)
      requires TableOk(from, o, lo, news, free, p, cells, done) && Bucketed(o.kind.chains, o.pairs) && done <= AllCells(o.kind)
      modifies this`news, this`free
      ensures TableOk(from, o, lo, news, free, p, cells', AllCells(o.kind))
      ensures Extended(p, old(news), old(free), cells, news, free, cells')
    {
      hide CulledTo, ListAt, Extended, Spots;
      ghost var chains := o.kind.chains;
      TableShape(from, o, news[p], cells, done);
      ExtendedRefl(p, news, free, cells);
      var n := |news[p].kind.chains|;
      cells' := cells;
      var b := 0;
      assert done + W.CellsUpTo(chains, 0) == done;
      while b < n
        invariant b <= n == |chains| && TableOk(from, o, lo, news, free, p, cells', done + W.CellsUpTo(chains, b))
        invariant Extended(p, old(news), old(free), cells, news, free, cells')
      {
        TableShape(from, o, news[p], cells', done + W.CellsUpTo(chains, b));
        BucketInside(chains, o.pairs, b);
        BucketNext(done, chains, b);
        cells' := CullBucket(p, b, o, lo, old(news), old(free), cells, cells', done + W.CellsUpTo(chains, b));
        b := b + 1;
      }
      assert done + W.CellsUpTo(chains, b) == AllCells(o.kind);
    }

    /** Remove the dead entries of the listed tables and follow the forwarding pointers of the rest. */
    method CullTables() returns (ghost lists: seq<seq<W.CulledCell>>)
      requires Ok(|order|) && Quiet(from, triggers)
      modifies this`news, this`free
      ensures Culling(heap, old(View()), news, free, {}, lists)
    {
      hide Inv, Quiet, Culling, TableOk, Extended, Tiled;
      ghost var s0 := View();
      lists := seq(|at|, _ => []);
      CullStart(heap, start, s0, lists);
      var i := 0;
      ghost var rest := s0.deferred;
      while i < |deferred|
        invariant i <= |deferred| && Culling(heap, s0, news, free, rest, lists)
        invariant forall p :: p in rest ==> p in deferred[i..]
      {
        var p := deferred[i];
        assert p in s0.deferred;
        ghost var k := CullIndex(heap, start, s0, news, free, rest, lists, p);
        ghost var news1, free1 := news, free;
        TableBuckets(heap, heap[order[k]]);
        ghost var cells := CullTable(p, heap[order[k]], s0.free, lists[k], DoneSet(heap[order[k]], p in rest));
        CulledTogether(heap, start, s0, news1, free1, rest, lists, k, news, free, cells);
        lists := lists[k := cells];
        RestStep(deferred, i, rest);
        rest := rest - {p};
        i := i + 1;
      }
      assert rest == {};
    }

    constructor (ghost heap: Heap, from: map<nat, Cell>, lists: set<nat>, roots: seq<Word>)
      requires WfHeap(heap) && from == map a | a in heap :: Live(heap[a])
      requires forall i :: 0 <= i < |roots| ==> WfWord(heap, roots[i])
      requires forall a :: a in heap ==> (a in lists <==> heap[a].kind.ConsCell?)
      ensures this.heap == heap && start == roots && this.roots == roots && Ok(0) && order == []
    {
      this.heap, this.start, this.lists := heap, roots, lists;
      this.from, this.news, this.free, this.triggers, this.deferred, this.roots := from, map[], 0, map[], [], roots;
      this.order, this.at := [], [];
    }

    /** Scavenge the roots, then new space, then cull: the whole collection. */
    method CollectGarbage() returns (ghost lists: seq<seq<W.CulledCell>>)
      requires Ok(0) && order == [] && roots == start && forall i :: 0 <= i < |start| ==> WfWord(heap, start[i])
      modifies this
      ensures Collected(heap, start, from, news, free, roots, order, lists)
    {
      hide Inv, Grows, Later, Quiet, Culling, Forced, Collected;
      var i := 0;
      ghost var s0 := View();
      LaterRefl(s0);
      while i < |roots|
        invariant Ok(0) && i <= |roots| == |start|
        invariant forall j :: 0 <= j < i ==> Done(from, start[j], roots[j])
        invariant forall j :: i <= j < |roots| ==> roots[j] == start[j]
      {
        ghost var s1 := View();
        RootForced(heap, start, i);
        var w := Scav1(roots[i], 0);
        DoneGrows(s1, View());
        roots := roots[i := w];
        i := i + 1;
      }
      ghost var s2 := View();
      ScavengeNewspace();
      DoneLater(s2, View());
      ghost var s3 := View();
      lists := CullTables();
      Finish(heap, start, s3, news, free, roots, lists);
    }
  }
}
