/**
 What every step of the index keeps: ownership, bindings, the counter.
 */
module IndexInvariant {
  import opened Wrappers
  import opened Index

  // ---------- Sizes of the lists ----------

  lemma {:induction false} TotalSplit<E>(lists: map<int, seq<E>>, t: int)
    requires t in lists
    ensures Total(lists) == |lists[t]| + Total(lists - {t})
    decreases |lists|
  {
    var u := AnyKey(lists);
    if u != t {
      TotalSplit(lists - {u}, t);
      TotalSplit(lists - {t}, u);
      assert lists - {u} - {t} == lists - {t} - {u};
    }
  }

  lemma TotalUpdate<E>(lists: map<int, seq<E>>, t: int, q: seq<E>)
    ensures Total(lists[t := q]) == Total(lists) - (if t in lists then |lists[t]| else 0) + |q|
  {
    var m := lists[t := q];
    TotalSplit(m, t);
    assert m - {t} == lists - {t};
    if t in lists {
      TotalSplit(lists, t);
    } else {
      assert lists - {t} == lists;
    }
  }

  /** An element is scheduled in a list as soon as one list has it. */
  lemma InListSet<E>(lists: map<int, seq<E>>, t: int, e: E)
    requires t in lists && e in lists[t]
    ensures e in ListSet(lists)
  {
  }

  lemma ListSetSplit<E>(lists: map<int, seq<E>>, t: int)
    requires t in lists
    ensures ListSet(lists) == (set e | e in lists[t]) + ListSet(lists - {t})
  {
    forall e | e in ListSet(lists) && e !in lists[t] ensures e in ListSet(lists - {t}) {
      var u :| u in lists && e in lists[u];
      InListSet(lists - {t}, u, e);
    }
    forall e | e in ListSet(lists - {t}) ensures e in ListSet(lists) {
      var u :| u in lists - {t} && e in (lists - {t})[u];
      InListSet(lists, u, e);
    }
    forall e | e in lists[t] ensures e in ListSet(lists) {
      InListSet(lists, t, e);
    }
  }

  lemma {:induction false} TotalBounds<E>(lists: map<int, seq<E>>)
    ensures |ListSet(lists)| <= Total(lists)
    decreases |lists|
  {
    if lists != map[] {
      var t := AnyKey(lists);
      TotalSplit(lists, t);
      TotalBounds(lists - {t});
      var s := set e | e in lists[t];
      SeqSetSize(lists[t]);
      ListSetSplit(lists, t);
    }
  }

  lemma {:induction false} SeqSetSize<E>(q: seq<E>)
    ensures |set e | e in q| <= |q|
  {
    if q != [] {
      SeqSetSize(q[1..]);
      assert (set e | e in q) == {q[0]} + (set e | e in q[1..]);
    }
  }

  // ---------- Steps ----------

  lemma ChanAppend<E>(chan: seq<Msg<E>>, m: Msg<E>)
    requires ChanNoDup(chan) && m.entry !in ChanSet(chan)
    ensures ChanNoDup(chan + [m])
    ensures ChanSet(chan + [m]) == ChanSet(chan) + {m.entry}
  {
    forall i | 0 <= i < |chan| ensures chan[i].entry != m.entry {
      assert chan[i] in chan;
    }
  }

  lemma SetOwned<E, V>(s: State<E, V>, e: E, k: Key, v: V, ttl: int)
    requires Owned(s) && Obtainable(s, e)
    ensures Owned(Set(s, e, k, v, ttl))
    ensures Sched(Set(s, e, k, v, ttl)) == Sched(s) + {e}
    ensures e !in Sched(s)
  {
    ChanAppend(s.chan, Msg(ttl, e));
  }

  lemma SetKeeps<E, V>(s: State<E, V>, e: E, k: Key, v: V, ttl: int)
    requires Inv(s) && Obtainable(s, e)
    ensures Inv(Set(s, e, k, v, ttl))
    ensures Sched(Set(s, e, k, v, ttl)) == Sched(s) + {e}
  {
    var s' := Set(s, e, k, v, ttl);
    SetOwned(s, e, k, v, ttl);
    forall f | f in Sched(s) + s.pool - {e} ensures At(s', f) == At(s, f) {
    }
    assert Bound(s');
  }

  lemma RemoveByKeyKeeps<E, V>(s: State<E, V>, k: Key)
    requires Inv(s)
    ensures Inv(RemoveByKey(s, k))
  {
    var s' := RemoveByKey(s, k);
    assert Sched(s') == Sched(s);
  }

  lemma HitKeeps<E, V>(s: State<E, V>, e: E, k: Key, v: V, ttl: int)
    requires Inv(s) && k in s.items
    ensures Inv(Swap(s, e, k, v, ttl))
  {
    assert Sched(Swap(s, e, k, v, ttl)) == Sched(s);
  }

  lemma SwapKeeps<E, V>(s: State<E, V>, e: E, k: Key, v: V, ttl: int)
    requires Inv(s) && (k in s.items || Obtainable(s, e))
    ensures Inv(Swap(s, e, k, v, ttl))
  {
    if k in s.items {
      HitKeeps(s, e, k, v, ttl);
    } else {
      SetKeeps(s, e, k, v, ttl);
    }
  }

  lemma RecvKeeps<E, V>(s: State<E, V>)
    requires Inv(s)
    ensures Inv(Recv(s)) && Sched(Recv(s)) == Sched(s)
  {
    if s.chan != [] {
      var s' := Recv(s);
      var t, e := ListTtl(s.chan[0].ttl), s.chan[0].entry;
      ChanTail(s.chan);
      ListSetAppend(s.lists, t, e);
      TotalUpdate(s.lists, t, s'.lists[t]);
      assert Sched(s') == Sched(s);
      assert Counted(s');
      assert Owned(s');
    }
  }

  lemma ChanTail<E>(chan: seq<Msg<E>>)
    requires chan != [] && ChanNoDup(chan)
    ensures ChanSet(chan) == {chan[0].entry} + ChanSet(chan[1..])
    ensures chan[0].entry !in ChanSet(chan[1..])
    ensures ChanNoDup(chan[1..])
  {
    assert chan == [chan[0]] + chan[1..];
  }

  lemma ListSetAppend<E>(lists: map<int, seq<E>>, t: int, e: E)
    requires ListsDisjoint(lists) && e !in ListSet(lists)
    ensures ListsDisjoint(lists[t := (if t in lists then lists[t] else []) + [e]])
    ensures ListSet(lists[t := (if t in lists then lists[t] else []) + [e]]) == ListSet(lists) + {e}
  {
    var q := (if t in lists then lists[t] else []) + [e];
    var m := lists[t := q];
    ListSetSplit(m, t);
    assert m - {t} == lists - {t};
    if t in lists {
      ListSetSplit(lists, t);
    } else {
      assert lists - {t} == lists;
    }
    forall u | u in lists ensures e !in lists[u] {
      if e in lists[u] { InListSet(lists, u, e); }
    }
  }

  /** Lists that are disjoint stay so when an empty one joins them. */
  lemma NewListEmpty<E>(lists: map<int, seq<E>>, t: int)
    requires ListsDisjoint(lists)
    ensures t !in lists ==> ListsDisjoint(lists[t := []]) && ListSet(lists[t := []]) == ListSet(lists)
  {
    if t !in lists {
      ListSetSplit(lists[t := []], t);
      assert lists[t := []] - {t} == lists;
    }
  }

  lemma OthersApart<E>(lists: map<int, seq<E>>, t: int)
    requires ListsDisjoint(lists) && t in lists
    ensures forall u :: u in lists && u != t ==> forall f :: f in lists[u] ==> f !in lists[t]
  {
  }

  lemma ListsApart<E>(lists: map<int, seq<E>>, t: int, e: E)
    requires ListsDisjoint(lists) && t in lists && e !in ListSet(lists)
    ensures forall u :: u in lists ==> e !in lists[u] && (u != t ==> forall f :: f in lists[u] ==> f !in lists[t])
  {
    forall u | u in lists ensures e !in lists[u] {
      if e in lists[u] { InListSet(lists, u, e); }
    }
  }

  /** Bound, waiting and pooled entries are all known. */
  lemma KnownEntries<E, V>(s: State<E, V>)
    requires Inv(s)
    ensures s.pool <= s.heap.Keys
    ensures forall k :: k in s.items ==> s.items[k] in s.heap
  {
  }

  lemma ReceiveFacts<E, V>(s: State<E, V>, t: int)
    requires Inv(s) && s.chan != []
    ensures s.chan[0].entry in s.heap && s.chan[0].entry !in ListSet(s.lists)
    ensures ListsDisjoint(s.lists)
    ensures forall e :: e in ListAt(s, t) ==> e in s.heap
  {
    ChanTail(s.chan);
    forall e | e in ListAt(s, t) ensures e in s.heap {
      InListSet(s.lists, t, e);
    }
  }

  lemma ListSetDrop<E>(lists: map<int, seq<E>>, t: int)
    requires ListsDisjoint(lists) && t in lists && lists[t] != []
    ensures ListsDisjoint(lists[t := lists[t][1..]])
    ensures ListSet(lists[t := lists[t][1..]]) == ListSet(lists) - {lists[t][0]}
    ensures lists[t][0] in ListSet(lists)
  {
    var e, q := lists[t][0], lists[t][1..];
    var m := lists[t := q];
    assert lists[t] == [e] + q;
    InListSet(lists, t, e);
    ListSetSplit(m, t);
    assert m - {t} == lists - {t};
    ListSetSplit(lists, t);
    assert e !in ListSet(lists - {t});
  }

  lemma ReapFacts<E, V>(s: State<E, V>, t: int)
    requires Inv(s) && ListAt(s, t) != []
    ensures ListsDisjoint(s.lists) && forall e :: e in s.lists[t] ==> e in s.heap
    ensures At(s, s.lists[t][0]).key.Some?
  {
    forall e | e in s.lists[t] ensures e in Sched(s) {
      InListSet(s.lists, t, e);
    }
  }

  lemma ReapKeeps<E, V>(s: State<E, V>, t: int)
    requires Inv(s) && ListAt(s, t) != []
    ensures Inv(Reap(s, t))
  {
    var s' := Reap(s, t);
    var e := s.lists[t][0];
    ListSetDrop(s.lists, t);
    TotalUpdate(s.lists, t, s'.lists[t]);
    assert Sched(s') == Sched(s) - {e};
    forall k | k in s'.items
      ensures s'.items[k] in Sched(s') && At(s', s'.items[k]) == At(s, s.items[k])
    {
      assert At(s, s.items[k]).key == Some(k);
    }
  }

  lemma VisitKeeps<E, V>(s: State<E, V>, t: int)
    requires Inv(s)
    ensures Inv(Visit(s, t))
  {
    if Reaps(s, t) {
      ReapKeeps(s, t);
    }
  }

  /** The invariant does not look at the clock or at what was evicted. */
  lemma SameKeeps<E, V>(s: State<E, V>, s': State<E, V>)
    requires Inv(s)
    requires s'.items == s.items && s'.n == s.n && s'.chan == s.chan && s'.lists == s.lists
    requires s'.heap == s.heap && s'.pool == s.pool
    ensures Inv(s')
  {
    assert Sched(s') == Sched(s);
  }

  lemma StepKeeps<E, V>(s: State<E, V>, a: Action<E, V>)
    requires Inv(s) && Enabled(s, a)
    ensures Inv(Step(s, a))
  {
    match a
    case DoSet(e, k, v, ttl) => SetKeeps(s, e, k, v, ttl);
    case DoSwap(e, k, v, ttl) => SwapKeeps(s, e, k, v, ttl);
    case DoRemove(k) => RemoveByKeyKeeps(s, k);
    case DoRecv => RecvKeeps(s);
    case DoVisit(t) => VisitKeeps(s, t);
    case DoTick(d) => SameKeeps(s, Step(s, a));
  }

  lemma {:induction false} SweepKeeps<E, V>(s: State<E, V>, ks: seq<int>)
    requires Inv(s)
    ensures Inv(Sweep(s, ks))
    decreases |ks|
  {
    if ks != [] {
      VisitKeeps(s, Whole(ks[0]));
      SweepKeeps(Visit(s, Whole(ks[0])), ks[1..]);
    }
  }

  // ---------- Over all runs ----------

  lemma InitInv<E, V>(now: int, notify: bool)
    ensures Inv(Init<E, V>(now, notify))
  {
  }

  /** Ownership, bindings and the counter hold in every reachable state. */
  lemma {:induction false} Reachable<E, V>(now: int, notify: bool, acts: seq<Action<E, V>>)
    requires Allowed(Init<E, V>(now, notify), acts)
    ensures Inv(Run(Init<E, V>(now, notify), acts))
  {
    if acts != [] {
      Reachable(now, notify, acts[..|acts| - 1]);
      StepKeeps(Run(Init<E, V>(now, notify), acts[..|acts| - 1]), acts[|acts| - 1]);
    }
  }

  /** Two keys are never bound to one entry, so the map is no larger than the counter. */
  lemma BoundSize<E, V>(s: State<E, V>)
    requires Inv(s)
    ensures |s.items| <= |Sched(s)| <= s.n
  {
    InjectiveSize(s.items, Sched(s));
    TotalBounds(s.lists);
    ChanSize(s.chan);
  }

  lemma {:induction false} ChanSize<E>(chan: seq<Msg<E>>)
    ensures |ChanSet(chan)| <= |chan|
  {
    if chan != [] {
      ChanSize(chan[1..]);
      assert chan == [chan[0]] + chan[1..];
      assert ChanSet(chan) == {chan[0].entry} + ChanSet(chan[1..]);
    }
  }

  lemma {:induction false} InjectiveSize<E>(m: map<Key, E>, image: set<E>)
    requires forall k :: k in m ==> m[k] in image
    requires forall j, k :: j in m && k in m && m[j] == m[k] ==> j == k
    ensures |m| <= |image|
    decreases |m|
  {
    if m.Keys != {} {
      var k :| k in m.Keys;
      InjectiveSize(m - {k}, image - {m[k]});
    }
  }
}
