/**
 The index against a plain map: what Get returns after any run, when it hits, and when an
 unexpired binding is lost because entries are deleted by key.
 */
module IndexHistory {
  import opened Wrappers
  import opened Index
  import opened IndexInvariant

  function Get<E, V>(s: State<E, V>, k: Key): Option<V> {
    if k in s.items then At(s, s.items[k]).val else None
  }

  predicate Writes<E, V>(a: Action<E, V>, k: Key) {
    (a.DoSet? || a.DoSwap?) && a.k == k
  }

  /** The value of the last Set or Swap of k that no RemoveByKey of k follows. */
  function Latest<E, V>(acts: seq<Action<E, V>>, k: Key): Option<V> {
    if acts == [] then
      None
    else
      var a := acts[|acts| - 1];
      if Writes(a, k) then Some(a.v)
      else if a.DoRemove? && a.k == k then None
      else Latest(acts[..|acts| - 1], k)
  }

  /** True when step a in state s unbinds k. */
  predicate Drops<E, V>(s: State<E, V>, a: Action<E, V>, k: Key) {
    || (a.DoRemove? && a.k == k)
    || (a.DoVisit? && Reaps(s, a.t) && At(s, ListAt(s, a.t)[0]).key == Some(k))
  }

  lemma SetGet<E, V>(s: State<E, V>, e: E, j: Key, v: V, ttl: int, k: Key)
    requires Inv(s) && Obtainable(s, e)
    ensures k in Set(s, e, j, v, ttl).items <==> k == j || k in s.items
    ensures Get(Set(s, e, j, v, ttl), j) == Some(v)
    ensures k != j && k in s.items ==>
              At(Set(s, e, j, v, ttl), Set(s, e, j, v, ttl).items[k]) == At(s, s.items[k])
  {
    if k in s.items {
      assert s.items[k] in Sched(s);
    }
  }

  lemma RemoveGet<E, V>(s: State<E, V>, j: Key, k: Key)
    requires Inv(s) && j in s.items && k in s.items
    ensures k != j ==> At(RemoveByKey(s, j), s.items[k]) == At(s, s.items[k])
  {
    assert At(s, s.items[j]).key == Some(j);
    assert At(s, s.items[k]).key == Some(k);
  }

  lemma HitGet<E, V>(s: State<E, V>, e: E, j: Key, v: V, ttl: int, k: Key)
    requires Inv(s) && j in s.items
    ensures Swap(s, e, j, v, ttl).items == s.items
    ensures Get(Swap(s, e, j, v, ttl), j) == Some(v)
    ensures k != j && k in s.items ==>
              At(Swap(s, e, j, v, ttl), s.items[k]) == At(s, s.items[k])
  {
    assert At(s, s.items[j]).key == Some(j);
    if k in s.items {
      assert At(s, s.items[k]).key == Some(k);
    }
  }

  lemma VisitGet<E, V>(s: State<E, V>, t: int, k: Key)
    requires Inv(s)
    ensures k in Visit(s, t).items <==> k in s.items && !Drops(s, DoVisit(t), k)
    ensures k in Visit(s, t).items ==> At(Visit(s, t), s.items[k]) == At(s, s.items[k])
    ensures Visit(s, t).items.Keys <= s.items.Keys
    ensures forall j :: j in Visit(s, t).items ==> Visit(s, t).items[j] == s.items[j]
  {
    if k in s.items {
      assert At(s, s.items[k]).key == Some(k);
    }
    if Reaps(s, t) {
      InListSet(s.lists, t, s.lists[t][0]);
    }
  }

  lemma StepGet<E, V>(s: State<E, V>, a: Action<E, V>, k: Key)
    requires Inv(s) && Enabled(s, a)
    ensures k in Step(s, a).items <==> Writes(a, k) || (k in s.items && !Drops(s, a, k))
    ensures Writes(a, k) ==> Get(Step(s, a), k) == Some(a.v)
    ensures !Writes(a, k) && k in Step(s, a).items ==>
              At(Step(s, a), Step(s, a).items[k]) == At(s, s.items[k])
  {
    match a
    case DoSet(e, j, v, ttl) => SetGet(s, e, j, v, ttl, k);
    case DoSwap(e, j, v, ttl) =>
      if j in s.items { HitGet(s, e, j, v, ttl, k); } else { SetGet(s, e, j, v, ttl, k); }
    case DoRemove(j) => if j in s.items && k in s.items { RemoveGet(s, j, k); }
    case DoRecv =>
    case DoVisit(t) => VisitGet(s, t, k);
    case DoTick(d) =>
  }

  /** After any run a Get misses or returns exactly what a plain map would hold. */
  lemma {:induction false} MapRefinement<E, V>(now: int, notify: bool, acts: seq<Action<E, V>>, k: Key)
    requires Allowed(Init<E, V>(now, notify), acts)
    ensures var got := Get(Run(Init(now, notify), acts), k);
            got.None? || got == Latest(acts, k)
  {
    if acts != [] {
      var before := acts[..|acts| - 1];
      MapRefinement(now, notify, before, k);
      Reachable(now, notify, before);
      StepGet(Run(Init(now, notify), before), acts[|acts| - 1], k);
    }
  }

  /** No step after position i unbinds k. */
  predicate KeptSince<E, V>(s: State<E, V>, acts: seq<Action<E, V>>, k: Key, i: int) {
    acts == [] || |acts| <= i + 1 ||
    (var before := acts[..|acts| - 1];
     KeptSince(s, before, k, i) && !Drops(Run(s, before), acts[|acts| - 1], k))
  }

  /** Some step wrote k and none after it unbound k. */
  predicate Written<E, V>(s: State<E, V>, acts: seq<Action<E, V>>, k: Key) {
    exists i :: 0 <= i < |acts| && Writes(acts[i], k) && KeptSince(s, acts, k, i)
  }

  lemma WrittenStep<E, V>(s: State<E, V>, acts: seq<Action<E, V>>, k: Key)
    requires acts != []
    ensures var before := acts[..|acts| - 1];
            Written(s, acts, k) <==>
            Writes(acts[|acts| - 1], k) || (Written(s, before, k) && !Drops(Run(s, before), acts[|acts| - 1], k))
  {
    var n := |acts| - 1;
    var before := acts[..n];
    if Writes(acts[n], k) {
      assert KeptSince(s, acts, k, n);
    } else if Written(s, acts, k) {
      var i :| 0 <= i < |acts| && Writes(acts[i], k) && KeptSince(s, acts, k, i);
      assert Writes(before[i], k) && KeptSince(s, before, k, i);
    }
    if Written(s, before, k) && !Drops(Run(s, before), acts[n], k) {
      var i :| 0 <= i < |before| && Writes(before[i], k) && KeptSince(s, before, k, i);
      assert Writes(acts[i], k) && KeptSince(s, acts, k, i);
    }
  }

  /** A Get hits exactly when some write of k was not undone by a RemoveByKey or by reaping an entry of k. */
  lemma {:induction false} HitIff<E, V>(now: int, notify: bool, acts: seq<Action<E, V>>, k: Key)
    requires Allowed(Init<E, V>(now, notify), acts)
    ensures k in Run(Init<E, V>(now, notify), acts).items <==> Written(Init(now, notify), acts, k)
  {
    if acts != [] {
      var before := acts[..|acts| - 1];
      HitIff<E, V>(now, notify, before, k);
      Reachable(now, notify, before);
      StepGet(Run(Init(now, notify), before), acts[|acts| - 1], k);
      WrittenStep(Init<E, V>(now, notify), acts, k);
    }
  }

  // ---------- Deletion by key ----------

  /** A visit unbinds an unexpired entry of k exactly when it reaps another, older entry of k. */
  lemma VisitLosesIff<E, V>(s: State<E, V>, t: int, k: Key)
    requires Inv(s) && k in s.items && !Removable(s, s.items[k])
    ensures k !in Visit(s, t).items
            <==> Reaps(s, t) && At(s, ListAt(s, t)[0]).key == Some(k) && ListAt(s, t)[0] != s.items[k]
  {
    StepGet(s, DoVisit(t), k);
  }

  /** No scheduled entry, live or tombstone, carries key k. */
  ghost predicate Unscheduled<E, V>(s: State<E, V>, k: Key) {
    forall e :: e in Sched(s) ==> At(s, e).key != Some(k)
  }

  /** Every entry was made while no older entry of its key was scheduled. */
  ghost predicate OnePerKey<E, V>(s: State<E, V>, acts: seq<Action<E, V>>)
  {
    forall i :: 0 <= i < |acts| && (acts[i].DoSet? || acts[i].DoSwap?) ==>
      var s' := Run(s, acts[..i]);
      Unscheduled(s', acts[i].k) || (acts[i].DoSwap? && acts[i].k in s'.items)
  }

  ghost predicate KeysApart<E, V>(s: State<E, V>) {
    && (forall e, f :: e in Sched(s) && f in Sched(s) && At(s, e).key == At(s, f).key ==> e == f)
    && (forall e :: e in Sched(s) && At(s, e).val.Some? ==>
          At(s, e).key.Some? && At(s, e).key.value in s.items && s.items[At(s, e).key.value] == e)
  }

  lemma SetApart<E, V>(s: State<E, V>, e: E, k: Key, v: V, ttl: int)
    requires Inv(s) && Obtainable(s, e) && KeysApart(s) && Unscheduled(s, k)
    ensures KeysApart(Set(s, e, k, v, ttl))
  {
    SetKeeps(s, e, k, v, ttl);
  }

  lemma ExchangeApart<E, V>(s: State<E, V>, e: E, k: Key, v: V, ttl: int)
    requires Inv(s) && KeysApart(s) && k in s.items
    ensures KeysApart(Swap(s, e, k, v, ttl))
  {
    assert At(s, s.items[k]).key == Some(k);
    assert Sched(Swap(s, e, k, v, ttl)) == Sched(s);
  }

  lemma RemoveApart<E, V>(s: State<E, V>, k: Key)
    requires Inv(s) && KeysApart(s)
    ensures KeysApart(RemoveByKey(s, k))
  {
    if k in s.items {
      assert At(s, s.items[k]).key == Some(k);
    }
    assert Sched(RemoveByKey(s, k)) == Sched(s);
  }

  lemma VisitApart<E, V>(s: State<E, V>, t: int)
    requires Inv(s) && KeysApart(s)
    ensures KeysApart(Visit(s, t))
  {
    if Reaps(s, t) {
      ListSetDrop(s.lists, t);
      assert Sched(Visit(s, t)) == Sched(s) - {s.lists[t][0]};
    }
  }

  lemma StepKeepsApart<E, V>(s: State<E, V>, a: Action<E, V>)
    requires Inv(s) && Enabled(s, a) && KeysApart(s)
    requires a.DoSet? || a.DoSwap? ==> Unscheduled(s, a.k) || (a.DoSwap? && a.k in s.items)
    ensures KeysApart(Step(s, a))
  {
    match a
    case DoSet(e, k, v, ttl) => SetApart(s, e, k, v, ttl);
    case DoSwap(e, k, v, ttl) =>
      if k in s.items { ExchangeApart(s, e, k, v, ttl); } else { SetApart(s, e, k, v, ttl); }
    case DoRemove(k) => RemoveApart(s, k);
    case DoRecv => RecvKeeps(s);
    case DoVisit(t) => VisitApart(s, t);
    case DoTick(d) => assert Sched(Step(s, a)) == Sched(s);
  }

  lemma {:induction false} RunApart<E, V>(now: int, notify: bool, acts: seq<Action<E, V>>)
    requires Allowed(Init<E, V>(now, notify), acts) && OnePerKey(Init(now, notify), acts)
    ensures KeysApart(Run(Init<E, V>(now, notify), acts))
  {
    if acts != [] {
      var n := |acts| - 1;
      var before := acts[..n];
      forall i | 0 <= i < n ensures before[..i] == acts[..i] {
      }
      RunApart(now, notify, before);
      Reachable(now, notify, before);
      StepKeepsApart(Run(Init(now, notify), before), acts[n]);
    }
  }

  /** If keys are only set while none of their entries is scheduled, no sweep loses an unexpired entry. */
  lemma {:induction false} NothingLost<E, V>(now: int, notify: bool, acts: seq<Action<E, V>>, t: int, k: Key)
    requires Allowed(Init<E, V>(now, notify), acts) && OnePerKey(Init(now, notify), acts)
    ensures var s := Run(Init<E, V>(now, notify), acts);
            k in s.items && !Removable(s, s.items[k]) ==> k in Visit(s, t).items
  {
    var s := Run(Init<E, V>(now, notify), acts);
    RunApart(now, notify, acts);
    Reachable(now, notify, acts);
    if k in s.items && !Removable(s, s.items[k]) {
      VisitLosesIff(s, t, k);
      if Reaps(s, t) {
        InListSet(s.lists, t, s.lists[t][0]);
      }
    }
  }

  lemma Extend<E, V>(s: State<E, V>, acts: seq<Action<E, V>>, a: Action<E, V>) returns (acts': seq<Action<E, V>>)
    ensures acts' == acts + [a] && Run(s, acts') == Step(Run(s, acts), a)
    ensures Allowed(s, acts') <==> Allowed(s, acts) && Enabled(Run(s, acts), a)
    ensures forall k :: Latest(acts', k) ==
                        if Writes(a, k) then Some(a.v) else if a == DoRemove(k) then None else Latest(acts, k)
  {
    acts' := acts + [a];
    assert acts'[..|acts|] == acts;
  }

  const FIRST_SET: seq<Action<nat, nat>> := [DoSet(0, 7, 100, 10 * SECOND), DoRecv, DoTick(5 * SECOND)]

  const OVERWRITE: seq<Action<nat, nat>> :=
    FIRST_SET + [DoSet(1, 7, 200, 10 * SECOND)] + [DoRecv] + [DoTick(6 * SECOND)]

  lemma AfterFirstSet()
    ensures var s := Run(Init<nat, nat>(0, true), FIRST_SET);
            && Allowed(Init<nat, nat>(0, true), FIRST_SET)
            && s.now == 5 * SECOND && s.chan == [] && ListAt(s, 10 * SECOND) == [0]
            && s.heap == map[0 := Cell(Some(7), 10 * SECOND, Some(100))]
  {
    var s0 := Init<nat, nat>(0, true);
    var acts := Extend(s0, [], DoSet(0, 7, 100, 10 * SECOND));
    acts := Extend(s0, acts, DoRecv);
    acts := Extend(s0, acts, DoTick(5 * SECOND));
    assert acts == FIRST_SET;
  }

  lemma AfterOverwrite()
    ensures var s := Run(Init<nat, nat>(0, true), OVERWRITE);
            && Allowed(Init<nat, nat>(0, true), OVERWRITE) && Latest(OVERWRITE, 7) == Some(200)
            && s.now == 11 * SECOND && ListAt(s, 10 * SECOND) == [0, 1]
            && At(s, 0) == Cell(Some(7), 10 * SECOND, Some(100))
            && At(s, 1) == Cell(Some(7), 15 * SECOND, Some(200))
  {
    AfterFirstSet();
    var s0 := Init<nat, nat>(0, true);
    var acts := Extend(s0, FIRST_SET, DoSet(1, 7, 200, 10 * SECOND));
    acts := Extend(s0, acts, DoRecv);
    acts := Extend(s0, acts, DoTick(6 * SECOND));
  }

  /** Overwriting a key before it expires: reaping the first entry unbinds the second one 4 seconds early. */
  lemma OverwriteLosesKey() returns (acts: seq<Action<nat, nat>>)
    ensures acts == OVERWRITE + [DoVisit(10 * SECOND)]
    ensures var s := Run(Init(0, true), acts);
            && Allowed(Init(0, true), acts)
            && Get(s, 7) == None && Latest(acts, 7) == Some(200)
            && 1 in Sched(s) && !Removable(s, 1)
  {
    AfterOverwrite();
    var s0 := Init<nat, nat>(0, true);
    acts := Extend(s0, OVERWRITE, DoVisit(10 * SECOND));
    var s := Run(s0, acts);
    assert Reaps(Run(s0, OVERWRITE), 10 * SECOND);
    InListSet(s.lists, 10 * SECOND, 1);
  }
}
