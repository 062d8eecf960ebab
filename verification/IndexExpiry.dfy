/**
 Expiry order within a list, and when a visit that stops overlooks an expired entry.
 */
module IndexExpiry {
  import opened Wrappers
  import opened Index
  import opened IndexInvariant
  import opened IndexHistory

  // ---------- Expiry order ----------

  /** Unless one of them is a tombstone or e has expired already, e expires no later than f. */
  predicate Before<E, V>(s: State<E, V>, e: E, f: E) {
    At(s, e).val.Some? && At(s, f).val.Some? ==> At(s, e).expireAt <= At(s, f).expireAt || Expired(s, e)
  }

  /** A tombstone, or an entry that one of the TTLs of list t covers from now. */
  ghost predicate Within<E, V>(s: State<E, V>, e: E, t: int, T: iset<int>) {
    At(s, e).val.Some? ==> exists b :: b in T && ListTtl(b) == t && At(s, e).expireAt <= s.now + b
  }

  /** The entries the channel holds for one list, oldest first. */
  function Waiting<E>(chan: seq<Msg<E>>, t: int): seq<E> {
    if chan == [] then []
    else (if ListTtl(chan[0].ttl) == t then [chan[0].entry] else []) + Waiting(chan[1..], t)
  }

  /** A TTL list followed by what the channel still holds for it. */
  function Queue<E, V>(s: State<E, V>, t: int): seq<E> {
    ListAt(s, t) + Waiting(s.chan, t)
  }

  ghost predicate Sorted<E, V>(s: State<E, V>, q: seq<E>, t: int, T: iset<int>) {
    && (forall i, j :: 0 <= i < j < |q| ==> Before(s, q[i], q[j]))
    && (forall e :: e in q ==> Within(s, e, t, T))
  }

  ghost predicate Ordered<E, V>(s: State<E, V>, T: iset<int>) {
    forall t :: Sorted(s, Queue(s, t), t, T)
  }

  /**
   No two TTLs share a list, unless both are negative: those expire as they are set. Those up to a second share the
   list of one second, and only those share one.
   */
  ghost predicate Apart(T: iset<int>) {
    forall a, b :: a in T && b in T && b < a <= SECOND ==> a < 0
  }

  /** Steps that move no entry and write none but b, whose expiry they keep or whose value they take. */
  ghost predicate Pinned<E, V>(s: State<E, V>, s': State<E, V>) {
    && s'.lists == s.lists && s'.chan == s.chan && s'.now >= s.now
    && forall e :: e in Sched(s) ==>
         At(s', e).val.Some? ==> At(s, e).val.Some? && At(s', e).expireAt == At(s, e).expireAt
  }

  lemma {:induction false} WaitingPlaced<E>(chan: seq<Msg<E>>, t: int)
    ensures forall e :: e in Waiting(chan, t) ==> e in ChanSet(chan)
  {
    if chan != [] {
      assert chan[0] in chan;
      WaitingPlaced(chan[1..], t);
    }
  }

  lemma Placed<E, V>(s: State<E, V>, t: int)
    ensures forall e :: e in Queue(s, t) ==> e in Sched(s)
  {
    WaitingPlaced(s.chan, t);
  }

  lemma {:induction false} WaitingAppend<E>(chan: seq<Msg<E>>, m: Msg<E>, t: int)
    ensures Waiting(chan + [m], t) == Waiting(chan, t) + (if ListTtl(m.ttl) == t then [m.entry] else [])
  {
    if chan != [] {
      WaitingAppend(chan[1..], m, t);
      assert (chan + [m])[1..] == chan[1..] + [m];
    } else {
      assert chan + [m] == [m];
    }
  }

  lemma SortedKeep<E, V>(s: State<E, V>, s': State<E, V>, q: seq<E>, t: int, T: iset<int>)
    requires Sorted(s, q, t, T) && s'.now >= s.now
    requires forall e :: e in q && At(s', e).val.Some? ==>
               At(s, e).val.Some? && At(s', e).expireAt == At(s, e).expireAt
    ensures Sorted(s', q, t, T)
  {
    forall e | e in q && At(s', e).val.Some? ensures Within(s', e, t, T) {
      assert Within(s, e, t, T);
      var b :| b in T && ListTtl(b) == t && At(s, e).expireAt <= s.now + b;
      assert At(s', e).expireAt <= s'.now + b;
    }
  }

  lemma SortedAppend<E, V>(s: State<E, V>, q: seq<E>, e: E, ttl: int, T: iset<int>)
    requires Sorted(s, q, ListTtl(ttl), T) && At(s, e).expireAt == s.now + ttl && ttl in T && Apart(T)
    ensures Sorted(s, q + [e], ListTtl(ttl), T)
  {
    forall i | 0 <= i < |q| ensures Before(s, q[i], e) {
      assert q[i] in q && Within(s, q[i], ListTtl(ttl), T);
    }
    assert Within(s, e, ListTtl(ttl), T);
  }

  lemma SortedTail<E, V>(s: State<E, V>, q: seq<E>, t: int, T: iset<int>)
    requires Sorted(s, q, t, T) && q != []
    ensures Sorted(s, q[1..], t, T)
  {
    assert forall e :: e in q[1..] ==> e in q;
  }

  lemma PinnedOrdered<E, V>(s: State<E, V>, s': State<E, V>, T: iset<int>)
    requires Ordered(s, T) && Pinned(s, s')
    ensures Ordered(s', T)
  {
    forall t ensures Sorted(s', Queue(s', t), t, T) {
      Placed(s, t);
      assert Sorted(s, Queue(s, t), t, T) && Queue(s', t) == Queue(s, t);
      SortedKeep(s, s', Queue(s, t), t, T);
    }
  }

  lemma SetQueue<E, V>(s: State<E, V>, e: E, k: Key, v: V, ttl: int, t: int)
    ensures Queue(Set(s, e, k, v, ttl), t) == if ListTtl(ttl) == t then Queue(s, t) + [e] else Queue(s, t)
  {
    WaitingAppend(s.chan, Msg(ttl, e), t);
  }

  lemma SetElsewhere<E, V>(s: State<E, V>, e: E, k: Key, v: V, ttl: int, t: int)
    requires Inv(s) && Obtainable(s, e)
    ensures forall f :: f in Queue(s, t) ==> At(Set(s, e, k, v, ttl), f) == At(s, f)
  {
    Placed(s, t);
    SetOwned(s, e, k, v, ttl);
  }

  lemma SetOrdered<E, V>(s: State<E, V>, e: E, k: Key, v: V, ttl: int, T: iset<int>)
    requires Inv(s) && Obtainable(s, e) && Ordered(s, T) && ttl in T && Apart(T)
    ensures Ordered(Set(s, e, k, v, ttl), T)
  {
    var s' := Set(s, e, k, v, ttl);
    forall t ensures Sorted(s', Queue(s', t), t, T) {
      SetQueue(s, e, k, v, ttl, t);
      SetElsewhere(s, e, k, v, ttl, t);
      SortedKeep(s, s', Queue(s, t), t, T);
      if ListTtl(ttl) == t {
        SortedAppend(s', Queue(s, t), e, ttl, T);
      }
    }
  }

  /** The hand-off moves an entry from one half of its queue to the other. */
  lemma RecvQueue<E, V>(s: State<E, V>, t: int)
    ensures Queue(Recv(s), t) == Queue(s, t)
  {
    if s.chan != [] {
      var q, e, rest := ListAt(s, t), s.chan[0].entry, Waiting(s.chan[1..], t);
      var here := ListTtl(s.chan[0].ttl) == t;
      assert Waiting(s.chan, t) == (if here then [e] else []) + rest;
      assert Queue(Recv(s), t) == (if here then q + [e] else q) + rest;
      hide *;
      MoveOver(q, e, rest, here);
    }
  }

  lemma MoveOver<E>(q: seq<E>, e: E, rest: seq<E>, here: bool)
    ensures (if here then q + [e] else q) + rest == q + ((if here then [e] else []) + rest)
  {
    if here {
      assert q + [e] + rest == q + ([e] + rest);
    } else {
      assert [] + rest == rest;
    }
  }

  lemma RecvOrdered<E, V>(s: State<E, V>, T: iset<int>)
    requires Ordered(s, T)
    ensures Ordered(Recv(s), T)
  {
    var s' := Recv(s);
    forall t ensures Sorted(s', Queue(s', t), t, T) {
      RecvQueue(s, t);
      SortedKeep(s, s', Queue(s, t), t, T);
    }
  }

  lemma VisitOrdered<E, V>(s: State<E, V>, t: int, T: iset<int>)
    requires Ordered(s, T)
    ensures Ordered(Visit(s, t), T)
  {
    var s' := Visit(s, t);
    assert forall e :: At(s', e).val.Some? ==> At(s', e) == At(s, e);
    forall u ensures Sorted(s', Queue(s', u), u, T) {
      var q := Queue(s, u);
      if u == t && Reaps(s, t) {
        assert Queue(s', u) == q[1..];
        SortedTail(s, q, u, T);
        SortedKeep(s, s', q[1..], u, T);
      } else {
        assert Queue(s', u) == q;
        SortedKeep(s, s', q, u, T);
      }
    }
  }

  ghost predicate StepFrom<E, V>(a: Action<E, V>, T: iset<int>) {
    a.DoSet? || a.DoSwap? ==> a.ttl in T
  }

  lemma StepOrdered<E, V>(s: State<E, V>, a: Action<E, V>, T: iset<int>)
    requires Inv(s) && Enabled(s, a) && Ordered(s, T) && StepFrom(a, T) && Apart(T)
    ensures Ordered(Step(s, a), T)
  {
    match a
    case DoSet(e, k, v, ttl) => SetOrdered(s, e, k, v, ttl, T);
    case DoSwap(e, k, v, ttl) =>
      if k in s.items { PinnedOrdered(s, Step(s, a), T); } else { SetOrdered(s, e, k, v, ttl, T); }
    case DoRemove(k) => PinnedOrdered(s, Step(s, a), T);
    case DoRecv => RecvOrdered(s, T);
    case DoVisit(t) => VisitOrdered(s, t, T);
    case DoTick(d) => PinnedOrdered(s, Step(s, a), T);
  }

  /** Every TTL of the run is one of T. */
  ghost predicate TtlsFrom<E, V>(acts: seq<Action<E, V>>, T: iset<int>) {
    forall a :: a in acts ==> StepFrom(a, T)
  }

  lemma {:induction false} RunOrdered<E, V>(now: int, notify: bool, acts: seq<Action<E, V>>, T: iset<int>)
    requires Allowed(Init<E, V>(now, notify), acts) && TtlsFrom(acts, T) && Apart(T)
    ensures Ordered(Run(Init<E, V>(now, notify), acts), T)
  {
    if acts != [] {
      var before, a := acts[..|acts| - 1], acts[|acts| - 1];
      assert a in acts && forall b :: b in before ==> b in acts;
      RunOrdered(now, notify, before, T);
      Reachable(now, notify, before);
      StepOrdered(Run(Init(now, notify), before), a, T);
    }
  }

  /**
   Where the worker puts an entry: behind all that is in the list of its TTL, or of one second if that is less. It
   moves nothing else.
   */
  lemma ReceivedInto<E, V>(s: State<E, V>)
    requires s.chan != []
    ensures var t := if s.chan[0].ttl < 1_000_000_000 then 1_000_000_000 else s.chan[0].ttl;
            forall u :: ListAt(Recv(s), u) == ListAt(s, u) + (if u == t then [s.chan[0].entry] else [])
    ensures s.chan == [s.chan[0]] + Recv(s).chan && Recv(s).heap == s.heap && Recv(s).items == s.items
  {
  }

  // ---------- What a visit overlooks ----------

  /** The visit to list t stops at its head. */
  predicate Stops<E, V>(s: State<E, V>, t: int) {
    ListAt(s, t) != [] && !Reaps(s, t)
  }

  /** It stops, but behind the head, in the list or the channel, an entry has a value and has expired. */
  ghost predicate Overlooks<E, V>(s: State<E, V>, t: int) {
    Stops(s, t) && exists e :: e in Queue(s, t) && At(s, e).val.Some? && Expired(s, e)
  }

  /** In every run whose TTLs no two of which share a list, a visit that stops has overlooked nothing. */
  lemma {:induction false} StopOverlooksNothing<E, V>(
      now: int, notify: bool, acts: seq<Action<E, V>>, t: int, T: iset<int>)
    requires Allowed(Init<E, V>(now, notify), acts) && TtlsFrom(acts, T) && Apart(T)
    ensures !Overlooks(Run(Init<E, V>(now, notify), acts), t)
  {
    var s := Run(Init<E, V>(now, notify), acts);
    RunOrdered(now, notify, acts, T);
    if Stops(s, t) {
      var q := Queue(s, t);
      assert Sorted(s, q, t, T) && q[0] == ListAt(s, t)[0];
      forall e | e in q && At(s, e).val.Some? ensures !Expired(s, e) {
        var i :| 0 <= i < |q| && q[i] == e;
        assert i == 0 || Before(s, q[0], q[i]);
      }
    }
  }

  /** The run that sets one key with the TTL a, another with b, and waits until just before the first expires. */
  function TwoSets(a: int, b: int): seq<Action<nat, nat>> {
    [] + [DoSet(0, 7, 100, a)] + [DoSet(1, 8, 200, b)] + [DoRecv] + [DoRecv] + [DoTick(if a < 0 then 0 else a)]
  }

  lemma SetsReceived(now: int, notify: bool, a: int, b: int)
    requires a <= SECOND && b <= SECOND
    ensures var s := Recv(Recv(Set(Set(Init<nat, nat>(now, notify), 0, 7, 100, a), 1, 8, 200, b)));
            && Obtainable(Init<nat, nat>(now, notify), 0)
            && Obtainable(Set(Init<nat, nat>(now, notify), 0, 7, 100, a), 1)
            && s.now == now && s.chan == [] && ListAt(s, SECOND) == [0, 1]
            && At(s, 0) == Cell(Some(7), now + a, Some(100)) && At(s, 1) == Cell(Some(8), now + b, Some(200))
  {
  }

  /** Two TTLs of no more than a second, such as 900 and 100 ms: the second entry is overlooked behind the first. */
  lemma SubSecondOverlooked(now: int, notify: bool, a: int, b: int)
    requires b < a <= SECOND && 0 <= a
    ensures Allowed(Init<nat, nat>(now, notify), TwoSets(a, b))
    ensures Overlooks(Run(Init<nat, nat>(now, notify), TwoSets(a, b)), SECOND)
  {
    hide Init, Set, Recv, Overlooks, Run, Allowed, TwoSets, ListAt, At, Obtainable;
    SetsReceived(now, notify, a, b);
    ThenOverlooked(Recv(Recv(Set(Set(Init<nat, nat>(now, notify), 0, 7, 100, a), 1, 8, 200, b))), a);
    TwoSetsRun(Init(now, notify), a, b);
  }

  lemma TwoSetsRun(s: State<nat, nat>, a: nat, b: int)
    requires Obtainable(s, 0) && Obtainable(Set(s, 0, 7, 100, a), 1)
    ensures var s' := Recv(Recv(Set(Set(s, 0, 7, 100, a), 1, 8, 200, b)));
            Allowed(s, TwoSets(a, b)) && Run(s, TwoSets(a, b)) == s'.(now := s'.now + a)
  {
    assert Run(s, []) == s && Allowed(s, []);
    hide Set, Recv, Obtainable, Run, Allowed, Latest;
    var acts := Extend(s, [], DoSet(0, 7, 100, a));
    acts := Extend(s, acts, DoSet(1, 8, 200, b));
    acts := Extend(s, acts, DoRecv);
    acts := Extend(s, acts, DoRecv);
    acts := Extend(s, acts, DoTick(a));
  }

  lemma ThenOverlooked(s: State<nat, nat>, a: nat)
    requires s.chan == [] && ListAt(s, SECOND) == [0, 1] && At(s, 0).val.Some? && At(s, 1).val.Some?
    requires At(s, 0).expireAt == s.now + a && At(s, 1).expireAt < s.now + a
    ensures Overlooks(s.(now := s.now + a), SECOND)
  {
    var later := s.(now := s.now + a);
    assert Queue(later, SECOND) == [0, 1];
    assert 1 in Queue(later, SECOND) && Expired(later, 1);
  }

  /** No run with TTLs of T ever overlooks anything. */
  ghost predicate NeverOverlooks(now: int, notify: bool, T: iset<int>) {
    forall acts: seq<Action<nat, nat>>, t ::
      Allowed(Init<nat, nat>(now, notify), acts) && TtlsFrom(acts, T) ==>
        !Overlooks(Run(Init<nat, nat>(now, notify), acts), t)
  }

  /** Nothing is ever overlooked if and only if no two TTLs in use share a list, the negative ones aside. */
  lemma {:induction false} OverlooksNothingIff(now: int, notify: bool, T: iset<int>)
    ensures NeverOverlooks(now, notify, T) <==> Apart(T)
  {
    if Apart(T) {
      forall acts: seq<Action<nat, nat>>, t | Allowed(Init<nat, nat>(now, notify), acts) && TtlsFrom(acts, T)
        ensures !Overlooks(Run(Init<nat, nat>(now, notify), acts), t)
      {
        StopOverlooksNothing(now, notify, acts, t, T);
      }
    } else {
      var a, b :| a in T && b in T && b < a <= SECOND && 0 <= a;
      SubSecondOverlooked(now, notify, a, b);
      assert TtlsFrom(TwoSets(a, b), T);
    }
  }
}
