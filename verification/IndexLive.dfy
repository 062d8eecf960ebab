/**
 Where the entries that hold a value come from, one step at a time.
 */
module IndexLive {
  import opened Wrappers
  import opened Index
  import opened IndexInvariant

  ghost predicate Live<E, V>(s: State<E, V>, e: E) {
    e in Sched(s) && At(s, e).val.Some?
  }

  predicate Exchanges<E, V>(s: State<E, V>, a: Action<E, V>) {
    a.DoSwap? && a.k in s.items
  }

  lemma ExchangeFrom<E, V>(s: State<E, V>, a: Action<E, V>, e: E)
    requires Inv(s) && Exchanges(s, a) && Live(Step(s, a), e)
    ensures Live(s, e)
    ensures At(Step(s, a), e) == if e == s.items[a.k] then At(s, e).(val := Some(a.v)) else At(s, e)
    ensures At(s, s.items[a.k]).key == Some(a.k)
  {
    assert s.items[a.k] in Sched(s);
  }

  lemma CreateFrom<E, V>(s: State<E, V>, a: Action<E, V>, e: E)
    requires Inv(s) && Enabled(s, a) && Creates(s, a) && Live(Step(s, a), e)
    ensures if e == a.e then At(Step(s, a), e) == Cell(Some(a.k), s.now + a.ttl, Some(a.v))
            else Live(s, e) && At(Step(s, a), e) == At(s, e)
  {
    SetOwned(s, a.e, a.k, a.v, a.ttl);
  }

  lemma OtherFrom<E, V>(s: State<E, V>, a: Action<E, V>, e: E)
    requires Inv(s) && Enabled(s, a) && !a.DoSet? && !a.DoSwap? && Live(Step(s, a), e)
    ensures Live(s, e) && At(Step(s, a), e) == At(s, e)
  {
    match a
    case DoRecv => RecvKeeps(s);
    case DoVisit(t) =>
      if Reaps(s, t) {
        ListSetDrop(s.lists, t);
      }
    case _ =>
  }

  /** An entry that holds a value after a step held it before, or the step gave it. */
  lemma LiveFrom<E, V>(s: State<E, V>, a: Action<E, V>, e: E)
    requires Inv(s) && Enabled(s, a) && Live(Step(s, a), e)
    ensures var s' := Step(s, a);
            || (Live(s, e) && At(s', e) == At(s, e))
            || (Creates(s, a) && e == a.e && At(s', e) == Cell(Some(a.k), s.now + a.ttl, Some(a.v)))
            || (Exchanges(s, a) && e == s.items[a.k] && Live(s, e) && At(s, e).key == Some(a.k)
                && At(s', e) == At(s, e).(val := Some(a.v)))
  {
    if Exchanges(s, a) {
      ExchangeFrom(s, a, e);
    } else if Creates(s, a) {
      CreateFrom(s, a, e);
    } else {
      OtherFrom(s, a, e);
    }
  }

  /**
   A value leaves its entry in two ways only: it is handed to the callback, or its key is removed. And nothing is
   handed to the callback but a value that leaves its entry.
   */
  lemma LiveTo<E, V>(s: State<E, V>, a: Action<E, V>, e: E)
    requires Inv(s) && Enabled(s, a) && s.notify && Live(s, e)
    ensures var s' := Step(s, a);
            || (Live(s', e) && At(s', e).val == At(s, e).val)
            || s'.evicted == s.evicted + [At(s, e).val.value]
            || (a.DoRemove? && a.k in s.items && s.items[a.k] == e && s'.evicted == s.evicted)
    ensures var s' := Step(s, a);
            s'.evicted == s.evicted || exists f :: Leaves(s, a, f)
  {
    match a
    case DoSet(_, _, _, _) => SetOwned(s, a.e, a.k, a.v, a.ttl);
    case DoSwap(_, k, _, _) =>
      if k in s.items {
        assert Leaves(s, a, s.items[k]);
      } else {
        SetOwned(s, a.e, a.k, a.v, a.ttl);
      }
    case DoRecv => RecvKeeps(s);
    case DoVisit(t) => ReapedTo(s, t, e);
    case _ =>
  }

  /** The step takes f's value, or gives it another, and hands it to the callback. */
  ghost predicate Leaves<E, V>(s: State<E, V>, a: Action<E, V>, f: E) {
    Live(s, f) && Step(s, a).evicted == s.evicted + [At(s, f).val.value] && (a.DoSwap? || !Live(Step(s, a), f))
  }

  lemma ReapedTo<E, V>(s: State<E, V>, t: int, e: E)
    requires Inv(s) && s.notify && Live(s, e)
    ensures var s' := Visit(s, t);
            (Live(s', e) && At(s', e).val == At(s, e).val) || s'.evicted == s.evicted + [At(s, e).val.value]
    ensures Visit(s, t).evicted == s.evicted || exists f :: Leaves(s, DoVisit(t), f)
  {
    if Reaps(s, t) {
      var h := ListAt(s, t)[0];
      ListSetDrop(s.lists, t);
      InListSet(s.lists, t, h);
      if At(s, h).val.Some? {
        assert Leaves(s, DoVisit(t), h);
      }
    }
  }

  /** A bound entry holds a value. */
  lemma BoundLive<E, V>(s: State<E, V>, k: Key)
    requires Inv(s) && k in s.items
    ensures Live(s, s.items[k]) && At(s, s.items[k]).key == Some(k)
  {
  }
}
