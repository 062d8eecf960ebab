/**
 How repeated sweeps empty the lists, and which lists no sweep ever reaches.
 */
module IndexDrain {
  import opened Index
  import opened IndexInvariant

  /** ks lists the given TTL keys, each once. */
  predicate Enumerates(ks: seq<int>, keys: set<int>) {
    NoDup(ks) && (set k | k in ks) == keys
  }

  /** Everything in the lists is a tombstone or has expired. */
  ghost predicate AllDue<E, V>(s: State<E, V>) {
    forall t, e :: e in ListAt(s, t) ==> Removable(s, e)
  }

  /** How often one sweep over ks visits list t. */
  function Visits(ks: seq<int>, t: int): nat {
    if ks == [] then 0 else (if Whole(ks[0]) == t then 1 else 0) + Visits(ks[1..], t)
  }

  function Min(a: int, b: int): int {
    if a < b then a else b
  }

  /** A list without its first n entries. */
  function Rest<E>(q: seq<E>, n: nat): seq<E> {
    q[Min(n, |q|)..]
  }

  lemma RestRest<E>(q: seq<E>, a: nat, b: nat)
    ensures Rest(Rest(q, a), b) == Rest(q, a + b)
  {
    var i := Min(a, |q|);
    var j := Min(b, |q| - i);
    assert q[i..][j..] == q[i + j..];
    assert i + j == Min(a + b, |q|);
  }

  lemma VisitDue<E, V>(s: State<E, V>, w: int)
    requires AllDue(s)
    ensures AllDue(Visit(s, w))
    ensures Visit(s, w).chan == s.chan && Visit(s, w).lists.Keys == s.lists.Keys
    ensures forall t :: ListAt(Visit(s, w), t) == Rest(ListAt(s, t), if t == w then 1 else 0)
  {
    if ListAt(s, w) != [] {
      assert ListAt(s, w)[0] in ListAt(s, w);
      var s' := Visit(s, w);
      forall t, e | e in ListAt(s', t) ensures Removable(s', e) {
        assert e in ListAt(s, t) && Removable(s, e);
        assert At(s', e) == At(s, e) || At(s', e) == Blank();
      }
    }
  }

  lemma {:induction false} SweepDue<E, V>(s: State<E, V>, ks: seq<int>, t: int)
    requires AllDue(s)
    ensures AllDue(Sweep(s, ks))
    ensures Sweep(s, ks).chan == s.chan && Sweep(s, ks).lists.Keys == s.lists.Keys
    ensures ListAt(Sweep(s, ks), t) == Rest(ListAt(s, t), Visits(ks, t))
    decreases |ks|
  {
    if ks != [] {
      var s' := Visit(s, Whole(ks[0]));
      VisitDue(s, Whole(ks[0]));
      SweepDue(s', ks[1..], t);
      RestRest(ListAt(s, t), if t == Whole(ks[0]) then 1 else 0, Visits(ks[1..], t));
    }
  }

  /** j sweeps, each over the same keys: without hand-offs no list appears. */
  function Sweeps<E, V>(s: State<E, V>, ks: seq<int>, j: nat): State<E, V> {
    if j == 0 then s else Sweep(Sweeps(s, ks, j - 1), ks)
  }

  lemma {:induction false} SweepsInv<E, V>(s: State<E, V>, ks: seq<int>, j: nat)
    requires Inv(s)
    ensures Inv(Sweeps(s, ks, j))
  {
    if j > 0 {
      SweepsInv(s, ks, j - 1);
      SweepKeeps(Sweeps(s, ks, j - 1), ks);
    }
  }

  lemma {:induction false} SweepsDue<E, V>(s: State<E, V>, ks: seq<int>, j: nat)
    requires AllDue(s)
    ensures AllDue(Sweeps(s, ks, j))
    ensures Sweeps(s, ks, j).chan == s.chan && Sweeps(s, ks, j).lists.Keys == s.lists.Keys
  {
    if j > 0 {
      SweepsDue(s, ks, j - 1);
      SweepDue(Sweeps(s, ks, j - 1), ks, 0);
    }
  }

  lemma {:induction false} SweepsDrop<E, V>(s: State<E, V>, ks: seq<int>, j: nat, t: int, v: nat)
    requires AllDue(s) && v == Visits(ks, t)
    ensures ListAt(Sweeps(s, ks, j), t) == Rest(ListAt(s, t), j * v)
  {
    if j > 0 {
      SweepsDrop(s, ks, j - 1, t, v);
      SweepsDue(s, ks, j - 1);
      SweepDue(Sweeps(s, ks, j - 1), ks, t);
      RestTimes(ListAt(s, t), j, v);
    }
  }

  lemma RestTimes<E>(q: seq<E>, j: nat, v: nat)
    requires j > 0
    ensures 0 <= (j - 1) * v && Rest(Rest(q, (j - 1) * v), v) == Rest(q, j * v)
  {
    assert j * v == (j - 1) * v + v;
    RestRest(q, (j - 1) * v, v);
  }

  lemma {:induction false} VisitsOnce(ks: seq<int>, t: int)
    requires NoDup(ks) && forall k :: k in ks ==> k % SECOND == 0
    ensures Visits(ks, t) == if t in ks then 1 else 0
  {
    if ks != [] {
      assert ks == [ks[0]] + ks[1..];
      assert ks[0] in ks && Whole(ks[0]) == ks[0];
      assert forall k :: k in ks[1..] ==> k in ks;
      VisitsOnce(ks[1..], t);
    }
  }

  lemma {:induction false} VisitsWhole(ks: seq<int>, t: int)
    ensures t % SECOND != 0 ==> Visits(ks, t) == 0
    ensures t % SECOND == 0 && t in ks ==> Visits(ks, t) >= 1
  {
    if ks != [] {
      assert ks == [ks[0]] + ks[1..];
      VisitsWhole(ks[1..], t);
    }
  }

  lemma {:induction false} TotalZero<E>(lists: map<int, seq<E>>)
    ensures Total(lists) == 0 <==> forall t :: t in lists ==> lists[t] == []
    decreases |lists|
  {
    if lists != map[] {
      var u := AnyKey(lists);
      var rest := lists - {u};
      TotalZero(rest);
      assert forall t :: t in rest ==> lists[t] == rest[t];
      assert forall t :: t in lists && t != u ==> t in rest;
    }
  }

  /**
   With nothing waiting, whole-second TTLs and everything due, each sweep takes exactly one entry
   from every nonempty list. So Len reaches zero with as many sweeps as the longest list has
   entries and not before, and the map is empty then too.
   */
  lemma Drain<E, V>(s: State<E, V>, ks: seq<int>, j: nat)
    requires Inv(s) && s.chan == [] && AllDue(s)
    requires Enumerates(ks, s.lists.Keys) && forall t :: t in s.lists ==> t % SECOND == 0
    ensures forall t :: ListAt(Sweeps(s, ks, j), t) == Rest(ListAt(s, t), j)
    ensures Sweeps(s, ks, j).n == 0 <==> forall t :: t in s.lists ==> |s.lists[t]| <= j
    ensures Sweeps(s, ks, j).n == 0 ==> Sweeps(s, ks, j).items == map[]
  {
    var s' := Sweeps(s, ks, j);
    forall t ensures ListAt(s', t) == Rest(ListAt(s, t), j) {
      DrainOne(s, ks, j, t);
    }
    SweepsDue(s, ks, j);
    SweepsInv(s, ks, j);
    CountZero(s');
    SameZeros(s, s', j);
  }

  lemma SameZeros<E, V>(s: State<E, V>, s': State<E, V>, j: nat)
    requires s'.lists.Keys == s.lists.Keys
    requires forall t :: ListAt(s', t) == Rest(ListAt(s, t), j)
    ensures (forall t :: t in s'.lists ==> s'.lists[t] == []) <==> forall t :: t in s.lists ==> |s.lists[t]| <= j
  {
    forall t | t in s.lists ensures s'.lists[t] == [] <==> |s.lists[t]| <= j {
      assert ListAt(s', t) == Rest(ListAt(s, t), j);
    }
  }

  lemma CountZero<E, V>(s: State<E, V>)
    requires Inv(s) && s.chan == []
    ensures s.n == 0 <==> forall t :: t in s.lists ==> s.lists[t] == []
    ensures s.n == 0 ==> s.items == map[]
  {
    TotalZero(s.lists);
    BoundSize(s);
  }

  lemma DrainOne<E, V>(s: State<E, V>, ks: seq<int>, j: nat, t: int)
    requires Inv(s) && AllDue(s)
    requires Enumerates(ks, s.lists.Keys) && forall t :: t in s.lists ==> t % SECOND == 0
    ensures ListAt(Sweeps(s, ks, j), t) == Rest(ListAt(s, t), j)
  {
    assert forall k :: k in ks ==> k in s.lists.Keys;
    VisitsOnce(ks, t);
    assert t in ks <==> t in s.lists.Keys;
    SweepsDrop(s, ks, j, t, Visits(ks, t));
  }

  /** List t is empty after some number of sweeps. */
  ghost predicate Drained<E, V>(s: State<E, V>, ks: seq<int>, t: int) {
    exists j: nat :: EmptyAfter(s, ks, t, j)
  }

  predicate EmptyAfter<E, V>(s: State<E, V>, ks: seq<int>, t: int, j: nat) {
    ListAt(Sweeps(s, ks, j), t) == []
  }

  lemma EmptyIff<E, V>(s: State<E, V>, ks: seq<int>, t: int, j: nat, v: nat)
    requires AllDue(s) && v == Visits(ks, t)
    ensures EmptyAfter(s, ks, t, j) <==> |ListAt(s, t)| <= j * v
  {
    SweepsDrop(s, ks, j, t, v);
  }

  /** A list is ever drained exactly when its TTL is a whole number of seconds: no sweep looks at the others. */
  lemma DrainsIff<E, V>(s: State<E, V>, ks: seq<int>, t: int)
    requires Inv(s) && AllDue(s) && Enumerates(ks, s.lists.Keys) && ListAt(s, t) != []
    ensures Drained(s, ks, t) <==> t % SECOND == 0
  {
    hide EmptyAfter, Inv, AllDue, ListAt, Sweeps, Enumerates;
    var v := Visits(ks, t);
    if t % SECOND == 0 {
      VisitedAtAll(s, ks, t);
      EmptyIff(s, ks, t, |ListAt(s, t)|, v);
      assert |ListAt(s, t)| <= |ListAt(s, t)| * v;
    } else {
      VisitsWhole(ks, t);
      forall j: nat ensures !EmptyAfter(s, ks, t, j) {
        EmptyIff(s, ks, t, j, v);
      }
    }
  }

  lemma VisitedAtAll<E, V>(s: State<E, V>, ks: seq<int>, t: int)
    requires Enumerates(ks, s.lists.Keys) && ListAt(s, t) != [] && t % SECOND == 0
    ensures Visits(ks, t) >= 1
  {
    VisitsWhole(ks, t);
    assert t in s.lists.Keys;
  }

  /** Whatever the state, a sweep leaves a list of a fractional TTL as it is. */
  lemma {:induction false} FractionUntouched<E, V>(s: State<E, V>, ks: seq<int>, t: int)
    requires t % SECOND != 0
    ensures ListAt(Sweep(s, ks), t) == ListAt(s, t)
    decreases |ks|
  {
    if ks != [] {
      FractionUntouched(Visit(s, Whole(ks[0])), ks[1..], t);
    }
  }

  // ---------- The order of a sweep ----------

  /** A sweep goes through its lists in order, and takes from each at most its head. */
  lemma {:induction false} SweepInOrder<E, V>(s: State<E, V>, ks: seq<int>, k: int)
    ensures Sweep(s, ks + [k]) == Visit(Sweep(s, ks), k / SECOND * SECOND)
    decreases |ks|
  {
    if ks == [] {
      assert (ks + [k])[1..] == [];
    } else {
      assert (ks + [k])[1..] == ks[1..] + [k];
      SweepInOrder(Visit(s, Whole(ks[0])), ks[1..], k);
    }
  }

  predicate Increasing(ks: seq<int>) {
    forall i, j :: 0 <= i < j < |ks| ==> ks[i] < ks[j]
  }

  function Insert(ks: seq<int>, k: int): (r: seq<int>)
    requires Increasing(ks) && k !in ks
    ensures Increasing(r) && forall j :: j in r <==> j == k || j in ks
  {
    if ks == [] || k < ks[0] then [k] + ks
    else
      HeadTail(ks);
      var rest := Insert(ks[1..], k);
      HeadBelow(ks, k, rest);
      [ks[0]] + rest
  }

  lemma HeadTail(ks: seq<int>)
    requires ks != []
    ensures ks == [ks[0]] + ks[1..] && forall j :: j in ks <==> j == ks[0] || j in ks[1..]
  {
    assert ks == [ks[0]] + ks[1..];
  }

  /** The head stays below what is inserted behind it. */
  lemma HeadBelow(ks: seq<int>, k: int, rest: seq<int>)
    requires Increasing(ks) && ks != [] && ks[0] < k && Increasing(rest)
    requires forall j :: j in rest <==> j == k || j in ks[1..]
    ensures Increasing([ks[0]] + rest)
    ensures forall j :: j in [ks[0]] + rest <==> j == k || j in ks
  {
    HeadTail(ks);
    forall i | 0 <= i < |rest| ensures ks[0] < rest[i] {
      assert rest[i] in rest;
      if rest[i] != k {
        var n :| 0 <= n < |ks[1..]| && ks[1..][n] == rest[i];
        assert ks[n + 1] == rest[i];
      }
    }
  }

  /** The keys of the list table, collected in any order and sorted. */
  method SortedKeys<T(==)>(lists: map<int, T>) returns (ks: seq<int>)
    ensures Enumerates(ks, lists.Keys) && Increasing(ks)
  {
    ks := [];
    var left := lists;
    while |left| > 0
      invariant left.Keys <= lists.Keys && Increasing(ks)
      invariant forall k :: k in ks <==> k in lists.Keys && k !in left.Keys
      decreases |left|
    {
      var item :| item in left.Items;
      ks := Insert(ks, item.0);
      left := left - {item.0};
    }
    assert forall k :: k in (set j | j in ks) <==> k in lists.Keys;
  }
}
