/**
 Exactly when a file outlives the entries of a key: a condition on the TTLs the key is set with.
 */
module LsmTtls {
  import opened Wrappers
  import opened Log
  import Index
  import opened IndexLive
  import opened Lsm
  import opened LsmSafety
  import opened LsmFresh
  import LsmGaps
  import LsmTime

  /** Every Set of k uses a TTL of T; other keys are set with any. */
  ghost predicate TtlsFrom(acts: seq<Action>, k: Key, T: iset<int>) {
    forall a :: a in acts && a.Set? && a.item.key == k ==> a.ttl in T
  }

  ghost predicate WholeSeconds(T: iset<int>) {
    forall t :: t in T ==> t > 0 && t % Index.SECOND == 0
  }

  /** The files of every TTL that goes to disk are kept for longer than any TTL of T. */
  ghost predicate FilesOutlast(T: iset<int>, minTtl: int) {
    forall a, b :: a in T && b in T && a > minTtl ==> b < LsmTime.Kept(a)
  }

  // ---------- Entries and files of one key ----------

  /** A log that holds a version of k is that of a TTL of T. */
  ghost predicate ReaderOf(q: int, r: Reader, k: Key, T: iset<int>, minTtl: int) {
    && (q > 0 ==> q <= r.log.ttl < q + Index.SECOND)
    && (forall it :: it in Held(r) && it.key == k ==> q in T && q > minTtl)
  }

  /** `at` lies within some TTL of T from now, up to the fraction of a second that a log's TTL may have. */
  ghost predicate Reaches(at: int, now: int, T: iset<int>) {
    exists b :: b in T && at < now + b + Index.SECOND
  }

  ghost predicate CellOf(now: int, c: Index.Cell<Value>, k: Key, T: iset<int>, minTtl: int) {
    c.key == Some(k) && c.val.Some? ==>
      && Reaches(c.expireAt, now, T)
      && var v := c.val.value;
         v.OnDisk? ==> v.log in T && v.log > minTtl && Reaches(c.expireAt, v.at, T)
  }

  ghost predicate ReadersOf(s: Store, k: Key, T: iset<int>) {
    forall q :: q in s.readers ==> ReaderOf(q, s.readers[q], k, T, s.minTtl)
  }

  ghost predicate CellsOf(s: Store, k: Key, T: iset<int>) {
    forall e :: Live(s.kv, e) ==> CellOf(s.kv.now, Index.At(s.kv, e), k, T, s.minTtl)
  }

  ghost predicate StepFrom(a: Action, k: Key, T: iset<int>) {
    a.Set? && a.item.key == k ==> a.ttl in T
  }

  lemma ReadersStepOf(s: Store, a: Action, k: Key, T: iset<int>)
    requires StoreInv(s) && ReadersOf(s, k, T) && Enabled(s, a) && StepFrom(a, k, T) && WholeSeconds(T)
    ensures ReadersOf(Step(s, a), k, T)
  {
    if OfReader(a) {
      var r := s.readers[a.q];
      assert ReaderOf(a.q, r, k, T, s.minTtl) && ReaderOk(r, s.kv.now);
      LsmTime.HeldLess(r, a, s.kv.now);
    }
    if a.Set? {
      LogOfTtl(a.ttl);
      assert a.item.key == k ==> LogKey(a.ttl) == a.ttl;
    }
  }

  lemma LogOfTtl(ttl: int)
    ensures LogKey(ttl) > 0 ==> LogKey(ttl) <= ttl < LogKey(ttl) + Index.SECOND
    ensures ttl > 0 && ttl % Index.SECOND == 0 ==> LogKey(ttl) == ttl
  {
  }

  lemma NewReach(now: int, ttl: int, b: int, T: iset<int>)
    requires b in T && ttl < b + Index.SECOND
    ensures Reaches(now + ttl, now, T)
  {
  }

  lemma LaterReach(at: int, now: int, later: int, T: iset<int>)
    requires Reaches(at, now, T) && now <= later
    ensures Reaches(at, later, T)
  {
    var b :| b in T && at < now + b + Index.SECOND;
    assert at < later + b + Index.SECOND;
  }

  lemma RecordOf(s: Store, a: Action, k: Key, T: iset<int>)
    requires StoreInv(s) && ReadersOf(s, k, T) && Enabled(s, a) && a.AfterWrite? && WholeSeconds(T)
    requires s.readers[a.q].phase.record.item.key == k
    ensures a.q in T && a.q > s.minTtl && a.q <= s.readers[a.q].log.ttl < a.q + Index.SECOND
    ensures s.readers[a.q].phase.record.disk.key == k
  {
    var r := s.readers[a.q];
    assert ReaderOf(a.q, r, k, T, s.minTtl) && ReaderOk(r, s.kv.now);
    assert r.phase.record.item in Held(r);
  }

  lemma CellStepOf(s: Store, a: Action, k: Key, T: iset<int>, e: Entry)
    requires StoreInv(s) && ReadersOf(s, k, T) && CellsOf(s, k, T)
    requires Enabled(s, a) && StepFrom(a, k, T) && WholeSeconds(T)
    requires Live(Step(s, a).kv, e)
    ensures CellOf(Step(s, a).kv.now, Index.At(Step(s, a).kv, e), k, T, s.minTtl)
  {
    if IndexStep(s, a).Some? {
      var i := IndexStep(s, a).value;
      ClockStep(s, a);
      LiveFrom(s.kv, i, e);
      SameNow(s.kv, i);
      var was, after := Index.At(s.kv, e), Index.At(Step(s, a).kv, e);
      hide StoreInv, ReadersOf, Index.Step, Enabled, WholeSeconds;
      if Live(s.kv, e) {
        assert CellOf(s.kv.now, was, k, T, s.minTtl);
        if was.key == Some(k) {
          LaterReach(was.expireAt, s.kv.now, Step(s, a).kv.now, T);
        }
      }
      if after.key == Some(k) && after != was {
        NewCell(s, a, k, T);
      }
    }
  }

  /** What a Set or a hand-over puts into an entry of k. */
  lemma NewCell(s: Store, a: Action, k: Key, T: iset<int>)
    requires StoreInv(s) && ReadersOf(s, k, T) && Enabled(s, a) && StepFrom(a, k, T) && WholeSeconds(T)
    ensures a.Set? && a.item.key == k ==> Reaches(s.kv.now + a.ttl, s.kv.now, T)
    ensures a.AfterWrite? && s.readers[a.q].phase.record.disk.key == k ==>
              a.q in T && a.q > s.minTtl && Reaches(s.kv.now + s.readers[a.q].log.ttl, s.kv.now, T)
  {
    if a.Set? && a.item.key == k {
      NewReach(s.kv.now, a.ttl, a.ttl, T);
    }
    if a.AfterWrite? && s.readers[a.q].phase.record.disk.key == k {
      assert ReaderOk(s.readers[a.q], s.kv.now);
      RecordOf(s, a, k, T);
      NewReach(s.kv.now, s.readers[a.q].log.ttl, a.q, T);
    }
  }

  lemma {:induction false} RunOf(now: int, minTtl: int, acts: seq<Action>, k: Key, T: iset<int>)
    requires Allowed(Init(now, minTtl), acts) && TtlsFrom(acts, k, T) && WholeSeconds(T)
    ensures var s := Run(Init(now, minTtl), acts);
            ReadersOf(s, k, T) && CellsOf(s, k, T) && s.minTtl == minTtl
  {
    if acts != [] {
      var before, a := acts[..|acts| - 1], acts[|acts| - 1];
      var s := Run(Init(now, minTtl), before);
      RunOf(now, minTtl, before, k, T);
      RunInv(now, minTtl, before);
      assert a in acts;
      ReadersStepOf(s, a, k, T);
      forall e | Live(Step(s, a).kv, e) ensures CellOf(Step(s, a).kv.now, Index.At(Step(s, a).kv, e), k, T, minTtl) {
        CellStepOf(s, a, k, T, e);
      }
    }
  }

  // ---------- When files are open ----------

  lemma ExtraGrows(a: int, b: int)
    requires 0 < a <= b
    ensures a + Extra(a) <= b + Extra(b)
  {
    assert a / (4 * Index.SECOND) <= b / (4 * Index.SECOND);
  }

  lemma WholeExtra(a: int)
    requires 0 < a
    ensures Extra(a) % Index.SECOND == 0
  {
  }

  lemma WholeSum(a: int, b: int)
    requires a % Index.SECOND == 0 && b % Index.SECOND == 0
    ensures (a + b) % Index.SECOND == 0
  {
    assert a == a / Index.SECOND * Index.SECOND && b == b / Index.SECOND * Index.SECOND;
    assert a + b == (a / Index.SECOND + b / Index.SECOND) * Index.SECOND;
  }

  lemma WholeLess(a: int, b: int)
    requires a % Index.SECOND == 0 && b % Index.SECOND == 0 && a < b
    ensures a + Index.SECOND <= b
  {
    assert a == a / Index.SECOND * Index.SECOND && b == b / Index.SECOND * Index.SECOND;
  }

  /** Between whole seconds less is a second less. */
  lemma ASecondLess(a: int, b: int)
    requires 0 < a && a % Index.SECOND == 0 && b % Index.SECOND == 0 && b < LsmTime.Kept(a)
    ensures b + Index.SECOND <= a + Extra(a)
  {
    LsmTime.ExtraBounds(a);
    WholeExtra(a);
    hide Extra, LsmTime.Kept;
    WholeSum(a, Extra(a));
    WholeLess(b, a + Extra(a));
  }

  /** If a Get takes an item on disk for unexpired, its file is open. */
  predicate HitOpen(s: Store, k: Key) {
    var g := Get(s, k);
    g.Found? && !g.expired && g.value.OnDisk? ==> FileOf(s, g.value).Some? && FileOf(s, g.value).value.reader
  }

  lemma OpenOf(s: Store, k: Key, T: iset<int>)
    requires StoreInv(s) && ReadersOf(s, k, T) && CellsOf(s, k, T)
    requires WholeSeconds(T) && FilesOutlast(T, s.minTtl)
    ensures HitOpen(s, k)
  {
    var g := Get(s, k);
    if g.Found? && !g.expired && g.value.OnDisk? {
      var c, v := Index.At(s.kv, s.kv.items[k]), g.value;
      BoundLive(s.kv, k);
      assert CellOf(s.kv.now, c, k, T, s.minTtl) && DiskOk(s, v);
      var r := s.readers[v.log];
      assert ReaderOf(v.log, r, k, T, s.minTtl) && ReaderOk(r, s.kv.now);
      var f := r.log.files[v.file];
      var b :| b in T && c.expireAt < v.at + b + Index.SECOND;
      ASecondLess(v.log, b);
      ExtraGrows(v.log, f.ttl);
      assert !f.reader ==> Due(f, s.kv.now);
    }
  }

  /** In every run that sets k with TTLs of T, the file of every unexpired hit of k is open. */
  ghost predicate AlwaysOpen(now: int, minTtl: int, k: Key, T: iset<int>) {
    forall acts :: Allowed(Init(now, minTtl), acts) && TtlsFrom(acts, k, T) ==> HitOpen(Run(Init(now, minTtl), acts), k)
  }

  /**
   A file outlives every unexpired entry of k that points into it if and only if no TTL of k reaches as far as
   a file of another, or the same, is kept. With one TTL that is: four seconds or more, or never on disk.
   */
  lemma {:induction false} OpenIff(now: int, minTtl: int, k: Key, T: iset<int>)
    requires WholeSeconds(T)
    ensures AlwaysOpen(now, minTtl, k, T) <==> FilesOutlast(T, minTtl)
  {
    if FilesOutlast(T, minTtl) {
      forall acts | Allowed(Init(now, minTtl), acts) && TtlsFrom(acts, k, T)
        ensures HitOpen(Run(Init(now, minTtl), acts), k)
      {
        RunInv(now, minTtl, acts);
        RunOf(now, minTtl, acts, k, T);
        OpenOf(Run(Init(now, minTtl), acts), k, T);
      }
    } else {
      var a, b :| a in T && b in T && a > minTtl && b >= LsmTime.Kept(a);
      NotOpen(now, minTtl, k, T, a, b);
    }
  }

  lemma {:induction false} NotOpen(now: int, minTtl: int, k: Key, T: iset<int>, a: int, b: int)
    requires WholeSeconds(T) && a in T && b in T && a > minTtl && b >= LsmTime.Kept(a)
    ensures !AlwaysOpen(now, minTtl, k, T)
  {
    hide Step, Enabled, Init, Extra, LsmTime.Kept, HitOpen, LsmGaps.GapRun, LsmGaps.UnexpiredButClosed, StoreInv;
    LsmTime.ExtraBounds(a);
    var it := Item(k, 200, [], [[0]]);
    OneByte();
    var acts := LsmGaps.GapRun(it, a, b, LsmTime.Kept(a));
    LsmGaps.ClosedEarly(now, minTtl, it, a, b, LsmTime.Kept(a));
    GapRunFrom(it, a, b, LsmTime.Kept(a), T);
    RunInv(now, minTtl, acts);
    ClosedNotOpen(Run(Init(now, minTtl), acts), k);
  }

  lemma OneByte()
    ensures Flatten([[0]]) == [0]
  {
    assert Flatten([[0]]) == [0] + Flatten([]);
  }

  lemma GapRunFrom(it: Item, a: int, b: int, d: nat, T: iset<int>)
    requires a in T && b in T
    ensures TtlsFrom(LsmGaps.GapRun(it, a, b, d), it.key, T)
  {
    var sets: seq<Action> := [Set(0, it, a)] + [Set(1, it, a)] + [Set(2, it, b)];
    var others := [Take(a)] + [WriteOut(a, RoomFor(it))] + [AfterWrite(a, 0)]
                  + [Finish(a)] + [Take(a)] + [WriteFails(a, LsmGaps.FULL)] + [Tick(d)] + [CloseFile(a, 0)];
    assert LsmGaps.GapRun(it, a, b, d) == sets + others;
    forall x: Action | x in sets + others && x.Set? ensures x.ttl in T {
      assert x in sets;
    }
  }

  lemma ClosedNotOpen(s: Store, k: Key)
    requires StoreInv(s) && LsmGaps.UnexpiredButClosed(s, k)
    ensures !HitOpen(s, k)
  {
    BoundLive(s.kv, k);
    assert DiskOk(s, Get(s, k).value);
  }

  /** The case of one TTL. */
  lemma {:induction false} OneTtlIff(now: int, minTtl: int, k: Key, ttl: int)
    requires ttl > 0 && ttl % Index.SECOND == 0
    ensures AlwaysOpen(now, minTtl, k, iset{ttl}) <==> ttl <= minTtl || ttl >= 4 * Index.SECOND
  {
    OpenIff(now, minTtl, k, iset{ttl});
    LsmTime.ExtraBounds(ttl);
    assert ttl < 4 * Index.SECOND ==> LsmTime.Kept(ttl) == ttl;
    assert ttl in iset{ttl};
  }
}
