/**
 Which item a hit returns. The log has no version check when it hands a record over, so this
 depends on what is still queued when a key is set again or deleted.
 */
module LsmFresh {
  import opened Wrappers
  import opened Log
  import opened LogSafety
  import Index
  import IndexHistory
  import opened Lsm
  import opened LsmSafety
  import opened LsmTime

  /** A Set or a Delete of k. */
  predicate Writes(a: Action, k: Key) {
    (a.Set? && a.item.key == k) || (a.Delete? && a.k == k)
  }

  function After(was: Option<Item>, a: Action, k: Key): Option<Item> {
    if !Writes(a, k) then was else if a.Set? then Some(a.item) else None
  }

  /** The item of the last Set of k that no Delete of k follows. */
  function Latest(acts: seq<Action>, k: Key): Option<Item> {
    if acts == [] then None else After(Latest(acts[..|acts| - 1], k), acts[|acts| - 1], k)
  }

  /** The reader still has a version of k to hand over. */
  predicate Holds(r: Reader, k: Key) {
    exists it :: it in Held(r) && it.key == k
  }

  predicate Queued(s: Store, k: Key) {
    exists q :: q in s.readers && Holds(s.readers[q], k)
  }

  /** k is not set or deleted while a version of it is queued. */
  predicate Careful(s: Store, acts: seq<Action>, k: Key) {
    acts == [] ||
    (var before := acts[..|acts| - 1];
     Careful(s, before, k) && (Writes(acts[|acts| - 1], k) ==> !Queued(Run(s, before), k)))
  }

  /** k is neither set nor deleted. */
  predicate Quiet(acts: seq<Action>, k: Key) {
    forall a :: a in acts ==> !Writes(a, k)
  }

  // ---------- Fresh hits ----------

  predicate ReaderFresh(r: Reader, k: Key, latest: Option<Item>) {
    forall it :: it in Held(r) && it.key == k ==> latest == Some(it)
  }

  predicate QueuesFresh(s: Store, k: Key, latest: Option<Item>) {
    forall q :: q in s.readers ==> ReaderFresh(s.readers[q], k, latest)
  }

  predicate HitFresh(s: Store, k: Key, latest: Option<Item>) {
    match Get(s, k)
    case Missing => true
    case Found(v, _) => latest == Some(v.item)
  }

  predicate Fresh(s: Store, k: Key, latest: Option<Item>) {
    QueuesFresh(s, k, latest) && HitFresh(s, k, latest)
  }

  lemma ReaderStepFresh(r: Reader, a: Action, now: int, k: Key, latest: Option<Item>)
    requires ReaderOk(r, now) && ReaderEnabled(r, a, now) && ReaderFresh(r, k, latest)
    ensures ReaderFresh(ReaderStep(r, a, now), k, latest)
  {
    match a
    case WriteOut(_, room) => WriteOutKeeps(r, room, now);
    case WriteFails(_, room) => WriteFailsKeeps(r, room, now);
    case _ =>
  }

  lemma QueuesStepFresh(s: Store, a: Action, k: Key, latest: Option<Item>)
    requires StoreInv(s) && Enabled(s, a) && QueuesFresh(s, k, latest)
    requires a.Set? && a.item.key == k ==> latest == Some(a.item)
    ensures QueuesFresh(Step(s, a), k, latest)
  {
    if OfReader(a) {
      ReaderStepFresh(s.readers[a.q], a, s.kv.now, k, latest);
    }
  }

  lemma HitStepFresh(s: Store, a: Action, k: Key, was: Option<Item>)
    requires StoreInv(s) && Enabled(s, a) && Fresh(s, k, was)
    ensures HitFresh(Step(s, a), k, After(was, a, k))
  {
    if IndexStep(s, a).Some? {
      var i := IndexStep(s, a).value;
      IndexHistory.StepGet(s.kv, i, k);
      if a.AfterWrite? {
        var r := s.readers[a.q];
        assert ReaderOk(r, s.kv.now) && r.phase.record.item in Held(r);
      }
      assert IndexHistory.Writes(i, k) || k !in Index.Step(s.kv, i).items || k in s.kv.items;
    }
  }

  /** A step keeps hits fresh if, after it, what is queued of k is still the latest. */
  lemma StepFresh(s: Store, a: Action, k: Key, was: Option<Item>)
    requires StoreInv(s) && Enabled(s, a) && Fresh(s, k, was) && QueuesFresh(s, k, After(was, a, k))
    ensures Fresh(Step(s, a), k, After(was, a, k))
  {
    QueuesStepFresh(s, a, k, After(was, a, k));
    HitStepFresh(s, a, k, was);
  }

  lemma {:induction false} CarefulFresh(now: int, minTtl: int, acts: seq<Action>, k: Key)
    requires Allowed(Init(now, minTtl), acts) && Careful(Init(now, minTtl), acts, k)
    ensures Fresh(Run(Init(now, minTtl), acts), k, Latest(acts, k))
  {
    if acts != [] {
      var before, a := acts[..|acts| - 1], acts[|acts| - 1];
      var s := Run(Init(now, minTtl), before);
      CarefulFresh(now, minTtl, before, k);
      RunInv(now, minTtl, before);
      if Writes(a, k) {
        forall q | q in s.readers ensures ReaderFresh(s.readers[q], k, After(Latest(before, k), a, k)) {
          assert !Holds(s.readers[q], k);
        }
      }
      StepFresh(s, a, k, Latest(before, k));
    }
  }

  /** In a run that is careful with k, a hit of k is its latest item, in memory or on disk. */
  lemma {:induction false} HitIsLatest(now: int, minTtl: int, acts: seq<Action>, k: Key)
    requires Allowed(Init(now, minTtl), acts) && Careful(Init(now, minTtl), acts, k)
    ensures var g := Get(Run(Init(now, minTtl), acts), k);
            g.Found? ==> Latest(acts, k) == Some(g.value.item)
  {
    CarefulFresh(now, minTtl, acts, k);
  }

  /**
   From one end to the other: in a careful run with fixed TTLs of four seconds or more, an
   unexpired hit serves exactly the body that was last set.
   */
  lemma {:induction false} ServesLatestBody(now: int, minTtl: int, acts: seq<Action>, ttlOf: Key -> int, k: Key)
    requires Allowed(Init(now, minTtl), acts) && Careful(Init(now, minTtl), acts, k) && FixedTtls(acts, ttlOf)
    requires ttlOf(k) >= 4 * Index.SECOND
    ensures var s := Run(Init(now, minTtl), acts);
            var g := Get(s, k);
            g.Found? && !g.expired ==>
              Latest(acts, k).Some? && Body(s, g.value) == Some(Flatten(Latest(acts, k).value.body))
  {
    HitIsLatest(now, minTtl, acts, k);
    UnexpiredReads(now, minTtl, acts, ttlOf, k);
  }

  // ---------- What is queued comes out ----------

  /** Room for one item. */
  function RoomFor(it: Item): Room {
    Room(|Flatten(it.head)|, |NEW_LINE|, |Flatten(it.body)|, |END_MARK|)
  }

  lemma Extend(s: Store, acts: seq<Action>, a: Action) returns (acts': seq<Action>)
    ensures acts' == acts + [a] && Run(s, acts') == Step(Run(s, acts), a)
    ensures Allowed(s, acts') <==> Allowed(s, acts) && Enabled(Run(s, acts), a)
    ensures forall k :: Latest(acts', k) == After(Latest(acts, k), a, k)
  {
    acts' := acts + [a];
    assert acts'[..|acts|] == acts;
  }

  /** Entries are without end: there is always one that the index does not know. */
  lemma {:induction false} Unused(known: set<Entry>) returns (e: Entry)
    ensures forall f :: f in known ==> f < e
    decreases |known|
  {
    e := 0;
    if known != {} {
      var f :| f in known;
      var rest := Unused(known - {f});
      assert forall g :: g in known ==> g == f || g in known - {f};
      e := if f < rest then rest else f + 1;
    }
  }

  /** The next step of a reader that has something to hand over, when nothing stands in its way. */
  function NextStep(r: Reader, q: int, e: Entry): Action
    requires PhaseOk(r)
  {
    match r.phase
    case Idle => Take(q)
    case Trying(_) => WriteOut(q, RoomFor(r.queue[0]))
    case Handing(_) => AfterWrite(q, e)
    case Ending => Finish(q)
  }

  /** How many steps it is from having handed over everything. */
  function Distance(r: Reader): nat {
    4 * |r.queue| + match r.phase case Idle => 2 case Trying(_) => 1 case Handing(_) => 4 case Ending => 3
  }

  lemma NextReaderStep(r: Reader, q: int, e: Entry, now: int)
    requires ReaderOk(r, now) && Held(r) != []
    ensures PhaseOk(r) && ReaderEnabled(r, NextStep(r, q, e), now)
    ensures var r' := ReaderStep(r, NextStep(r, q, e), now);
            Distance(r') < Distance(r) && Held(r') == if r.phase.Handing? then Held(r)[1..] else Held(r)
  {
    if r.phase.Trying? {
      WriteNext(r, q, now);
    } else {
      hide LogInv, FilesOk, Log.Try, ReadsBack;
    }
  }

  lemma WriteNext(r: Reader, q: int, now: int)
    requires ReaderOk(r, now) && r.phase.Trying?
    ensures r.queue != [] && ReaderEnabled(r, WriteOut(q, RoomFor(r.queue[0])), now)
    ensures var r' := ReaderStep(r, WriteOut(q, RoomFor(r.queue[0])), now);
            Distance(r') < Distance(r) && Held(r') == Held(r)
  {
    var room := RoomFor(r.queue[0]);
    WriteOutKeeps(r, room, now);
    hide LogInv, FilesOk, Log.Try, Grows, ReadsBack, ReaderOk;
    assert ReaderStep(r, WriteOut(q, room), now) == ReaderStep(r, WriteOut(0, room), now);
    assert r.queue == [r.queue[0]] + r.queue[1..];
  }

  lemma NextStepOf(s: Store, q: int, e: Entry)
    requires StoreInv(s) && q in s.readers && Held(s.readers[q]) != [] && e !in s.kv.heap
    ensures var r := s.readers[q];
            && PhaseOk(r) && Enabled(s, NextStep(r, q, e)) && q in Step(s, NextStep(r, q, e)).readers
            && var r' := Step(s, NextStep(r, q, e)).readers[q];
               Distance(r') < Distance(r) && Held(r') == if r.phase.Handing? then Held(r)[1..] else Held(r)
  {
    var r := s.readers[q];
    assert ReaderOk(r, s.kv.now);
    NextReaderStep(r, q, e, s.kv.now);
    hide ReaderOk, ReaderEnabled, ReaderStep, Distance, Held, StoreInv, Index.Step;
  }

  lemma HandedOver(s: Store, q: int, e: Entry)
    requires StoreInv(s) && q in s.readers && s.readers[q].phase.Handing? && Enabled(s, AfterWrite(q, e))
    ensures var it := s.readers[q].phase.record.item;
            var g := Get(Step(s, AfterWrite(q, e)), it.key);
            g.Found? && g.value.item == it
  {
    assert ReaderOk(s.readers[q], s.kv.now);
    IndexHistory.StepGet(s.kv, IndexStep(s, AfterWrite(q, e)).value, s.readers[q].phase.record.item.key);
  }

  predicate Finds(s: Store, it: Item) {
    var g := Get(s, it.key);
    g.Found? && g.value.item == it
  }

  /** One step of a reader that has something to hand over. */
  lemma OneStepOn(now: int, minTtl: int, acts: seq<Action>, q: int) returns (a: Action)
    requires Allowed(Init(now, minTtl), acts)
    requires var s := Run(Init(now, minTtl), acts); q in s.readers && Held(s.readers[q]) != []
    ensures OfReader(a) && Allowed(Init(now, minTtl), acts + [a])
    ensures var s, s' := Run(Init(now, minTtl), acts), Run(Init(now, minTtl), acts + [a]);
            && q in s'.readers && Distance(s'.readers[q]) < Distance(s.readers[q])
            && if s.readers[q].phase.Handing?
               then Finds(s', Held(s.readers[q])[0]) && Held(s'.readers[q]) == Held(s.readers[q])[1..]
               else Held(s'.readers[q]) == Held(s.readers[q])
  {
    hide Step, Enabled, Get, Distance;
    var s := Run(Init(now, minTtl), acts);
    RunInv(now, minTtl, acts);
    var e := Unused(s.kv.heap.Keys);
    NextStepOf(s, q, e);
    a := NextStep(s.readers[q], q, e);
    var _ := Extend(Init(now, minTtl), acts, a);
    if s.readers[q].phase.Handing? {
      HandedOver(s, q, e);
    }
  }

  /** From any state an item that a reader holds can become what a Get of its key finds, with no Set and no Delete. */
  lemma {:induction false} ComesOut(now: int, minTtl: int, acts: seq<Action>, q: int, it: Item)
    returns (more: seq<Action>)
    requires Allowed(Init(now, minTtl), acts)
    requires var s := Run(Init(now, minTtl), acts); q in s.readers && it in Held(s.readers[q])
    ensures Allowed(Init(now, minTtl), acts + more) && forall k :: Quiet(more, k)
    ensures Finds(Run(Init(now, minTtl), acts + more), it)
    decreases Distance(Run(Init(now, minTtl), acts).readers[q])
  {
    hide Run, Allowed, Finds, Distance, Held, Init;
    var r := Run(Init(now, minTtl), acts).readers[q];
    var a := OneStepOn(now, minTtl, acts, q);
    more := [a];
    if !(r.phase.Handing? && Held(r)[0] == it) {
      var rest := ComesOut(now, minTtl, acts + [a], q, it);
      more := [a] + rest;
      assert acts + [a] + rest == acts + more;
      forall k ensures Quiet(more, k) {
        assert Quiet(rest, k) && !Writes(a, k);
      }
    }
  }

  lemma {:induction false} QuietLatest(acts: seq<Action>, more: seq<Action>, k: Key)
    requires Quiet(more, k)
    ensures Latest(acts + more, k) == Latest(acts, k)
  {
    if more == [] {
      assert acts + more == acts;
    } else {
      var before := more[..|more| - 1];
      assert forall a :: a in before ==> a in more;
      QuietLatest(acts, before, k);
      assert (acts + more)[..|acts + more| - 1] == acts + before;
      assert more[|more| - 1] in more;
    }
  }

  // ---------- Stale hits ----------

  /** Some run goes on from acts, neither setting nor deleting k, to a hit of k that is not its latest item. */
  ghost predicate GoesStale(now: int, minTtl: int, acts: seq<Action>, k: Key) {
    exists more ::
      Allowed(Init(now, minTtl), acts + more) && Quiet(more, k)
      && !HitFresh(Run(Init(now, minTtl), acts + more), k, Latest(acts, k))
  }

  /** Whatever happened before: what is queued of k, and is not its latest item, comes back. */
  lemma {:induction false} QueuedGoesStale(now: int, minTtl: int, acts: seq<Action>, q: int, it: Item)
    requires Allowed(Init(now, minTtl), acts) && Latest(acts, it.key) != Some(it)
    requires var s := Run(Init(now, minTtl), acts); q in s.readers && it in Held(s.readers[q])
    ensures GoesStale(now, minTtl, acts, it.key)
  {
    var more := ComesOut(now, minTtl, acts, q, it);
    assert Quiet(more, it.key);
  }

  lemma {:induction false} QuietFresh(now: int, minTtl: int, acts: seq<Action>, more: seq<Action>, k: Key)
    requires Allowed(Init(now, minTtl), acts + more) && Quiet(more, k)
    requires Fresh(Run(Init(now, minTtl), acts), k, Latest(acts, k))
    ensures Fresh(Run(Init(now, minTtl), acts + more), k, Latest(acts, k))
  {
    if more == [] {
      assert acts + more == acts;
    } else {
      var before, a := more[..|more| - 1], more[|more| - 1];
      assert (acts + more)[..|acts + more| - 1] == acts + before;
      assert forall b :: b in before ==> b in more;
      QuietFresh(now, minTtl, acts, before, k);
      RunInv(now, minTtl, acts + before);
      assert a in more;
      StepFresh(Run(Init(now, minTtl), acts + before), a, k, Latest(acts, k));
    }
  }

  lemma {:induction false} NeverStale(now: int, minTtl: int, acts: seq<Action>, k: Key)
    requires Fresh(Run(Init(now, minTtl), acts), k, Latest(acts, k))
    ensures !GoesStale(now, minTtl, acts, k)
  {
    forall more | Allowed(Init(now, minTtl), acts + more) && Quiet(more, k)
      ensures HitFresh(Run(Init(now, minTtl), acts + more), k, Latest(acts, k))
    {
      QuietFresh(now, minTtl, acts, more, k);
    }
  }

  /** Deleting a key while a version of it is queued, wherever in a queue: it comes back, whatever happened before. */
  lemma {:induction false} DeletedComesBack(now: int, minTtl: int, acts: seq<Action>, k: Key)
    requires Allowed(Init(now, minTtl), acts) && Queued(Run(Init(now, minTtl), acts), k)
    ensures Allowed(Init(now, minTtl), acts + [Delete(k)]) && Latest(acts + [Delete(k)], k) == None
    ensures GoesStale(now, minTtl, acts + [Delete(k)], k)
  {
    hide Step, Get;
    var s := Run(Init(now, minTtl), acts);
    var q :| q in s.readers && Holds(s.readers[q], k);
    var it :| it in Held(s.readers[q]) && it.key == k;
    var acts' := Extend(Init(now, minTtl), acts, Delete(k));
    WriteHolds(s, Delete(k), k, q);
    QueuedGoesStale(now, minTtl, acts', q, it);
  }

  /** Setting a newer version while an older one is queued: the older one comes back. */
  lemma {:induction false} OlderComesBack(now: int, minTtl: int, acts: seq<Action>, q: int, older: Item, a: Action)
    requires a.Set? && a.item.key == older.key && a.item != older
    requires Allowed(Init(now, minTtl), acts + [a])
    requires var s := Run(Init(now, minTtl), acts); q in s.readers && older in Held(s.readers[q])
    ensures Latest(acts + [a], older.key) == Some(a.item)
    ensures GoesStale(now, minTtl, acts + [a], older.key)
  {
    hide Step, Get;
    var acts' := Extend(Init(now, minTtl), acts, a);
    WriteHolds(Run(Init(now, minTtl), acts), a, older.key, q);
    QueuedGoesStale(now, minTtl, acts', q, older);
  }

  /**
   Whatever happened before: with no Set and no Delete of k there can be a stale hit of k if and only if there is one
   now, or a log has a version of k that is not the latest.
   */
  lemma {:induction false} GoesStaleIff(now: int, minTtl: int, acts: seq<Action>, k: Key)
    requires Allowed(Init(now, minTtl), acts)
    ensures GoesStale(now, minTtl, acts, k) <==> !Fresh(Run(Init(now, minTtl), acts), k, Latest(acts, k))
  {
    hide Run, Allowed, Latest, HitFresh;
    var s, latest := Run(Init(now, minTtl), acts), Latest(acts, k);
    if Fresh(s, k, latest) {
      NeverStale(now, minTtl, acts, k);
    } else if !HitFresh(s, k, latest) {
      assert acts + [] == acts;
      assert Quiet([], k);
    } else {
      var q :| q in s.readers && !ReaderFresh(s.readers[q], k, latest);
      var it :| it in Held(s.readers[q]) && it.key == k && latest != Some(it);
      QueuedGoesStale(now, minTtl, acts, q, it);
    }
  }

  /** A Set or Delete leaves what the readers hold, and a Set may add its own item. */
  lemma WriteHolds(s: Store, a: Action, k: Key, q: int)
    requires Writes(a, k) && q in s.readers
    ensures q in Step(s, a).readers
    ensures forall it :: it in Held(s.readers[q]) ==> it in Held(Step(s, a).readers[q])
  {
  }

  /**
   After a run that was careful with k, a Set or Delete of k can lead to a stale hit of k exactly when
   a version of k is queued and the step changes what is the latest.
   */
  lemma {:induction false} StaleIff(now: int, minTtl: int, acts: seq<Action>, a: Action, k: Key)
    requires Allowed(Init(now, minTtl), acts + [a]) && Careful(Init(now, minTtl), acts, k) && Writes(a, k)
    ensures GoesStale(now, minTtl, acts + [a], k) <==>
            Queued(Run(Init(now, minTtl), acts), k) && (a.Set? ==> Latest(acts, k) != Some(a.item))
  {
    hide Step, Enabled, HitFresh, QueuesFresh, ReaderFresh;
    var s := Run(Init(now, minTtl), acts);
    var _ := Extend(Init(now, minTtl), acts, a);
    CarefulFresh(now, minTtl, acts, k);
    RunInv(now, minTtl, acts);
    if Queued(s, k) {
      var q, it := QueuedLatest(s, k, Latest(acts, k));
      WriteHolds(s, a, k, q);
      if After(Latest(acts, k), a, k) != Some(it) {
        QueuedGoesStale(now, minTtl, acts + [a], q, it);
      } else {
        StepFresh(s, a, k, Latest(acts, k));
        NeverStale(now, minTtl, acts + [a], k);
      }
    } else {
      NothingQueued(s, k, After(Latest(acts, k), a, k));
      StepFresh(s, a, k, Latest(acts, k));
      NeverStale(now, minTtl, acts + [a], k);
    }
  }

  lemma QueuedLatest(s: Store, k: Key, latest: Option<Item>) returns (q: int, it: Item)
    requires Queued(s, k) && QueuesFresh(s, k, latest)
    ensures q in s.readers && it in Held(s.readers[q]) && it.key == k && latest == Some(it)
  {
    q :| q in s.readers && Holds(s.readers[q], k);
    it :| it in Held(s.readers[q]) && it.key == k;
    assert ReaderFresh(s.readers[q], k, latest);
  }

  lemma NothingQueued(s: Store, k: Key, latest: Option<Item>)
    requires !Queued(s, k)
    ensures QueuesFresh(s, k, latest)
  {
    forall q | q in s.readers ensures ReaderFresh(s.readers[q], k, latest) {
      assert !Holds(s.readers[q], k);
    }
  }
}
