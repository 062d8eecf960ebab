/**
 A log hands items over in the order in which they were set.
 */
module LsmOrder {
  import opened Wrappers
  import opened Log
  import opened LogSafety
  import Index
  import opened Lsm
  import opened LsmSafety
  import opened LsmFresh
  import opened LsmTime

  /** What a run sets with TTLs of log q, that goes to disk. */
  function SentTo(acts: seq<Action>, q: int, minTtl: int): seq<Item> {
    if acts == [] then []
    else
      var a := acts[|acts| - 1];
      SentTo(acts[..|acts| - 1], q, minTtl) + if a.Set? && a.ttl > minTtl && LogKey(a.ttl) == q then [a.item] else []
  }

  function HeldBy(s: Store, q: int): seq<Item> {
    if q in s.readers then Held(s.readers[q]) else []
  }

  predicate LastOnes<T(==)>(h: seq<T>, all: seq<T>) {
    |h| <= |all| && h == all[|all| - |h|..]
  }

  /** The log of a TTL: that of its seconds, without what is less than one, toward zero. */
  lemma LogOf(ttl: int, seconds: nat)
    requires seconds * Index.SECOND <= (if ttl < 0 then -ttl else ttl) < (seconds + 1) * Index.SECOND
    ensures LogKey(ttl) == if ttl < 0 then -(seconds * Index.SECOND) else seconds * Index.SECOND
  {
  }

  /** A reader's step lets go of what it has first, if of anything: when it hands it over, or gives it up. */
  lemma HeldStep(r: Reader, a: Action, now: int)
    requires ReaderOk(r, now) && OfReader(a) && ReaderEnabled(r, a, now)
    ensures var h, h' := Held(r), Held(ReaderStep(r, a, now));
            h' == h || (h != [] && h' == h[1..] && (a.AfterWrite? || (a.WriteFails? && r.phase == Trying(2))))
  {
    match a
    case WriteOut(_, room) => WrittenHeld(r, room, now);
    case WriteFails(_, room) => hide Log.Try, LogInv, FilesOk;
    case _ => hide LogInv, FilesOk, RotateIf;
  }

  lemma WrittenHeld(r: Reader, room: Room, now: int)
    requires ReaderOk(r, now) && ReaderEnabled(r, WriteOut(0, room), now)
    ensures Held(ReaderStep(r, WriteOut(0, room), now)) == Held(r)
  {
    WriteOutKeeps(r, room, now);
    hide ReaderOk, Grows, ReaderStep, Fits;
    assert r.queue == [r.queue[0]] + r.queue[1..];
  }

  lemma OneLess<T>(h: seq<T>, all: seq<T>)
    requires LastOnes(h, all) && h != []
    ensures LastOnes(h[1..], all)
  {
    assert all[|all| - |h|..][1..] == all[|all| - |h| + 1..];
  }

  lemma OneMore<T>(h: seq<T>, all: seq<T>, x: T)
    requires LastOnes(h, all)
    ensures LastOnes(h + [x], all + [x])
  {
    assert (all + [x])[|all| - |h|..] == all[|all| - |h|..] + [x];
  }

  lemma OrderStep(s: Store, a: Action, q: int)
    requires StoreInv(s) && Enabled(s, a)
    ensures var h, h' := HeldBy(s, q), HeldBy(Step(s, a), q);
            if a.Set? && a.ttl > s.minTtl && LogKey(a.ttl) == q then h' == h + [a.item]
            else h' == h || (h != [] && h' == h[1..])
  {
    hide Index.Step, IndexStep, ReaderStep, ReaderEnabled, LogKey;
    if OfReader(a) && a.q == q {
      assert ReaderOk(s.readers[q], s.kv.now);
      HeldStep(s.readers[q], a, s.kv.now);
    }
  }

  /** In every run: what a log still has to hand over is what was last sent to it, in the order in which it was sent. */
  lemma {:induction false} FirstInFirstOut(now: int, minTtl: int, acts: seq<Action>, q: int)
    requires Allowed(Init(now, minTtl), acts)
    ensures var s := Run(Init(now, minTtl), acts);
            s.minTtl == minTtl && LastOnes(HeldBy(s, q), SentTo(acts, q, minTtl))
  {
    hide StoreInv, Enabled, LogKey, HeldBy;
    if acts == [] {
      NothingHeld(now, minTtl, q);
    } else {
      var before, a := acts[..|acts| - 1], acts[|acts| - 1];
      var s := Run(Init(now, minTtl), before);
      FirstInFirstOut(now, minTtl, before, q);
      RunInv(now, minTtl, before);
      OrderStep(s, a, q);
      var h, sent := HeldBy(s, q), SentTo(before, q, minTtl);
      if a.Set? && a.ttl > minTtl && LogKey(a.ttl) == q {
        OneMore(h, sent, a.item);
      } else {
        assert sent + [] == sent;
        if h != [] {
          OneLess(h, sent);
        }
      }
    }
  }

  lemma NothingHeld(now: int, minTtl: int, q: int)
    ensures HeldBy(Init(now, minTtl), q) == []
  {
  }

  // ---------- The TTL of a log ----------

  /** The TTL of the first item that a run sends to log q: it is the log's own from then on. */
  function FirstTtl(acts: seq<Action>, q: int, minTtl: int): Option<int> {
    if acts == [] then None
    else
      var a, before := acts[|acts| - 1], FirstTtl(acts[..|acts| - 1], q, minTtl);
      if before.None? && a.Set? && a.ttl > minTtl && LogKey(a.ttl) == q then Some(a.ttl) else before
  }

  function TtlOf(s: Store, q: int): Option<int> {
    if q in s.readers then Some(s.readers[q].log.ttl) else None
  }

  lemma TtlStep(s: Store, a: Action, q: int)
    requires StoreInv(s) && Enabled(s, a)
    ensures TtlOf(Step(s, a), q) ==
            if TtlOf(s, q).None? && a.Set? && a.ttl > s.minTtl && LogKey(a.ttl) == q then Some(a.ttl) else TtlOf(s, q)
  {
    hide Index.Step, IndexStep, ReaderStep, ReaderEnabled, LogKey;
    if OfReader(a) && a.q == q {
      assert ReaderOk(s.readers[q], s.kv.now);
      HeldLess(s.readers[q], a, s.kv.now);
    }
  }

  lemma {:induction false} TtlOfLog(now: int, minTtl: int, acts: seq<Action>, q: int)
    requires Allowed(Init(now, minTtl), acts)
    ensures TtlOf(Run(Init(now, minTtl), acts), q) == FirstTtl(acts, q, minTtl)
  {
    if acts != [] {
      var before := acts[..|acts| - 1];
      TtlOfLog(now, minTtl, before, q);
      RunInv(now, minTtl, before);
      FirstInFirstOut(now, minTtl, before, q);
      hide StoreInv, Enabled, Step, LogKey, TtlOf;
      TtlStep(Run(Init(now, minTtl), before), acts[|acts| - 1], q);
    }
  }

  /**
   In every run: when a log hands over a version of a key that is bound, the key expires when it did before; of one
   that is not, with the TTL of the first item that was ever sent to the log.
   */
  lemma {:induction false} HandedOverExpiry(now: int, minTtl: int, acts: seq<Action>, q: int, e: Entry)
    requires Allowed(Init(now, minTtl), acts) && Enabled(Run(Init(now, minTtl), acts), AfterWrite(q, e))
    ensures var s := Run(Init(now, minTtl), acts);
            var s' := Step(s, AfterWrite(q, e));
            var k := s.readers[q].phase.record.item.key;
            && k in s'.kv.items && FirstTtl(acts, q, minTtl).Some?
            && Index.At(s'.kv, s'.kv.items[k]).expireAt ==
               if k in s.kv.items then Index.At(s.kv, s.kv.items[k]).expireAt
               else s.kv.now + FirstTtl(acts, q, minTtl).value
  {
    var s := Run(Init(now, minTtl), acts);
    RunInv(now, minTtl, acts);
    TtlOfLog(now, minTtl, acts, q);
    assert ReaderOk(s.readers[q], s.kv.now);
  }

  // ---------- The last version ----------

  function LastOf(items: seq<Item>, k: Key): Option<Item> {
    if items == [] then None
    else if items[|items| - 1].key == k then Some(items[|items| - 1])
    else LastOf(items[..|items| - 1], k)
  }

  lemma {:induction false} LastFrom(items: seq<Item>, i: nat)
    requires i < |items| && forall j :: i < j < |items| ==> items[j].key != items[i].key
    ensures LastOf(items, items[i].key) == Some(items[i])
    decreases |items|
  {
    if i < |items| - 1 {
      LastFrom(items[..|items| - 1], i);
    }
  }

  /**
   When a log hands over a version of a key and has no other, that is the last that was sent to it, and it is what a
   Get finds.
   */
  lemma {:induction false} LastVersionLast(now: int, minTtl: int, acts: seq<Action>, q: int, e: Entry)
    requires Allowed(Init(now, minTtl), acts) && Enabled(Run(Init(now, minTtl), acts), AfterWrite(q, e))
    requires var r := Run(Init(now, minTtl), acts).readers[q];
             forall it :: it in r.queue ==> it.key != r.phase.record.item.key
    ensures var s := Run(Init(now, minTtl), acts);
            var it := s.readers[q].phase.record.item;
            && LastOf(SentTo(acts, q, minTtl), it.key) == Some(it)
            && Finds(Step(s, AfterWrite(q, e)), it)
  {
    var s := Run(Init(now, minTtl), acts);
    FirstInFirstOut(now, minTtl, acts, q);
    RunInv(now, minTtl, acts);
    HandedOver(s, q, e);
    var h, sent := HeldBy(s, q), SentTo(acts, q, minTtl);
    LastHeld(h, sent, s.readers[q].queue);
  }

  lemma LastHeld(h: seq<Item>, sent: seq<Item>, queue: seq<Item>)
    requires LastOnes(h, sent) && h != [] && h[1..] == queue && forall it :: it in queue ==> it.key != h[0].key
    ensures LastOf(sent, h[0].key) == Some(h[0])
  {
    var i := |sent| - |h|;
    forall j | i < j < |sent| ensures sent[j].key != sent[i].key {
      assert sent[j] == h[j - i] == queue[j - i - 1];
    }
    LastFrom(sent, i);
  }
}
