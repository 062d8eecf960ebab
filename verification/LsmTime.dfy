/**
 Time across the store: a file outlives every unexpired entry that points into it.
 */
module LsmTime {
  import opened Wrappers
  import opened Log
  import Index
  import opened IndexLive
  import opened Lsm
  import opened LsmSafety

  /** Every Set of a key uses the one TTL the key has, a whole number of seconds. */
  ghost predicate FixedTtls(acts: seq<Action>, ttlOf: Key -> int) {
    forall a :: a in acts && a.Set? ==> FixedTtl(a, ttlOf)
  }

  predicate FixedTtl(a: Action, ttlOf: Key -> int)
    requires a.Set?
  {
    a.ttl == ttlOf(a.item.key) && a.ttl > 0 && a.ttl % Index.SECOND == 0
  }

  /** A reader has its own TTL, and only items of that TTL. */
  predicate QueueOk(q: int, r: Reader, ttlOf: Key -> int) {
    && r.log.ttl == q && q > 0
    && forall it :: it in Held(r) ==> ttlOf(it.key) == q
  }

  predicate QueuesOk(s: Store, ttlOf: Key -> int) {
    forall q :: q in s.readers ==> QueueOk(q, s.readers[q], ttlOf)
  }

  /** No entry lives longer than its key's TTL from now, or, on disk, from when it was handed over. */
  predicate CellTimely(now: int, c: Index.Cell<Value>, ttlOf: Key -> int) {
    c.key.Some? && c.val.Some? ==>
      && c.expireAt <= now + ttlOf(c.key.value)
      && (c.val.value.OnDisk? ==>
            c.val.value.log == ttlOf(c.key.value) && c.expireAt <= c.val.value.at + c.val.value.log)
  }

  ghost predicate Timely(s: Store, ttlOf: Key -> int) {
    QueuesOk(s, ttlOf) && forall e :: Live(s.kv, e) ==> CellTimely(s.kv.now, Index.At(s.kv, e), ttlOf)
  }

  /** A step of a reader keeps its TTL and brings nothing to hand over. */
  lemma HeldLess(r: Reader, a: Action, now: int)
    requires ReaderOk(r, now) && ReaderEnabled(r, a, now)
    ensures forall it :: it in Held(ReaderStep(r, a, now)) ==> it in Held(r)
    ensures ReaderStep(r, a, now).log.ttl == r.log.ttl
  {
    match a
    case WriteOut(_, room) => WriteOutKeeps(r, room, now);
    case WriteFails(_, room) => WriteFailsKeeps(r, room, now);
    case _ => ReaderStepKeeps(r, a, now);
  }

  lemma QueuesStep(s: Store, a: Action, ttlOf: Key -> int)
    requires StoreInv(s) && QueuesOk(s, ttlOf) && Enabled(s, a) && (a.Set? ==> FixedTtl(a, ttlOf))
    ensures QueuesOk(Step(s, a), ttlOf)
  {
    hide IndexStep, Index.Step, ReaderStep, ReaderOk, ReaderEnabled;
    if OfReader(a) {
      assert QueueOk(a.q, s.readers[a.q], ttlOf) && ReaderOk(s.readers[a.q], s.kv.now);
      HeldLess(s.readers[a.q], a, s.kv.now);
    }
    if a.Set? {
      assert LogKey(a.ttl) == a.ttl;
    }
  }

  lemma CellStep(s: Store, a: Action, ttlOf: Key -> int, e: Entry)
    requires StoreInv(s) && Timely(s, ttlOf) && Enabled(s, a) && (a.Set? ==> FixedTtl(a, ttlOf))
    requires Live(Step(s, a).kv, e)
    ensures CellTimely(Step(s, a).kv.now, Index.At(Step(s, a).kv, e), ttlOf)
  {
    if IndexStep(s, a).Some? {
      LiveFrom(s.kv, IndexStep(s, a).value, e);
      SameNow(s.kv, IndexStep(s, a).value);
      if a.AfterWrite? {
        assert ReaderOk(s.readers[a.q], s.kv.now) && QueueOk(a.q, s.readers[a.q], ttlOf);
      }
      assert Live(s.kv, e) ==> CellTimely(s.kv.now, Index.At(s.kv, e), ttlOf);
    }
  }

  lemma {:induction false} RunTimely(now: int, minTtl: int, acts: seq<Action>, ttlOf: Key -> int)
    requires Allowed(Init(now, minTtl), acts) && FixedTtls(acts, ttlOf)
    ensures Timely(Run(Init(now, minTtl), acts), ttlOf)
  {
    if acts != [] {
      var before, a := acts[..|acts| - 1], acts[|acts| - 1];
      var s := Run(Init(now, minTtl), before);
      RunTimely(now, minTtl, before, ttlOf);
      RunInv(now, minTtl, before);
      assert a in acts;
      QueuesStep(s, a, ttlOf);
      forall e | Live(Step(s, a).kv, e) ensures CellTimely(Step(s, a).kv.now, Index.At(Step(s, a).kv, e), ttlOf) {
        CellStep(s, a, ttlOf, e);
      }
    }
  }

  /**
   With one whole-second TTL per key, a Get that finds an unexpired item on disk finds its file open.
   The one exception is the very instant of expiry, for TTLs under four seconds, whose files get no
   time on top.
   */
  lemma {:induction false} OpenUntilExpiry(now: int, minTtl: int, acts: seq<Action>, ttlOf: Key -> int, k: Key)
    requires Allowed(Init(now, minTtl), acts) && FixedTtls(acts, ttlOf)
    ensures var s := Run(Init(now, minTtl), acts);
            var g := Get(s, k);
            g.Found? && !g.expired && g.value.OnDisk? ==>
              && FileOf(s, g.value).Some?
              && (FileOf(s, g.value).value.reader
                  || (ttlOf(k) < 4 * Index.SECOND && s.kv.now == Index.At(s.kv, s.kv.items[k]).expireAt))
  {
    RunInv(now, minTtl, acts);
    RunTimely(now, minTtl, acts, ttlOf);
    OpenIn(Run(Init(now, minTtl), acts), ttlOf, k);
  }

  lemma OpenIn(s: Store, ttlOf: Key -> int, k: Key)
    requires StoreInv(s) && Timely(s, ttlOf)
    ensures var g := Get(s, k);
            g.Found? && !g.expired && g.value.OnDisk? ==>
              && FileOf(s, g.value).Some?
              && (FileOf(s, g.value).value.reader
                  || (ttlOf(k) < 4 * Index.SECOND && s.kv.now == Index.At(s.kv, s.kv.items[k]).expireAt))
  {
    var g := Get(s, k);
    if g.Found? && !g.expired && g.value.OnDisk? {
      var c := Index.At(s.kv, s.kv.items[k]);
      BoundLive(s.kv, k);
      assert CellTimely(s.kv.now, c, ttlOf) && DiskOk(s, g.value);
      var r := s.readers[g.value.log];
      assert QueueOk(g.value.log, r, ttlOf) && ReaderOk(r, s.kv.now);
      ClosedLate(r.log.files[g.value.file], g.value, c.expireAt, s.kv.now);
    }
  }

  /** How long a retired file is kept: its TTL and a quarter of that in whole seconds, but at most an hour, on top. */
  function Kept(ttl: int): int {
    ttl + if ttl < 4 * 3600 * Index.SECOND then ttl / 4 / Index.SECOND * Index.SECOND else 3600 * Index.SECOND
  }

  /** The timer of a retired file whose TTL is so many times four seconds, and less than four more. */
  lemma ClosesWhen(f: File, now: int, quarter: nat)
    requires 4 * quarter * Index.SECOND <= (if f.ttl < 0 then -f.ttl else f.ttl) < (4 * quarter + 4) * Index.SECOND
    ensures var extra := if f.ttl < 0 then quarter * -Index.SECOND
                         else if quarter < 3600 then quarter * Index.SECOND else 3600 * Index.SECOND;
            Due(f, now) <==> f.retiredAt.Some? && now >= f.retiredAt.value + f.ttl + extra
    ensures f.ttl >= 0 ==> (Due(f, now) <==> f.retiredAt.Some? && now >= f.retiredAt.value + Kept(f.ttl))
  {
    QuarterOf(f.ttl, quarter);
    QuartersOf(if f.ttl < 0 then -f.ttl else f.ttl, quarter);
  }

  lemma QuarterOf(ttl: int, quarter: nat)
    requires 4 * quarter * Index.SECOND <= (if ttl < 0 then -ttl else ttl) < (4 * quarter + 4) * Index.SECOND
    ensures Extra(ttl) == if ttl < 0 then quarter * -Index.SECOND
                          else if quarter < 3600 then quarter * Index.SECOND else 3600 * Index.SECOND
  {
    QuartersOf(if ttl < 0 then -ttl else ttl, quarter);
  }

  lemma QuartersOf(t: nat, quarter: nat)
    requires 4 * quarter * Index.SECOND <= t < (4 * quarter + 4) * Index.SECOND
    ensures t / (4 * Index.SECOND) == t / 4 / Index.SECOND == quarter
  {
  }

  lemma ExtraBounds(ttl: int)
    requires ttl > 0
    ensures Extra(ttl) >= 0 && (ttl >= 4 * Index.SECOND ==> Extra(ttl) > 0) && Kept(ttl) == ttl + Extra(ttl)
  {
  }

  /** The arithmetic of it: handed over at `at`, retired no earlier, closed a TTL and more after that. */
  lemma ClosedLate(f: File, v: Value, expireAt: int, now: int)
    requires v.OnDisk? && f.ttl == v.log > 0 && (f.retiredAt.Some? ==> v.at <= f.retiredAt.value)
    requires !f.reader ==> Due(f, now)
    requires now <= expireAt <= v.at + v.log
    ensures f.reader || (v.log < 4 * Index.SECOND && now == expireAt)
  {
    ExtraBounds(v.log);
  }

  /** So from four seconds on a hit that has not expired always reads its own bytes. */
  lemma {:induction false} UnexpiredReads(now: int, minTtl: int, acts: seq<Action>, ttlOf: Key -> int, k: Key)
    requires Allowed(Init(now, minTtl), acts) && FixedTtls(acts, ttlOf)
    ensures var s := Run(Init(now, minTtl), acts);
            var g := Get(s, k);
            g.Found? && !g.expired && ttlOf(k) >= 4 * Index.SECOND ==>
              Body(s, g.value) == Some(Flatten(g.value.item.body))
  {
    var s := Run(Init(now, minTtl), acts);
    var g := Get(s, k);
    OpenUntilExpiry(now, minTtl, acts, ttlOf, k);
    RunInv(now, minTtl, acts);
    if g.Found? {
      BoundLive(s.kv, k);
      assert DiskOk(s, g.value);
    }
  }
}
