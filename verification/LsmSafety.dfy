/**
 What holds in every reachable state of the store: what is on disk reads back, and was handed over before
 its file was retired.
 */
module LsmSafety {
  import opened Wrappers
  import opened Log
  import opened LogSafety
  import Index
  import opened IndexInvariant
  import opened IndexLive
  import opened Lsm

  // ---------- Readers ----------

  /** Files of one log share its TTL, and are closed only when they are due. */
  predicate FilesOk(l: OpenLog, now: int) {
    forall i :: 0 <= i < |l.files| ==>
      l.files[i].ttl == l.ttl && (!l.files[i].reader ==> Due(l.files[i], now))
  }

  /** A reader tries to write the first of its queue, and a record not handed over yet is in the current file. */
  predicate PhaseOk(r: Reader) {
    match r.phase
    case Trying(failed) => failed < 3 && r.queue != []
    case Handing(p) => p.file == |r.log.files| - 1 && ReadsBack(Current(r.log), p.disk, p.item)
    case _ => true
  }

  predicate ReaderOk(r: Reader, now: int) {
    LogInv(r.log) && FilesOk(r.log, now) && PhaseOk(r)
  }

  /** Files keep their content and their TTL, and once retired they stay so. */
  predicate Grows(l: OpenLog, m: OpenLog, now: int) {
    && |l.files| <= |m.files| && m.ttl == l.ttl
    && forall i :: 0 <= i < |l.files| ==>
         && l.files[i].content <= m.files[i].content
         && (m.files[i].retiredAt == l.files[i].retiredAt || m.files[i].retiredAt == Some(now))
  }

  lemma TryRoles(l: OpenLog, it: Item, room: Room, now: int)
    requires LogInv(l) && FilesOk(l, now)
    ensures var m := Try(l, it, room, now).0;
            FilesOk(m, now) && Grows(l, m, now)
  {
    TransformOutcome(Current(l), it, room, now);
  }

  lemma WriteOutKeeps(r: Reader, room: Room, now: int)
    requires ReaderOk(r, now) && ReaderEnabled(r, WriteOut(0, room), now)
    ensures var r' := ReaderStep(r, WriteOut(0, room), now);
            && ReaderOk(r', now) && Grows(r.log, r'.log, now)
            && r'.queue == r.queue[1..] && r'.phase.Handing? && r'.phase.record.item == r.queue[0]
  {
    TryKeeps(r.log, r.queue[0], room, now);
    TryRoles(r.log, r.queue[0], room, now);
  }

  lemma FailedTryKeeps(r: Reader, room: Room, now: int)
    requires ReaderOk(r, now) && ReaderEnabled(r, WriteFails(0, room), now)
    ensures var l := Try(r.log, r.queue[0], room, now).0;
            LogInv(l) && FilesOk(l, now) && Grows(r.log, l, now)
  {
    TryRoles(r.log, r.queue[0], room, now);
    TryFails(r.log, r.queue[0], room, now);
  }

  lemma WriteFailsKeeps(r: Reader, room: Room, now: int)
    requires ReaderOk(r, now) && ReaderEnabled(r, WriteFails(0, room), now)
    ensures var r' := ReaderStep(r, WriteFails(0, room), now);
            && ReaderOk(r', now) && Grows(r.log, r'.log, now)
            && (r'.queue == r.queue || r'.queue == r.queue[1..]) && !r'.phase.Handing?
  {
    hide Log.Try, LogInv, FilesOk, Grows;
    FailedTryKeeps(r, room, now);
  }

  /** A reader keeps its item through two failures, and gives it up at the third. */
  lemma ThreeFailures(r: Reader, r0: Room, r1: Room, r2: Room, now: int)
    requires ReaderOk(r, now) && r.phase == Trying(0)
    requires forall room :: room in {r0, r1, r2} ==> !Fits(r.queue[0], room)
    ensures var a := ReaderStep(r, WriteFails(0, r0), now);
            var b := ReaderStep(a, WriteFails(0, r1), now);
            var c := ReaderStep(b, WriteFails(0, r2), now);
            && a.phase.Trying? && a.queue == r.queue && b.phase.Trying? && b.queue == r.queue
            && c.phase == Ending && c.queue == r.queue[1..] && c.log.published == r.log.published
  {
    hide Log.Try, LogInv, FilesOk, Fits;
    var rooms := [r0, r1, r2];
    assert r0 in {r0, r1, r2} && r1 in {r0, r1, r2} && r2 in {r0, r1, r2};
    var a := ReaderStep(r, WriteFails(0, r0), now);
    WriteFailsKeeps(r, r0, now);
    NotPublished(r, r0, now);
    WriteFailsKeeps(a, r1, now);
    NotPublished(a, r1, now);
    NotPublished(ReaderStep(a, WriteFails(0, r1), now), r2, now);
  }

  lemma NotPublished(r: Reader, room: Room, now: int)
    requires ReaderOk(r, now) && ReaderEnabled(r, WriteFails(0, room), now)
    ensures Try(r.log, r.queue[0], room, now).0.published == r.log.published
  {
    TryFails(r.log, r.queue[0], room, now);
  }

  lemma RotateIfKeeps(l: OpenLog, c: bool, now: int)
    requires LogInv(l) && FilesOk(l, now)
    ensures var m := RotateIf(l, c, now);
            LogInv(m) && FilesOk(m, now) && Grows(l, m, now)
  {
    if c {
      RotateKeeps(l, now);
    }
  }

  lemma CloseKeeps(r: Reader, i: nat, now: int)
    requires ReaderOk(r, now) && ReaderEnabled(r, CloseFile(0, i), now)
    ensures var r' := ReaderStep(r, CloseFile(0, i), now);
            ReaderOk(r', now) && Grows(r.log, r'.log, now)
  {
    var l, m := r.log, CloseAt(r.log, i);
    assert i != |l.files| - 1;
    forall p | p in l.published ensures ReadsBack(m.files[p.file], p.disk, p.item) {
      Grown(l.files[p.file], m.files[p.file], p.disk);
    }
  }

  lemma {:induction false} ReaderStepKeeps(r: Reader, a: Action, now: int)
    requires ReaderOk(r, now) && ReaderEnabled(r, a, now)
    ensures ReaderOk(ReaderStep(r, a, now), now) && Grows(r.log, ReaderStep(r, a, now).log, now)
  {
    match a
    case WriteOut(_, room) => WriteOutKeeps(r, room, now);
    case WriteFails(_, room) => WriteFailsKeeps(r, room, now);
    case CloseFile(_, i) => CloseKeeps(r, i, now);
    case Take(_) => RotateIfKeeps(r.log, Log.Expired(Current(r.log), now), now);
    case Finish(_) => RotateIfKeeps(r.log, Current(r.log).size > MAX_FILE_SIZE, now);
    case _ =>
  }

  // ---------- The store ----------

  /** An item on disk reads back, and was handed to the index before its file was retired. */
  predicate DiskOk(s: Store, v: Value) {
    v.OnDisk? ==>
      match FileOf(s, v)
      case None => false
      case Some(f) =>
        && ReadsBack(f, v.disk, v.item)
        && v.at <= s.kv.now && (f.retiredAt.Some? ==> v.at <= f.retiredAt.value)
  }

  predicate ReadersOk(s: Store) {
    forall q :: q in s.readers ==> ReaderOk(s.readers[q], s.kv.now)
  }

  ghost predicate DisksOk(s: Store) {
    forall e :: Live(s.kv, e) ==> DiskOk(s, Index.At(s.kv, e).val.value)
  }

  ghost predicate StoreInv(s: Store) {
    Index.Inv(s.kv) && ReadersOk(s) && DisksOk(s)
  }

  predicate ReadersGrow(s: Store, s': Store) {
    && s'.kv.now >= s.kv.now
    && forall q :: q in s.readers ==> q in s'.readers && Grows(s.readers[q].log, s'.readers[q].log, s.kv.now)
  }

  lemma DiskStaysOk(s: Store, s': Store, v: Value)
    requires DiskOk(s, v) && ReadersGrow(s, s')
    ensures DiskOk(s', v)
  {
    if v.OnDisk? {
      assert Grows(s.readers[v.log].log, s'.readers[v.log].log, s.kv.now);
      Grown(FileOf(s, v).value, FileOf(s', v).value, v.disk);
    }
  }

  lemma ReaderWaits(r: Reader, now: int, later: int)
    requires ReaderOk(r, now) && now <= later
    ensures ReaderOk(r, later)
  {
  }

  lemma SameNow(kv: Kv, a: Index.Action<Entry, Value>)
    ensures Index.Step(kv, a).now == if a.DoTick? then kv.now + a.d else kv.now
  {
  }

  lemma NewReaderOk(ttl: int, now: int)
    ensures ReaderOk(NewReader(ttl, now), now)
  {
  }

  lemma ClockStep(s: Store, a: Action)
    ensures Step(s, a).kv.now >= s.kv.now
  {
    if IndexStep(s, a).Some? { SameNow(s.kv, IndexStep(s, a).value); }
  }

  /** One reader of a step, still at the time before it. */
  lemma ReaderStays(s: Store, a: Action, q: int)
    requires ReadersOk(s) && Enabled(s, a) && q in Step(s, a).readers
    ensures ReaderOk(Step(s, a).readers[q], s.kv.now)
    ensures q in s.readers ==> Grows(s.readers[q].log, Step(s, a).readers[q].log, s.kv.now)
  {
    hide Index.Step, IndexStep, ReaderStep;
    if a.Set? {
      NewReaderOk(a.ttl, s.kv.now);
    }
    if OfReader(a) {
      ReaderStepKeeps(s.readers[a.q], a, s.kv.now);
    }
  }

  lemma ReadersStep(s: Store, a: Action)
    requires ReadersOk(s) && Enabled(s, a)
    ensures ReadersOk(Step(s, a)) && ReadersGrow(s, Step(s, a))
  {
    var s' := Step(s, a);
    hide Enabled, IndexStep, ReaderStep, ReaderOk, Grows;
    ClockStep(s, a);
    forall q | q in s'.readers
      ensures ReaderOk(s'.readers[q], s'.kv.now)
      ensures q in s.readers ==> Grows(s.readers[q].log, s'.readers[q].log, s.kv.now)
    {
      ReaderStays(s, a, q);
      ReaderWaits(s'.readers[q], s.kv.now, s'.kv.now);
    }
  }

  lemma HandedOverOk(s: Store, a: Action)
    requires ReadersOk(s) && Enabled(s, a) && a.AfterWrite?
    ensures DiskOk(Step(s, a), IndexStep(s, a).value.v)
  {
    ReadersStep(s, a);
    SameNow(s.kv, IndexStep(s, a).value);
    assert ReaderOk(s.readers[a.q], s.kv.now);
  }

  lemma DisksStep(s: Store, a: Action, e: Entry)
    requires StoreInv(s) && Enabled(s, a) && Live(Step(s, a).kv, e)
    ensures DiskOk(Step(s, a), Index.At(Step(s, a).kv, e).val.value)
  {
    var s' := Step(s, a);
    ReadersStep(s, a);
    if a.AfterWrite? {
      HandedOverOk(s, a);
    }
    if IndexStep(s, a).Some? {
      LiveFrom(s.kv, IndexStep(s, a).value, e);
    }
    if Live(s.kv, e) {
      DiskStaysOk(s, s', Index.At(s.kv, e).val.value);
    }
  }

  lemma StepInv(s: Store, a: Action)
    requires StoreInv(s) && Enabled(s, a)
    ensures StoreInv(Step(s, a))
  {
    ReadersStep(s, a);
    if IndexStep(s, a).Some? {
      StepKeeps(s.kv, IndexStep(s, a).value);
    }
    forall e | Live(Step(s, a).kv, e) ensures DiskOk(Step(s, a), Index.At(Step(s, a).kv, e).val.value) {
      DisksStep(s, a, e);
    }
  }

  lemma InitStoreInv(now: int, minTtl: int)
    ensures StoreInv(Init(now, minTtl))
  {
  }

  lemma {:induction false} RunInv(now: int, minTtl: int, acts: seq<Action>)
    requires Allowed(Init(now, minTtl), acts)
    ensures StoreInv(Run(Init(now, minTtl), acts))
  {
    if acts == [] {
      InitStoreInv(now, minTtl);
    } else {
      var before := acts[..|acts| - 1];
      RunInv(now, minTtl, before);
      StepInv(Run(Init(now, minTtl), before), acts[|acts| - 1]);
    }
  }
}
