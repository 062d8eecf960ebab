/**
 Runs that end with an unexpired hit whose file is already closed, step by step as the program takes them.
 */
module LsmGaps {
  import opened Wrappers
  import opened Log
  import opened LogSafety
  import Index
  import opened Lsm
  import opened LsmSafety
  import opened LsmFresh
  import LsmTime
  import LsmTurns

  /** A Get of k takes its item for unexpired, but the item's body cannot be read any more. */
  predicate UnexpiredButClosed(s: Store, k: Key) {
    var g := Get(s, k);
    g.Found? && !g.expired && g.value.OnDisk? && Body(s, g.value) == None
  }

  /** A device that is full. */
  const FULL: Room := Room(0, 0, 0, 0)

  /** k is bound to an entry that holds a value and expires then. */
  predicate BoundUntil(s: Store, k: Key, expireAt: int) {
    k in s.kv.items && var c := Index.At(s.kv, s.kv.items[k]); c.val.Some? && c.expireAt == expireAt
  }

  /** The value of k is the record in the first file of log q. */
  predicate InFirstFile(s: Store, q: int, k: Key, expireAt: int) {
    && BoundUntil(s, k, expireAt)
    && var v := Index.At(s.kv, s.kv.items[k]).val.value; v.OnDisk? && v.log == q && v.file == 0
  }

  /** The first file of log q is the only one, or was retired just now. */
  predicate FirstFile(s: Store, q: int) {
    && q in s.readers && s.readers[q].log.files[0].ttl == q
    && (|s.readers[q].log.files| == 1 || s.readers[q].log.files[0].retiredAt == Some(s.kv.now))
  }

  /** Log q has items to write and has handed over none. */
  predicate Waiting(s: Store, q: int, it: Item) {
    && q in s.readers && |s.readers[q].queue| >= 2 && it == s.readers[q].queue[0] == s.readers[q].queue[1]
    && s.readers[q] == NewReader(q, s.kv.now).(queue := s.readers[q].queue)
  }

  /** Two Sets with the TTL a and one with b, all of one item at one time. */
  lemma SetThrice(now: int, minTtl: int, it: Item, a: int, b: int)
    requires minTtl < a && 0 < a && a % Index.SECOND == 0 && b % Index.SECOND == 0 && 0 < b
    ensures var s0 := Init(now, minTtl);
            var s1 := Step(s0, Set(0, it, a));
            var s2 := Step(s1, Set(1, it, a));
            var s := Step(s2, Set(2, it, b));
            && Enabled(s0, Set(0, it, a)) && Enabled(s1, Set(1, it, a)) && Enabled(s2, Set(2, it, b))
            && s.kv.now == now && Waiting(s, a, it) && BoundUntil(s, it.key, now + b)
  {
    assert Index.Whole(a) == a && Index.Whole(b) == b;
  }

  /** The first record of a new log. */
  lemma FirstRecord(r: Reader, q: int, it: Item, now: int)
    requires ReaderOk(r, now) && r.log == NewLog(q, now) && r.phase == Trying(0) && r.queue != [] && r.queue[0] == it
    ensures var r' := ReaderStep(r, WriteOut(q, RoomFor(it)), now);
            && ReaderEnabled(r, WriteOut(q, RoomFor(it)), now) && ReaderOk(r', now)
            && r'.phase.Handing? && r'.phase.record.item == it && r'.phase.record.file == 0
            && r'.log.ttl == q && |r'.log.files| == 1 && r'.log.files[0].ttl == q && r'.queue == r.queue[1..]
  {
    WriteOutKeeps(r, RoomFor(it), now);
    TransformOutcome(NewFile(q, now), it, RoomFor(it), now);
  }

  /** The first of them is written and handed over. */
  lemma FirstHandOver(s: Store, q: int, it: Item, expireAt: int)
    requires StoreInv(s) && Waiting(s, q, it) && 0 < q && BoundUntil(s, it.key, expireAt)
    ensures var s1 := Step(s, Take(q));
            var s2 := Step(s1, WriteOut(q, RoomFor(it)));
            var s' := Step(s2, AfterWrite(q, 0));
            && Enabled(s, Take(q)) && Enabled(s1, WriteOut(q, RoomFor(it))) && Enabled(s2, AfterWrite(q, 0))
            && s'.kv.now == s.kv.now && InFirstFile(s', q, it.key, expireAt) && FirstFile(s', q)
            && s'.readers[q].phase == Ending && s'.readers[q].queue != [] && s'.readers[q].queue[0] == it
  {
    var r := s.readers[q].(phase := Trying(0));
    assert Step(s, Take(q)) == s.(readers := s.readers[q := r]);
    assert ReaderOk(s.readers[q], s.kv.now);
    FirstRecord(r, q, it, s.kv.now);
    hide Log.Try, LogInv, FilesOk, Transform, ReadsBack;
  }

  lemma RotateFirst(s: Store, q: int, c: bool)
    requires FirstFile(s, q) && LogInv(s.readers[q].log)
    ensures var l := RotateIf(s.readers[q].log, c, s.kv.now);
            FirstFile(s.(readers := s.readers[q := s.readers[q].(log := l)]), q) && LogInv(l)
  {
    if c {
      RotateKeeps(s.readers[q].log, s.kv.now);
    }
  }

  /** The next item fails, and the file with it. */
  lemma FailFirst(s: Store, q: int, it: Item)
    requires StoreInv(s) && FirstFile(s, q) && Flatten(it.body) != []
    requires s.readers[q].phase == Trying(0) && s.readers[q].queue != [] && s.readers[q].queue[0] == it
    ensures var s' := Step(s, WriteFails(q, FULL));
            && Enabled(s, WriteFails(q, FULL)) && s'.kv == s.kv && q in s'.readers
            && s'.readers[q].log.files[0].ttl == q && s'.readers[q].log.files[0].retiredAt == Some(s.kv.now)
  {
    assert ReaderOk(s.readers[q], s.kv.now);
    TransformOutcome(Current(s.readers[q].log), it, FULL, s.kv.now);
  }

  lemma FirstFinished(s: Store, q: int)
    requires StoreInv(s) && FirstFile(s, q) && s.readers[q].phase == Ending
    ensures var s' := Step(s, Finish(q));
            && Enabled(s, Finish(q)) && FirstFile(s', q) && s'.kv == s.kv
            && s'.readers[q].phase == Idle && s'.readers[q].queue == s.readers[q].queue
  {
    assert ReaderOk(s.readers[q], s.kv.now);
    LsmTurns.Finished(s, q);
    RotateFirst(s, q, Current(s.readers[q].log).size > MAX_FILE_SIZE);
  }

  lemma FirstTaken(s: Store, q: int)
    requires StoreInv(s) && FirstFile(s, q) && s.readers[q].phase == Idle && s.readers[q].queue != []
    ensures var s' := Step(s, Take(q));
            && Enabled(s, Take(q)) && FirstFile(s', q) && s'.kv == s.kv
            && s'.readers[q].phase == Trying(0) && s'.readers[q].queue == s.readers[q].queue
  {
    assert ReaderOk(s.readers[q], s.kv.now);
    var _ := LsmTurns.Taken(s, q);
    RotateFirst(s, q, Log.Expired(Current(s.readers[q].log), s.kv.now));
  }

  /** Its time passes, and it is closed while the entry is not expired. */
  lemma ThenClosed(s: Store, q: int, k: Key, expireAt: int, d: nat)
    requires 0 < q && q in s.readers && InFirstFile(s, q, k, expireAt)
    requires s.readers[q].log.files[0].ttl == q && s.readers[q].log.files[0].retiredAt == Some(s.kv.now)
    requires d == q + Extra(q) && s.kv.now + d <= expireAt
    ensures var s1 := Step(s, Tick(d));
            var s' := Step(s1, CloseFile(q, 0));
            && Enabled(s, Tick(d)) && Enabled(s1, CloseFile(q, 0))
            && UnexpiredButClosed(s', k) && s'.kv.now == s.kv.now + d
  {
    var s1 := Step(s, Tick(d));
    assert Due(s1.readers[q].log.files[0], s1.kv.now);
  }

  /** A run for TTLs where b reaches past the time a file of TTL a is kept. */
  function GapRun(it: Item, a: int, b: int, d: nat): seq<Action> {
    [] + [Set(0, it, a)] + [Set(1, it, a)] + [Set(2, it, b)]
    + [Take(a)] + [WriteOut(a, RoomFor(it))] + [AfterWrite(a, 0)]
    + [Finish(a)] + [Take(a)] + [WriteFails(a, FULL)]
    + [Tick(d)] + [CloseFile(a, 0)]
  }

  lemma SetsAndHandOver(now: int, minTtl: int, it: Item, a: int, b: int) returns (acts: seq<Action>)
    requires minTtl < a && 0 < a && a % Index.SECOND == 0 && b % Index.SECOND == 0 && 0 < b
    ensures acts == [] + [Set(0, it, a)] + [Set(1, it, a)] + [Set(2, it, b)]
                    + [Take(a)] + [WriteOut(a, RoomFor(it))] + [AfterWrite(a, 0)]
    ensures Allowed(Init(now, minTtl), acts)
    ensures var s := Run(Init(now, minTtl), acts);
            && s.kv.now == now && InFirstFile(s, a, it.key, now + b) && FirstFile(s, a)
            && s.readers[a].phase == Ending && s.readers[a].queue != [] && s.readers[a].queue[0] == it
  {
    var s0 := Init(now, minTtl);
    SetThrice(now, minTtl, it, a, b);
    hide Step, Enabled, Init, InFirstFile, BoundUntil, FirstFile, StoreInv, Waiting;
    acts := Extend(s0, [], Set(0, it, a));
    acts := Extend(s0, acts, Set(1, it, a));
    acts := Extend(s0, acts, Set(2, it, b));
    RunInv(now, minTtl, acts);
    FirstHandOver(Run(s0, acts), a, it, now + b);
    acts := Extend(s0, acts, Take(a));
    acts := Extend(s0, acts, WriteOut(a, RoomFor(it)));
    acts := Extend(s0, acts, AfterWrite(a, 0));
  }

  lemma FileGivenUp(now: int, minTtl: int, acts: seq<Action>, q: int, it: Item) returns (acts': seq<Action>)
    requires Allowed(Init(now, minTtl), acts) && Flatten(it.body) != []
    requires var s := Run(Init(now, minTtl), acts);
             && FirstFile(s, q) && s.readers[q].phase == Ending
             && s.readers[q].queue != [] && s.readers[q].queue[0] == it
    ensures acts' == acts + [Finish(q)] + [Take(q)] + [WriteFails(q, FULL)] && Allowed(Init(now, minTtl), acts')
    ensures var s, s' := Run(Init(now, minTtl), acts), Run(Init(now, minTtl), acts');
            && s'.kv == s.kv && q in s'.readers
            && s'.readers[q].log.files[0].ttl == q && s'.readers[q].log.files[0].retiredAt == Some(s.kv.now)
  {
    var s0 := Init(now, minTtl);
    hide Step, Enabled, Init, FirstFile, StoreInv;
    RunInv(now, minTtl, acts);
    FirstFinished(Run(s0, acts), q);
    acts' := Extend(s0, acts, Finish(q));
    RunInv(now, minTtl, acts');
    FirstTaken(Run(s0, acts'), q);
    acts' := Extend(s0, acts', Take(q));
    RunInv(now, minTtl, acts');
    FailFirst(Run(s0, acts'), q, it);
    acts' := Extend(s0, acts', WriteFails(q, FULL));
  }

  /**
   A key set with the TTLs a and b, where the file of a is kept no longer than b: the record of the
   first Set goes into the entry of the last, its file is given up when the next write fails, and it is
   closed while the entry is not expired.
   */
  lemma ClosedEarly(now: int, minTtl: int, it: Item, a: int, b: int, d: nat)
    requires minTtl < a && 0 < a && a % Index.SECOND == 0 && b % Index.SECOND == 0 && Flatten(it.body) != []
    requires d == LsmTime.Kept(a) && d <= b
    ensures var acts := GapRun(it, a, b, d);
            && Allowed(Init(now, minTtl), acts) && UnexpiredButClosed(Run(Init(now, minTtl), acts), it.key)
            && Run(Init(now, minTtl), acts).kv.now == now + d
  {
    LsmTime.ExtraBounds(a);
    var s0 := Init(now, minTtl);
    var acts := SetsAndHandOver(now, minTtl, it, a, b);
    hide Step, Enabled, Init, FirstFile, UnexpiredButClosed, Extra, LsmTime.Kept;
    acts := FileGivenUp(now, minTtl, acts, a, it);
    ThenClosed(Run(s0, acts), a, it.key, now + b, d);
    acts := Extend(s0, acts, Tick(d));
    acts := Extend(s0, acts, CloseFile(a, 0));
  }

  /**
   For every TTL under four seconds: a file given up at the instant its record was handed over is closed
   at the instant that record expires, and a Get at that instant takes it for unexpired.
   */
  lemma ClosedAtExpiry(now: int, minTtl: int, it: Item, ttl: nat)
    requires minTtl < ttl && 0 < ttl < 4 * Index.SECOND && ttl % Index.SECOND == 0 && Flatten(it.body) != []
    ensures var acts := GapRun(it, ttl, ttl, ttl);
            && Allowed(Init(now, minTtl), acts) && UnexpiredButClosed(Run(Init(now, minTtl), acts), it.key)
            && Run(Init(now, minTtl), acts).kv.now == now + ttl
  {
    assert LsmTime.Kept(ttl) == ttl;
    ClosedEarly(now, minTtl, it, ttl, ttl, ttl);
  }
}
