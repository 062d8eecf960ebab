/**
 A turn of the log's loop, which the objects are proved to take as one, is a sequence of the store's steps.
 */
module LsmTurns {
  import opened Log
  import opened LogSafety
  import Index
  import opened Lsm
  import opened LsmSafety

  /** The tries of one item: up to the first that has room, which is handed over. */
  function TrySteps(q: int, it: Item, rooms: seq<Room>, e: Entry): seq<Action>
    decreases |rooms|
  {
    if rooms == [] then []
    else if Fits(it, rooms[0]) then [WriteOut(q, rooms[0])] + [AfterWrite(q, e)]
    else [WriteFails(q, rooms[0])] + TrySteps(q, it, rooms[1..], e)
  }

  function TurnSteps(q: int, t: Turn, e: Entry): seq<Action> {
    [Take(q)] + TrySteps(q, t.item, t.rooms, e) + [Finish(q)]
  }

  lemma {:induction false} RunOn(s: Store, acts: seq<Action>, more: seq<Action>)
    ensures Run(s, acts + more) == Run(Run(s, acts), more)
    ensures Allowed(s, acts + more) <==> Allowed(s, acts) && Allowed(Run(s, acts), more)
  {
    if more == [] {
      assert acts + more == acts;
    } else {
      assert (acts + more)[..|acts + more| - 1] == acts + more[..|more| - 1];
      RunOn(s, acts, more[..|more| - 1]);
    }
  }

  lemma RunOne(s: Store, a: Action)
    ensures Run(s, [a]) == Step(s, a) && (Allowed(s, [a]) <==> Enabled(s, a))
  {
    assert [a][..0] == [];
    assert Run(s, []) == s;
  }

  /** What is the same after steps of one reader: the others, the clock. */
  predicate OnlyReader(s: Store, s': Store, q: int) {
    && s'.kv.now == s.kv.now && s'.readers.Keys == s.readers.Keys
    && forall p :: p in s.readers && p != q ==> s'.readers[p] == s.readers[p]
  }

  lemma ReaderAlone(s: Store, a: Action)
    requires OfReader(a) && Enabled(s, a)
    ensures var s' := Step(s, a);
            OnlyReader(s, s', a.q) && s'.readers[a.q] == ReaderStep(s.readers[a.q], a, s.kv.now)
  {
    if IndexStep(s, a).Some? {
      SameNow(s.kv, IndexStep(s, a).value);
    }
  }

  lemma HandedOverEnds(s: Store, q: int, room: Room, e: Entry)
    requires StoreInv(s) && q in s.readers && Enabled(s, WriteOut(q, room)) && e !in s.kv.heap
    ensures var s1 := Step(s, WriteOut(q, room));
            var s' := Step(s1, AfterWrite(q, e));
            && Enabled(s1, AfterWrite(q, e)) && StoreInv(s') && OnlyReader(s, s', q)
            && var r := s.readers[q];
               s'.readers[q] == Reader(Try(r.log, r.queue[0], room, s.kv.now).0, r.queue[1..], Ending)
  {
    var r := s.readers[q];
    assert ReaderOk(r, s.kv.now);
    WriteOutKeeps(r, room, s.kv.now);
    var s1 := Step(s, WriteOut(q, room));
    StepInv(s, WriteOut(q, room));
    ReaderAlone(s, WriteOut(q, room));
    hide StoreInv, ReaderOk, LogInv, Log.Try, Index.Step;
    StepInv(s1, AfterWrite(q, e));
    ReaderAlone(s1, AfterWrite(q, e));
  }

  lemma {:induction false} TriesAreSteps(s: Store, q: int, rooms: seq<Room>, e: Entry)
    requires StoreInv(s) && q in s.readers && e !in s.kv.heap && AllIgnoredWhole(rooms)
    requires s.readers[q].phase.Trying? && |rooms| == 3 - s.readers[q].phase.failed
    ensures s.readers[q].queue != []
    ensures var r := s.readers[q];
            var steps := TrySteps(q, r.queue[0], rooms, e);
            var s' := Run(s, steps);
            && Allowed(s, steps) && StoreInv(s') && OnlyReader(s, s', q)
            && s'.readers[q] == Reader(Tries(r.log, r.queue[0], rooms, s.kv.now), r.queue[1..], Ending)
    decreases |rooms|
  {
    var r := s.readers[q];
    assert ReaderOk(r, s.kv.now) && rooms != [] && rooms[0] in rooms;
    var it := r.queue[0];
    TryDone(r.log, it, rooms[0], s.kv.now);
    hide StoreInv, LogInv, Log.Try, Index.Step, Step, Enabled, LogSafety.Fits, ReaderOk;
    if Fits(it, rooms[0]) {
      CanWrite(s, q, rooms[0]);
      HandedOverEnds(s, q, rooms[0], e);
      RunOne(s, WriteOut(q, rooms[0]));
      RunOne(Step(s, WriteOut(q, rooms[0])), AfterWrite(q, e));
      RunOn(s, [WriteOut(q, rooms[0])], [AfterWrite(q, e)]);
    } else {
      var a := WriteFails(q, rooms[0]);
      OneFailure(s, q, rooms[0]);
      RunOne(s, a);
      RunOn(s, [a], TrySteps(q, it, rooms[1..], e));
      if rooms[1..] != [] {
        TriesAreSteps(Step(s, a), q, rooms[1..], e);
      }
    }
  }

  lemma TryDone(l: OpenLog, it: Item, room: Room, now: int)
    requires LogInv(l) && IgnoredWhole(room)
    ensures Try(l, it, room, now).1 <==> Fits(it, room)
  {
    TryKeeps(l, it, room, now);
  }

  lemma CanWrite(s: Store, q: int, room: Room)
    requires StoreInv(s) && q in s.readers && s.readers[q].phase.Trying? && IgnoredWhole(room)
    ensures s.readers[q].queue != []
    ensures Fits(s.readers[q].queue[0], room) ==> Enabled(s, WriteOut(q, room))
  {
    assert ReaderOk(s.readers[q], s.kv.now);
  }

  lemma OneFailure(s: Store, q: int, room: Room)
    requires StoreInv(s) && q in s.readers && s.readers[q].phase.Trying? && s.readers[q].queue != []
    requires !Fits(s.readers[q].queue[0], room)
    ensures var a := WriteFails(q, room);
            var r := s.readers[q];
            && Enabled(s, a) && StoreInv(Step(s, a)) && OnlyReader(s, Step(s, a), q)
            && Step(s, a).kv == s.kv
            && Step(s, a).readers[q] == AfterFailure(r, Try(r.log, r.queue[0], room, s.kv.now).0)
  {
    var a := WriteFails(q, room);
    StepInv(s, a);
    ReaderAlone(s, a);
  }

  lemma Taken(s: Store, q: int) returns (s': Store)
    requires StoreInv(s) && q in s.readers && s.readers[q].phase == Idle && s.readers[q].queue != []
    ensures s' == Step(s, Take(q)) && Enabled(s, Take(q)) && StoreInv(s') && OnlyReader(s, s', q) && s'.kv == s.kv
    ensures var r := s.readers[q];
            var l := RotateIf(r.log, Log.Expired(Current(r.log), s.kv.now), s.kv.now);
            s'.readers[q] == Reader(l, r.queue, Trying(0))
  {
    s' := Step(s, Take(q));
    StepInv(s, Take(q));
    ReaderAlone(s, Take(q));
  }

  lemma Finished(s: Store, q: int)
    requires StoreInv(s) && q in s.readers && s.readers[q].phase == Ending
    ensures var s' := Step(s, Finish(q));
            var r := s.readers[q];
            && Enabled(s, Finish(q)) && StoreInv(s') && OnlyReader(s, s', q) && s'.kv == s.kv
            && s'.readers[q] == Reader(RotateIf(r.log, Current(r.log).size > MAX_FILE_SIZE, s.kv.now), r.queue, Idle)
  {
    StepInv(s, Finish(q));
    ReaderAlone(s, Finish(q));
  }

  /**
   A turn of the loop whose ignored writes are all or nothing is a run of the store's steps, and leaves the
   reader waiting again, with the log that the turn makes, one item less, and everything else of the logs alone.
   */
  lemma {:induction false} TurnIsSteps(s: Store, q: int, t: Turn, e: Entry)
    requires StoreInv(s) && q in s.readers && e !in s.kv.heap && AllIgnoredWhole(t.rooms) && |t.rooms| == 3
    requires s.readers[q].phase == Idle && s.readers[q].queue != []
    requires t.item == s.readers[q].queue[0] && t.now == s.kv.now
    ensures var r := s.readers[q];
            var s' := Run(s, TurnSteps(q, t, e));
            && Allowed(s, TurnSteps(q, t, e)) && StoreInv(s') && OnlyReader(s, s', q)
            && s'.readers[q] == Reader(Log.Process(r.log, t), r.queue[1..], Idle)
  {
    hide Step, Enabled, StoreInv, Tries, Log.Rotate;
    var s1 := Taken(s, q);
    TriesAreSteps(s1, q, t.rooms, e);
    var tries := TrySteps(q, t.item, t.rooms, e);
    var s2 := Run(s1, tries);
    Finished(s2, q);
    RunOne(s, Take(q));
    RunOne(s2, Finish(q));
    RunOn(s, [Take(q)], tries);
    RunOn(s, [Take(q)] + tries, [Finish(q)]);
  }
}
