/**
 When the log changes files.
 */
module LogFiles {
  import opened Log
  import opened LogSafety
  import Index

  /** How many tries fail before the first that has room. */
  function Failures(it: Item, rooms: seq<Room>): nat {
    if rooms == [] || Fits(it, rooms[0]) then 0 else 1 + Failures(it, rooms[1..])
  }

  lemma {:induction false} FailuresBound(it: Item, rooms: seq<Room>)
    ensures Failures(it, rooms) <= |rooms|
  {
    if rooms != [] {
      FailuresBound(it, rooms[1..]);
    }
  }

  /** What a turn leaves in the current file: the record behind what was there, or in a new file, or nothing. */
  function SizeAfter(it: Item, rooms: seq<Room>, size: nat): nat {
    FailuresBound(it, rooms);
    var n := Failures(it, rooms);
    (if n == 0 then size else 0) + if n < |rooms| then |Record(it, rooms[n])| else 0
  }

  lemma ExpiryMoves(f: File, it: Item, room: Room, now: int)
    requires f.writer && Aligned(f)
    ensures var t := Transform(f, it, room, now);
            t.disk.Some? ==> t.file.expireAt == now + f.ttl + 5 * Index.SECOND
  {
    TransformOutcome(f, it, room, now);
    hide Flatten, WriteAll;
    TtlStays(f, it.head, room.head, now);
    var l := Write(WriteAll(f, it.head, room.head, now).file, NEW_LINE, room.newLine, now).file;
    TtlStays(l, it.body, room.body, now);
  }

  lemma {:induction false} TtlStays(f: File, chunks: seq<Bytes>, room: nat, now: int)
    ensures WriteAll(f, chunks, room, now).file.ttl == f.ttl
    decreases |chunks|
  {
    if chunks != [] {
      var first := Write(f, chunks[0], room, now);
      if first.ok {
        TtlStays(first.file, chunks[1..], room - first.n, now);
      }
    }
  }

  /** The files after a try: one more if it fails, and then the last is empty. */
  lemma TryFiles(l: OpenLog, it: Item, room: Room, now: int)
    requires LogInv(l) && IgnoredWhole(room)
    ensures var r := Try(l, it, room, now).0;
            && |r.files| == |l.files| + (if Fits(it, room) then 0 else 1) && r.ttl == l.ttl
            && Current(r).size == (if Fits(it, room) then Current(l).size + |Record(it, room)| else 0)
            && Current(r).expireAt == now + l.ttl + 5 * Index.SECOND
  {
    TransformOutcome(Current(l), it, room, now);
    ExpiryMoves(Current(l), it, room, now);
  }

  lemma {:induction false} TriesFiles(l: OpenLog, it: Item, rooms: seq<Room>, now: int)
    requires LogInv(l) && AllIgnoredWhole(rooms)
    ensures var r := Tries(l, it, rooms, now);
            && |r.files| == |l.files| + Failures(it, rooms) && r.ttl == l.ttl
            && Current(r).size == SizeAfter(it, rooms, Current(l).size)
            && (rooms != [] ==> Current(r).expireAt == now + l.ttl + 5 * Index.SECOND)
    decreases |rooms|
  {
    if rooms != [] {
      assert rooms[0] in rooms && forall r :: r in rooms[1..] ==> r in rooms;
      var (r, done) := Try(l, it, rooms[0], now);
      TryKeeps(l, it, rooms[0], now);
      TryFiles(l, it, rooms[0], now);
      hide Log.Try, LogInv, Fits, Record;
      if !done {
        TriesFiles(r, it, rooms[1..], now);
      }
    }
  }

  /**
   A turn takes a new file first if the current one has expired, another one for each try that fails, and one more if
   the file is then larger than 1000 MB. Whatever happens, the current file expires its TTL and five seconds later.
   */
  lemma TurnFiles(l: OpenLog, t: Turn)
    requires LogInv(l) && AllIgnoredWhole(t.rooms) && t.rooms != []
    ensures var m := Process(l, t);
            var late := t.now > Current(l).expireAt;
            var size := SizeAfter(t.item, t.rooms, if late then 0 else Current(l).size);
            && |m.files| == |l.files| + (if late then 1 else 0) + Failures(t.item, t.rooms)
                            + (if size > 1000 * 1024 * 1024 then 1 else 0)
            && m.ttl == l.ttl && Current(m).size == (if size > 1000 * 1024 * 1024 then 0 else size)
            && Current(m).expireAt == t.now + l.ttl + 5 * Index.SECOND
  {
    var a := RotateIf(l, Expired(Current(l), t.now), t.now);
    if Expired(Current(l), t.now) {
      RotateKeeps(l, t.now);
    }
    hide LogInv, Tries, SizeAfter;
    TriesFiles(a, t.item, t.rooms, t.now);
  }

  /** In every run: a turn changes its file first exactly if the last was more than the TTL and five seconds ago. */
  lemma {:induction false} LateIff(ttl: int, now: int, turns: seq<Turn>, t: Turn)
    requires Sound(turns)
    ensures var l := ProcessAll(NewLog(ttl, now), turns);
            var last := if turns == [] then now else turns[|turns| - 1].now;
            t.now > Current(l).expireAt <==> t.now > last + ttl + 5 * Index.SECOND
  {
    if turns != [] {
      var before, u := turns[..|turns| - 1], turns[|turns| - 1];
      assert u in turns && forall v :: v in before ==> v in turns;
      ReaderRun(ttl, now, before);
      TtlOfRun(ttl, now, before);
      TurnFiles(ProcessAll(NewLog(ttl, now), before), u);
    }
  }

  lemma {:induction false} TtlOfRun(ttl: int, now: int, turns: seq<Turn>)
    requires Sound(turns)
    ensures ProcessAll(NewLog(ttl, now), turns).ttl == ttl
  {
    if turns != [] {
      var before, u := turns[..|turns| - 1], turns[|turns| - 1];
      assert u in turns && forall v :: v in before ==> v in turns;
      ReaderRun(ttl, now, before);
      TtlOfRun(ttl, now, before);
      TurnFiles(ProcessAll(NewLog(ttl, now), before), u);
    }
  }

  /** A record that has room for everything, byte for byte. */
  lemma RecordBytes(f: File, it: Item, room: Room, now: int)
    requires f.writer && Aligned(f) && Fits(it, room) && room.newLine >= 2 && room.mark >= 16
    ensures Transform(f, it, room, now).file.content ==
            f.content + Flatten(it.head) + [13, 10] + Flatten(it.body)
            + [62, 62, 62, 62, 62, 33, 69, 76, 73, 78, 80, 82, 79, 88, 89, 10]
  {
    TransformOutcome(f, it, room, now);
    hide Transform, Flatten;
    assert Record(it, room) == Flatten(it.head) + NEW_LINE + Flatten(it.body) + END_MARK;
  }
}
