/**
 What the value log guarantees: records read back, for ever, whatever writes fail.
 */
module LogSafety {
  import opened Log

  // ---------- Writes ----------

  function Cut(b: Bytes, room: nat): Bytes {
    if |b| <= room then b else b[..room]
  }

  predicate SameRole(f: File, g: File) {
    g.writer == f.writer && g.ttl == f.ttl && g.reader == f.reader && g.retiredAt == f.retiredAt
  }

  /** Handing `all` to a file leaves what fits on disk; it is counted in full when all of it fits. */
  predicate Outcome(f: File, all: Bytes, room: nat, r: Wrote) {
    && (r.ok <==> |all| <= room)
    && r.n == |Cut(all, room)| && r.file.content == f.content + Cut(all, room)
    && (r.ok ==> r.file.size == f.size + |all|)
    && f.size <= r.file.size <= f.size + r.n
    && SameRole(f, r.file)
  }

  lemma {:induction false} WriteAllOutcome(f: File, chunks: seq<Bytes>, room: nat, now: int)
    requires f.writer
    ensures Outcome(f, Flatten(chunks), room, WriteAll(f, chunks, room, now))
    decreases |chunks|
  {
    if chunks != [] {
      var first := Write(f, chunks[0], room, now);
      var rest := Flatten(chunks[1..]);
      assert Flatten(chunks) == chunks[0] + rest;
      if first.ok {
        WriteAllOutcome(first.file, chunks[1..], room - first.n, now);
        hide Flatten;
        CutAppend(chunks[0], rest, room);
      } else {
        hide Flatten;
        CutFirst(chunks[0], rest, room);
      }
    }
  }

  lemma CutFirst(a: Bytes, b: Bytes, room: nat)
    requires room < |a|
    ensures Cut(a + b, room) == a[..room] && |a + b| > room
  {
  }

  lemma CutAppend(a: Bytes, b: Bytes, room: nat)
    requires |a| <= room
    ensures Cut(a + b, room) == a + Cut(b, room - |a|)
  {
  }

  // ---------- One record ----------

  /** The program's count is the real length of the file. */
  predicate Aligned(f: File) {
    f.size == |f.content|
  }

  predicate InBounds(f: File, d: Disk) {
    0 <= d.off && 0 <= d.headSize && 0 <= d.bodySize && d.off + d.headSize + d.bodySize <= |f.content|
  }

  function HeadOf(f: File, d: Disk): Bytes
    requires InBounds(f, d)
  {
    f.content[d.off..d.off + d.headSize]
  }

  function BodyOf(f: File, d: Disk): Bytes
    requires InBounds(f, d)
  {
    f.content[d.off + d.headSize..d.off + d.headSize + d.bodySize]
  }

  /** The extents lead to the item's body, and to its header block with or without the new line that ends it. */
  predicate ReadsBack(f: File, d: Disk, it: Item) {
    && InBounds(f, d) && d.key == it.key && d.status == it.status
    && (HeadOf(f, d) == Flatten(it.head) + NEW_LINE || HeadOf(f, d) == Flatten(it.head))
    && BodyOf(f, d) == Flatten(it.body)
  }

  /** And the header block is ended. */
  predicate ReadsBackWhole(f: File, d: Disk, it: Item) {
    ReadsBack(f, d, it) && HeadOf(f, d) == Flatten(it.head) + NEW_LINE
  }

  /** The device has room for the header and the body: the two writes whose errors are looked at. */
  predicate Fits(it: Item, room: Room) {
    |Flatten(it.head)| <= room.head && |Flatten(it.body)| <= room.body
  }

  /** A write of b is all or nothing. */
  predicate AllOrNothing(b: Bytes, room: nat) {
    room == 0 || |b| <= room
  }

  /** The two writes whose errors are ignored are all or nothing: neither is cut in the middle. */
  predicate IgnoredWhole(room: Room) {
    AllOrNothing(NEW_LINE, room.newLine) && AllOrNothing(END_MARK, room.mark)
  }

  /** What a record that is published adds to its file. */
  function Record(it: Item, room: Room): Bytes {
    Flatten(it.head) + Cut(NEW_LINE, room.newLine) + Flatten(it.body) + Cut(END_MARK, room.mark)
  }

  /** The size of the header block, with the new line if that was counted. */
  function HeadSize(it: Item, room: Room): nat {
    |Flatten(it.head)| + if |NEW_LINE| <= room.newLine then |NEW_LINE| else 0
  }

  /**
   A record is made exactly when header and body fit, with the sizes that were counted. It extends the file,
   and the count stays the real length exactly when neither ignored write is cut in the middle.
   */
  lemma TransformOutcome(f: File, it: Item, room: Room, now: int)
    requires f.writer && Aligned(f)
    ensures var t := Transform(f, it, room, now);
            && (t.disk.Some? <==> Fits(it, room))
            && f.content <= t.file.content
            && SameRole(f, t.file)
            && (t.disk.Some? ==>
                  && t.file.content == f.content + Record(it, room)
                  && t.disk.value == Disk(it.key, it.status, f.size, HeadSize(it, room), |Flatten(it.body)|)
                  && (Aligned(t.file) <==> AllOrNothing(NEW_LINE, room.newLine) && AllOrNothing(END_MARK, room.mark)))
  {
    var h := WriteAll(f, it.head, room.head, now);
    WriteAllOutcome(f, it.head, room.head, now);
    if h.ok {
      var l := Write(h.file, NEW_LINE, room.newLine, now);
      WriteOutcome(h.file, NEW_LINE, room.newLine, now);
      var b := WriteAll(l.file, it.body, room.body, now);
      WriteAllOutcome(l.file, it.body, room.body, now);
      if b.ok {
        WriteOutcome(b.file, END_MARK, room.mark, now);
        Lengths(f, it, room, h.file, l.file, b.file, Write(b.file, END_MARK, room.mark, now).file);
      }
    }
  }

  lemma WriteOutcome(f: File, b: Bytes, room: nat, now: int)
    requires f.writer
    ensures var r := Write(f, b, room, now);
            Outcome(f, b, room, r) && r.file.size == f.size + (if r.ok then |b| else 0)
  {
  }

  lemma Lengths(f: File, it: Item, room: Room, h: File, l: File, b: File, m: File)
    requires Aligned(f)
    requires h.content == f.content + Flatten(it.head) && h.size == f.size + |Flatten(it.head)|
    requires l.content == h.content + Cut(NEW_LINE, room.newLine)
    requires l.size == h.size + (if |NEW_LINE| <= room.newLine then |NEW_LINE| else 0)
    requires b.content == l.content + Flatten(it.body) && b.size == l.size + |Flatten(it.body)|
    requires m.content == b.content + Cut(END_MARK, room.mark)
    requires m.size == b.size + (if |END_MARK| <= room.mark then |END_MARK| else 0)
    ensures m.content == f.content + Record(it, room)
    ensures Aligned(m) <==> AllOrNothing(NEW_LINE, room.newLine) && AllOrNothing(END_MARK, room.mark)
  {
  }

  predicate OnlyReturns(b: Bytes) {
    forall i :: 0 <= i < |b| ==> b[i] == NEW_LINE[0]
  }

  /**
   Whatever room the ignored writes have, the extents of a record stay inside its file. It reads back whole
   exactly if there is room for the new line; its body reads back exactly if the new line is not cut after one
   byte, or nobody could tell. The end mark does not matter to it, only to the records that follow.
   */
  lemma TransformReadsBack(f: File, it: Item, room: Room, now: int)
    requires f.writer && Aligned(f) && Fits(it, room)
    ensures var t := Transform(f, it, room, now);
            && t.disk.Some? && InBounds(t.file, t.disk.value)
            && (ReadsBackWhole(t.file, t.disk.value, it) <==> |NEW_LINE| <= room.newLine)
            && (ReadsBack(t.file, t.disk.value, it) <==> room.newLine != 1 || OnlyReturns(Flatten(it.body)))
            && (IgnoredWhole(room) ==> Aligned(t.file) && End(t.disk.value) <= t.file.size)
  {
    TransformOutcome(f, it, room, now);
    var t := Transform(f, it, room, now);
    hide Transform, Flatten;
    RecordReadsBack(t.file, t.disk.value, f.content, it, room);
  }

  /** The same of any file that ends with the record. */
  lemma RecordReadsBack(f: File, d: Disk, before: Bytes, it: Item, room: Room)
    requires f.content == before + Record(it, room)
    requires d == Disk(it.key, it.status, |before|, HeadSize(it, room), |Flatten(it.body)|)
    ensures InBounds(f, d)
    ensures ReadsBackWhole(f, d, it) <==> |NEW_LINE| <= room.newLine
    ensures ReadsBack(f, d, it) <==> room.newLine != 1 || OnlyReturns(Flatten(it.body))
  {
    HeadAndBody(f, d, before, it, room);
    OneEarly(Flatten(it.body));
    hide HeadOf, BodyOf, Record, Flatten, OnlyReturns;
    assert |Flatten(it.head)| != |Flatten(it.head) + NEW_LINE|;
  }

  function Early(b: Bytes): Bytes {
    ([NEW_LINE[0]] + b)[..|b|]
  }

  lemma HeadAndBody(f: File, d: Disk, before: Bytes, it: Item, room: Room)
    requires f.content == before + Record(it, room)
    requires d == Disk(it.key, it.status, |before|, HeadSize(it, room), |Flatten(it.body)|)
    ensures InBounds(f, d)
    ensures HeadOf(f, d) == if |NEW_LINE| <= room.newLine then Flatten(it.head) + NEW_LINE else Flatten(it.head)
    ensures BodyOf(f, d) == if room.newLine == 1 then Early(Flatten(it.body)) else Flatten(it.body)
  {
    var head, body, mark := Flatten(it.head), Flatten(it.body), Cut(END_MARK, room.mark);
    hide Flatten;
    if room.newLine == 1 {
      assert Cut(NEW_LINE, room.newLine) == [NEW_LINE[0]];
      CutParts(f.content, before, head, NEW_LINE[0], body, mark);
    } else {
      Parts(f.content, before, head, Cut(NEW_LINE, room.newLine), body, mark);
      assert head + [] == head;
    }
  }

  lemma Parts(all: Bytes, before: Bytes, head: Bytes, nl: Bytes, body: Bytes, mark: Bytes)
    requires all == before + (head + nl + body + mark)
    ensures all[|before|..|before| + |head + nl|] == head + nl
    ensures all[|before| + |head + nl|..|before| + |head + nl| + |body|] == body
  {
    assert all == before + (head + nl) + body + mark;
    Slices(before, head + nl, body, mark);
  }

  /** Where the new line has left one byte that was not counted. */
  lemma CutParts(all: Bytes, before: Bytes, head: Bytes, c: Byte, body: Bytes, mark: Bytes)
    requires all == before + (head + [c] + body + mark)
    ensures all[|before|..|before| + |head|] == head
    ensures all[|before| + |head|..|before| + |head| + |body|] == ([c] + body)[..|body|]
  {
    var early := [c] + body;
    assert early == early[..|body|] + early[|body|..];
    assert all == before + head + early[..|body|] + (early[|body|..] + mark);
    Slices(before, head, early[..|body|], early[|body|..] + mark);
  }

  /** A body read one byte early, behind a carriage return, is itself only if it is made of those. */
  lemma OneEarly(b: Bytes)
    ensures Early(b) == b <==> OnlyReturns(b)
  {
    var early := Early(b);
    forall i | 0 <= i < |b| ensures early[i] == if i == 0 then NEW_LINE[0] else b[i - 1] {
    }
    if early == b {
      AllTheSame(b, |b|);
    }
  }

  lemma {:induction false} AllTheSame(b: Bytes, n: nat)
    requires n <= |b| && (n > 0 ==> b[0] == NEW_LINE[0]) && forall i :: 0 < i < n ==> b[i] == b[i - 1]
    ensures forall i :: 0 <= i < n ==> b[i] == NEW_LINE[0]
  {
    if n > 1 {
      AllTheSame(b, n - 1);
      assert b[n - 1] == b[n - 2];
    }
  }

  lemma Slices(a: Bytes, b: Bytes, c: Bytes, d: Bytes)
    ensures (a + b + c + d)[|a|..|a| + |b|] == b
    ensures (a + b + c + d)[|a| + |b|..|a| + |b| + |c|] == c
  {
  }

  function End(d: Disk): int {
    d.off + d.headSize + d.bodySize
  }

  /** A new line cut after one byte: any body is read one byte early, behind the carriage return. */
  lemma CutNewLineShiftsBody(f: File, it: Item, room: Room, now: int)
    requires f.writer && Aligned(f) && Fits(it, room) && room.newLine == 1
    ensures var t := Transform(f, it, room, now);
            var body := Flatten(it.body);
            && t.disk.Some? && InBounds(t.file, t.disk.value)
            && BodyOf(t.file, t.disk.value) == ([13] + body)[..|body|]
  {
    TransformOutcome(f, it, room, now);
    var t := Transform(f, it, room, now);
    hide Transform, Flatten;
    HeadAndBody(t.file, t.disk.value, f.content, it, room);
  }

  /** Bytes that are there stay there: extents stay valid as the file grows. */
  lemma Grown(f: File, g: File, d: Disk)
    requires InBounds(f, d) && f.content <= g.content
    ensures InBounds(g, d) && HeadOf(g, d) == HeadOf(f, d) && BodyOf(g, d) == BodyOf(f, d)
  {
  }

  // ---------- The reader ----------

  /** The current file is open for writing, has never failed, and its count is its length. */
  predicate Ready(l: OpenLog) {
    Current(l).writer && Current(l).retiredAt.None? && Aligned(Current(l)) && Current(l).ttl == l.ttl
  }

  /** A published record reads back with the end of its header block. */
  predicate IsWhole(l: OpenLog, p: Publication) {
    p.file < |l.files| && ReadsBackWhole(l.files[p.file], p.disk, p.item)
  }

  predicate AllWhole(l: OpenLog) {
    forall p :: p in l.published ==> IsWhole(l, p)
  }

  predicate PublishedReadBack(l: OpenLog) {
    forall p :: p in l.published ==> p.file < |l.files| && ReadsBack(l.files[p.file], p.disk, p.item)
  }

  /** Records of one file lie one behind the other, and before what is still to come. */
  predicate PublishedApart(l: OpenLog) {
    && (forall i, j :: 0 <= i < j < |l.published| && l.published[i].file == l.published[j].file ==>
          End(l.published[i].disk) <= l.published[j].disk.off)
    && (forall p :: p in l.published && p.file == |l.files| - 1 ==> End(p.disk) <= Current(l).size)
  }

  predicate LogInv(l: OpenLog) {
    Ready(l) && PublishedReadBack(l) && PublishedApart(l)
  }

  /** Files only grow, and the list of files only grows. */
  predicate Extends(l: OpenLog, m: OpenLog) {
    && |l.files| <= |m.files|
    && (forall i :: 0 <= i < |l.files| ==> l.files[i].content <= m.files[i].content)
    && l.published <= m.published
  }

  lemma RotateKeeps(l: OpenLog, now: int)
    requires PublishedReadBack(l) && PublishedApart(l)
    ensures PublishedReadBack(Rotate(l, now)) && PublishedApart(Rotate(l, now))
    ensures Extends(l, Rotate(l, now)) && Rotate(l, now).published == l.published
    ensures Current(l).ttl == l.ttl ==> LogInv(Rotate(l, now)) && Rotate(l, now).transforms == l.transforms
  {
    var r := Rotate(l, now);
    forall p | p in l.published ensures ReadsBack(r.files[p.file], p.disk, p.item) {
      Grown(l.files[p.file], r.files[p.file], p.disk);
    }
  }

  lemma GrowKeeps(l: OpenLog, f: File)
    requires PublishedReadBack(l) && Current(l).content <= f.content
    ensures PublishedReadBack(SetCurrent(l, f)) && Extends(l, SetCurrent(l, f))
  {
    var s := SetCurrent(l, f);
    forall p | p in l.published ensures ReadsBack(s.files[p.file], p.disk, p.item) {
      Grown(l.files[p.file], s.files[p.file], p.disk);
    }
  }

  lemma PublishKeeps(l: OpenLog, f: File, p: Publication)
    requires LogInv(l) && PublishedReadBack(SetCurrent(l, f))
    requires f.writer && f.retiredAt.None? && Aligned(f) && f.ttl == l.ttl
    requires p.file == |l.files| - 1 && ReadsBack(f, p.disk, p.item)
    requires Current(l).size <= p.disk.off && End(p.disk) <= f.size
    ensures LogInv(SetCurrent(l, f).(published := l.published + [p], transforms := l.transforms + 1))
  {
    forall q | q in l.published && q.file == p.file ensures End(q.disk) <= p.disk.off <= End(p.disk) {
    }
  }

  /** What a record that fits makes of the current file. */
  lemma RecordFile(l: OpenLog, it: Item, room: Room, now: int)
    requires LogInv(l) && Fits(it, room) && IgnoredWhole(room)
    ensures var f := Current(l);
            var t := Transform(f, it, room, now);
            && t.disk.Some? && f.content <= t.file.content
            && t.file.writer && t.file.retiredAt.None? && t.file.ttl == l.ttl && Aligned(t.file)
            && ReadsBack(t.file, t.disk.value, it)
            && f.size <= t.disk.value.off && End(t.disk.value) <= t.file.size
  {
    TransformOutcome(Current(l), it, room, now);
    TransformReadsBack(Current(l), it, room, now);
  }

  lemma TryWorks(l: OpenLog, it: Item, room: Room, now: int)
    requires LogInv(l) && Fits(it, room) && IgnoredWhole(room)
    ensures var (r, done) := Try(l, it, room, now);
            && done && LogInv(r) && Extends(l, r) && r.transforms == l.transforms + 1
            && |r.published| == |l.published| + 1 && r.published[|l.published|].item == it
  {
    var t := Transform(Current(l), it, room, now);
    RecordFile(l, it, room, now);
    LogInvParts(l);
    hide Transform, Flatten, Fits, IgnoredWhole, ReadsBack, LogInv, Aligned, PublishedReadBack, PublishedApart, Ready;
    GrowKeeps(l, t.file);
    PublishKeeps(l, t.file, Publication(|l.files| - 1, t.disk.value, it, now));
  }

  lemma LogInvParts(l: OpenLog)
    requires LogInv(l)
    ensures PublishedReadBack(l)
  {
  }

  /** The record just published reads back whole exactly if there was room for its new line. */
  lemma TryWholeIff(l: OpenLog, it: Item, room: Room, now: int)
    requires LogInv(l) && Fits(it, room)
    ensures var r := Try(l, it, room, now).0;
            && |r.published| == |l.published| + 1
            && (IsWhole(r, r.published[|l.published|]) <==> |NEW_LINE| <= room.newLine)
  {
    TransformReadsBack(Current(l), it, room, now);
    hide Transform, ReadsBackWhole, LogInv;
  }

  lemma TryFails(l: OpenLog, it: Item, room: Room, now: int)
    requires LogInv(l) && !Fits(it, room)
    ensures var (r, done) := Try(l, it, room, now);
            && !done && LogInv(r) && Extends(l, r) && r.transforms == l.transforms + 1
            && r.published == l.published
  {
    var t := Transform(Current(l), it, room, now);
    TransformOutcome(Current(l), it, room, now);
    GrowKeeps(l, t.file);
    hide Transform, ReadsBack;
    RotateGivesUp(SetCurrent(l, t.file).(transforms := l.transforms + 1), now);
  }

  lemma TryKeeps(l: OpenLog, it: Item, room: Room, now: int)
    requires LogInv(l) && IgnoredWhole(room)
    ensures var (r, done) := Try(l, it, room, now);
            && LogInv(r) && Extends(l, r) && r.transforms == l.transforms + 1
            && (done <==> Fits(it, room))
            && (!done ==> r.published == l.published)
            && (done ==> |r.published| == |l.published| + 1 && r.published[|l.published|].item == it)
            && (done ==> (IsWhole(r, r.published[|l.published|]) <==> |NEW_LINE| <= room.newLine))
  {
    hide Log.Try, LogInv, Extends;
    if Fits(it, room) {
      TryWorks(l, it, room, now);
      TryWholeIff(l, it, room, now);
    } else {
      TryFails(l, it, room, now);
    }
  }

  /** Giving up a file whose count may be wrong: the next one starts aligned. */
  lemma RotateGivesUp(l: OpenLog, now: int)
    requires PublishedReadBack(l) && Current(l).ttl == l.ttl
    requires forall i, j :: 0 <= i < j < |l.published| && l.published[i].file == l.published[j].file ==>
               End(l.published[i].disk) <= l.published[j].disk.off
    ensures LogInv(Rotate(l, now))
    ensures Rotate(l, now).published == l.published && Rotate(l, now).transforms == l.transforms
    ensures Extends(l, Rotate(l, now))
  {
    var r := Rotate(l, now);
    forall p | p in l.published ensures ReadsBack(r.files[p.file], p.disk, p.item) {
      Grown(l.files[p.file], r.files[p.file], p.disk);
    }
  }

  predicate AllIgnoredWhole(rooms: seq<Room>) {
    forall r :: r in rooms ==> IgnoredWhole(r)
  }

  predicate SomeFits(it: Item, rooms: seq<Room>) {
    exists r :: r in rooms && Fits(it, r)
  }

  /** The item was published at most once, exactly if `fits`, and everything before it still stands. */
  predicate PublishedOnceIf(l: OpenLog, m: OpenLog, it: Item, fits: bool) {
    && Extends(l, m)
    && |m.published| == |l.published| + (if fits then 1 else 0)
    && (fits ==> m.published[|l.published|].item == it)
  }

  lemma {:induction false} TriesKeep(l: OpenLog, it: Item, rooms: seq<Room>, now: int)
    requires LogInv(l) && AllIgnoredWhole(rooms)
    ensures var m := Tries(l, it, rooms, now);
            && LogInv(m) && PublishedOnceIf(l, m, it, SomeFits(it, rooms))
            && m.transforms <= l.transforms + |rooms|
    decreases |rooms|
  {
    if rooms != [] {
      assert rooms == [rooms[0]] + rooms[1..];
      assert rooms[0] in rooms;
      assert SomeFits(it, rooms) <==> Fits(it, rooms[0]) || SomeFits(it, rooms[1..]) by {
        if r :| r in rooms && Fits(it, r) && r != rooms[0] {
          assert r in rooms[1..];
        }
        if r :| r in rooms[1..] && Fits(it, r) {
          assert r in rooms;
        }
      }
      TryKeeps(l, it, rooms[0], now);
      var (r, done) := Try(l, it, rooms[0], now);
      if !done {
        TriesKeep(r, it, rooms[1..], now);
      }
    }
  }

  /**
   One turn of the loop: at most three transforms; the item is published exactly if it fits in one
   of the tries, and then once; the file the next turn starts with is aligned.
   */
  lemma ProcessKeeps(l: OpenLog, t: Turn)
    requires LogInv(l) && AllIgnoredWhole(t.rooms) && |t.rooms| == 3
    ensures var m := Process(l, t);
            && LogInv(m) && PublishedOnceIf(l, m, t.item, SomeFits(t.item, t.rooms))
            && m.transforms <= l.transforms + 3
  {
    var c := Expired(Current(l), t.now);
    var a := RotateIf(l, c, t.now);
    if c {
      RotateKeeps(l, t.now);
    }
    TriesKeep(a, t.item, t.rooms, t.now);
    var b := Tries(a, t.item, t.rooms, t.now);
    if Current(b).size > MAX_FILE_SIZE {
      RotateKeeps(b, t.now);
    }
  }

  /** Try by try: an item is given up if and only if it has failed three times. */
  lemma PublishedIff(l: OpenLog, it: Item, now: int, r0: Room, r1: Room, r2: Room)
    requires LogInv(l) && IgnoredWhole(r0) && IgnoredWhole(r1) && IgnoredWhole(r2)
    ensures var m := Process(l, Turn(it, now, [r0, r1, r2]));
            var fits := Fits(it, r0) || Fits(it, r1) || Fits(it, r2);
            && l.published <= m.published && |m.published| == |l.published| + (if fits then 1 else 0)
            && (fits ==> m.published[|l.published|].item == it)
  {
    var rooms := [r0, r1, r2];
    assert rooms[0] == r0 && rooms[1] == r1 && rooms[2] == r2;
    ProcessKeeps(l, Turn(it, now, rooms));
  }

  predicate Sound(turns: seq<Turn>) {
    ThreeTries(turns) && forall t :: t in turns ==> AllIgnoredWhole(t.rooms)
  }

  /**
   In every run of the reader: whatever header and body writes fail, and whichever of the ignored writes do,
   so long as these are not cut in the middle, all that was ever published reads back.
   */
  lemma {:induction false} ReaderRun(ttl: int, now: int, turns: seq<Turn>)
    requires Sound(turns)
    ensures var l := ProcessAll(NewLog(ttl, now), turns);
            LogInv(l) && |l.published| <= |turns| && l.transforms <= 3 * |turns|
  {
    if turns != [] {
      var before := turns[..|turns| - 1];
      ReaderRun(ttl, now, before);
      ProcessKeeps(ProcessAll(NewLog(ttl, now), before), turns[|turns| - 1]);
    }
  }

  lemma WholeStays(l: OpenLog, m: OpenLog)
    requires AllWhole(l) && Extends(l, m)
    ensures forall p :: p in l.published ==> IsWhole(m, p)
  {
    forall p | p in l.published ensures IsWhole(m, p) {
      Grown(l.files[p.file], m.files[p.file], p.disk);
    }
  }

  predicate NewLinesFit(rooms: seq<Room>) {
    forall r :: r in rooms ==> |NEW_LINE| <= r.newLine
  }

  lemma TryWhole(l: OpenLog, it: Item, room: Room, now: int)
    requires LogInv(l) && AllWhole(l) && IgnoredWhole(room) && |NEW_LINE| <= room.newLine
    ensures AllWhole(Try(l, it, room, now).0)
  {
    var (r, done) := Try(l, it, room, now);
    TryKeeps(l, it, room, now);
    WholeStays(l, r);
    hide Log.Try, LogInv, IsWhole;
    forall p | p in r.published ensures IsWhole(r, p) {
      assert p in l.published || (done && p == r.published[|l.published|]);
    }
  }

  lemma {:induction false} TriesWhole(l: OpenLog, it: Item, rooms: seq<Room>, now: int)
    requires LogInv(l) && AllWhole(l) && AllIgnoredWhole(rooms) && NewLinesFit(rooms)
    ensures AllWhole(Tries(l, it, rooms, now))
    decreases |rooms|
  {
    hide Log.Try, LogInv, AllWhole, IgnoredWhole;
    if rooms != [] {
      assert rooms[0] in rooms && forall r :: r in rooms[1..] ==> r in rooms;
      TryKeeps(l, it, rooms[0], now);
      TryWhole(l, it, rooms[0], now);
      TriesWhole(Try(l, it, rooms[0], now).0, it, rooms[1..], now);
    }
  }

  lemma ProcessWhole(l: OpenLog, t: Turn)
    requires LogInv(l) && AllWhole(l) && AllIgnoredWhole(t.rooms) && NewLinesFit(t.rooms) && |t.rooms| == 3
    ensures AllWhole(Log.Process(l, t))
  {
    hide AllWhole, LogInv, Tries;
    var a := RotateIf(l, Expired(Current(l), t.now), t.now);
    RotateIfWhole(l, Expired(Current(l), t.now), t.now);
    TriesWhole(a, t.item, t.rooms, t.now);
    TriesKeep(a, t.item, t.rooms, t.now);
    var b := Tries(a, t.item, t.rooms, t.now);
    RotateIfWhole(b, Current(b).size > MAX_FILE_SIZE, t.now);
  }

  lemma RotateIfWhole(l: OpenLog, c: bool, now: int)
    requires LogInv(l) && AllWhole(l)
    ensures LogInv(RotateIf(l, c, now)) && AllWhole(RotateIf(l, c, now))
  {
    if c {
      RotateKeeps(l, now);
      WholeStays(l, Rotate(l, now));
    }
  }

  /** If there is room for every new line besides, everything reads back whole. */
  lemma {:induction false} WholeRun(ttl: int, now: int, turns: seq<Turn>)
    requires Sound(turns) && forall t :: t in turns ==> NewLinesFit(t.rooms)
    ensures AllWhole(ProcessAll(NewLog(ttl, now), turns))
  {
    if turns != [] {
      var before, t := turns[..|turns| - 1], turns[|turns| - 1];
      assert t in turns && forall u :: u in before ==> u in turns;
      WholeRun(ttl, now, before);
      ReaderRun(ttl, now, before);
      ProcessWhole(ProcessAll(NewLog(ttl, now), before), t);
    }
  }

  /** And what a prefix of the run published is where it was, byte for byte. */
  lemma {:induction false} RecordsStay(ttl: int, now: int, turns: seq<Turn>, k: nat)
    requires Sound(turns) && k <= |turns|
    ensures var l := ProcessAll(NewLog(ttl, now), turns[..k]);
            var m := ProcessAll(NewLog(ttl, now), turns);
            && Extends(l, m)
            && forall p :: p in l.published ==>
                 p in m.published && p.file < |m.files| && ReadsBack(m.files[p.file], p.disk, p.item)
  {
    ReaderRun(ttl, now, turns);
    if k == |turns| {
      assert turns[..k] == turns;
    } else {
      var before := turns[..|turns| - 1];
      assert before[..k] == turns[..k];
      RecordsStay(ttl, now, before, k);
      ReaderRun(ttl, now, before);
      ProcessKeeps(ProcessAll(NewLog(ttl, now), before), turns[|turns| - 1]);
    }
  }
}
