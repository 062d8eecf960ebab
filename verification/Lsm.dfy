/**
 The two-level store of lsm/lsm.go: the index over the value log, with a clock. Items are values
 here; module Refs looks at the objects and their recycling.
 */
module Lsm {
  import opened Wrappers
  import opened Log
  import Index
  import opened LogSafety

  type Key = Index.Key

  /**
   What the index holds. An item on disk is named by its log, its file and its extents. The item it
   was made from and when it was handed to the index are kept for the record.
   */
  datatype Value =
    | InMem(item: Item)
    | OnDisk(log: int, file: nat, disk: Disk, item: Item, at: int)

  /**
   Where the goroutine of one TTL is in its loop: waiting for an item, trying to write one, about to
   hand a written record to the index, or about to look at the size of its file.
   */
  datatype Phase =
    | Idle
    | Trying(failed: nat)
    | Handing(record: Publication)
    | Ending

  /** That goroutine: its files, its queue and its place. The item it tries to write is still the first of the queue. */
  datatype Reader = Reader(log: OpenLog, queue: seq<Item>, phase: Phase)

  /** What the reader still has to hand over, first things first. */
  function Held(r: Reader): seq<Item> {
    (if r.phase.Handing? then [r.phase.record.item] else []) + r.queue
  }

  type Entry = nat

  type Kv = Index.State<Entry, Value>

  datatype Store = Store(kv: Kv, readers: map<int, Reader>, minTtl: int)

  function Init(now: int, minTtl: int): Store {
    Store(Index.Init(now, true), map[], minTtl)
  }

  // ---------- Steps ----------

  datatype Action =
    | Set(e: Entry, item: Item, ttl: int)
    | Delete(k: Key)
    | Recv
    | Visit(t: int)
    | Tick(d: nat)
    // The reader of log q: it takes an item and looks whether its file has expired, a record that is
    // written, one that fails, handing a written record to the index, and the look at the file's size.
    | Take(q: int)
    | WriteOut(q: int, room: Room)
    | WriteFails(q: int, room: Room)
    | AfterWrite(q: int, e: Entry)
    | Finish(q: int)
    // The timer of a retired file.
    | CloseFile(q: int, i: nat)

  function NewReader(ttl: int, now: int): Reader {
    Reader(NewLog(ttl, now), [], Idle)
  }

  /** LSM.Set puts the item into the index and, if it lives long enough, into the queue of its TTL. */
  function Enqueue(s: Store, it: Item, ttl: int): map<int, Reader> {
    if ttl <= s.minTtl then s.readers
    else
      var q := LogKey(ttl);
      var r := if q in s.readers then s.readers[q] else NewReader(ttl, s.kv.now);
      s.readers[q := r.(queue := r.queue + [it])]
  }

  /** What the index does in a step. */
  function IndexStep(s: Store, a: Action): Option<Index.Action<Entry, Value>> {
    match a
    case Set(e, it, ttl) => Some(Index.DoSet(e, it.key, InMem(it), ttl))
    case Delete(k) => Some(Index.DoRemove(k))
    case Recv => Some(Index.DoRecv)
    case Visit(t) => Some(Index.DoVisit(t))
    case Tick(d) => Some(Index.DoTick(d))
    case AfterWrite(q, e) =>
      if q in s.readers && s.readers[q].phase.Handing? then
        var r := s.readers[q];
        var p := r.phase.record;
        Some(Index.DoSwap(e, p.disk.key, OnDisk(q, p.file, p.disk, p.item, s.kv.now), r.log.ttl))
      else None
    case _ => None
  }

  function CloseAt(l: OpenLog, i: nat): OpenLog {
    if i < |l.files| then l.(files := l.files[i := Log.Close(l.files[i])]) else l
  }

  /** A failed try counts; the third gives the item up. */
  function AfterFailure(r: Reader, l: OpenLog): Reader {
    if r.phase.Trying? && r.phase.failed + 1 < TRIES then r.(log := l, phase := Trying(r.phase.failed + 1))
    else Reader(l, if r.queue == [] then [] else r.queue[1..], Ending)
  }

  /** What a reader does in a step. */
  function ReaderStep(r: Reader, a: Action, now: int): Reader {
    match a
    case Take(_) => r.(log := RotateIf(r.log, Log.Expired(Current(r.log), now), now), phase := Trying(0))
    case WriteOut(_, room) =>
      if r.queue == [] then r
      else
        var l := Try(r.log, r.queue[0], room, now).0;
        if l.published == [] then r
        else Reader(l, r.queue[1..], Handing(l.published[|l.published| - 1]))
    case WriteFails(_, room) => if r.queue == [] then r else AfterFailure(r, Try(r.log, r.queue[0], room, now).0)
    case AfterWrite(_, _) => r.(phase := Ending)
    case Finish(_) => r.(log := RotateIf(r.log, Current(r.log).size > MAX_FILE_SIZE, now), phase := Idle)
    case CloseFile(_, i) => r.(log := CloseAt(r.log, i))
    case _ => r
  }

  predicate OfReader(a: Action) {
    a.Take? || a.WriteOut? || a.WriteFails? || a.AfterWrite? || a.Finish? || a.CloseFile?
  }

  function Step(s: Store, a: Action): Store {
    var i := IndexStep(s, a);
    var kv := if i.Some? then Index.Step(s.kv, i.value) else s.kv;
    var readers :=
      if a.Set? then Enqueue(s, a.item, a.ttl)
      else if OfReader(a) && a.q in s.readers then s.readers[a.q := ReaderStep(s.readers[a.q], a, s.kv.now)]
      else s.readers;
    s.(kv := kv, readers := readers)
  }

  /**
   When a reader can take a step: in the order of its loop. Whether a record is written depends on the
   room there is; the two ignored writes of one that is may fail, but are not cut in the middle.
   */
  predicate ReaderEnabled(r: Reader, a: Action, now: int) {
    match a
    case Take(_) => r.phase == Idle && r.queue != []
    case WriteOut(_, room) => r.phase.Trying? && r.queue != [] && Fits(r.queue[0], room) && IgnoredWhole(room)
    case WriteFails(_, room) => r.phase.Trying? && r.queue != [] && !Fits(r.queue[0], room)
    case AfterWrite(_, _) => r.phase.Handing?
    case Finish(_) => r.phase == Ending
    case CloseFile(_, i) => i < |r.log.files| && Due(r.log.files[i], now)
    case _ => true
  }

  predicate Enabled(s: Store, a: Action) {
    && (OfReader(a) ==> a.q in s.readers && ReaderEnabled(s.readers[a.q], a, s.kv.now))
    && (IndexStep(s, a).Some? ==> Index.Enabled(s.kv, IndexStep(s, a).value))
  }

  function Run(s: Store, acts: seq<Action>): Store {
    if acts == [] then s else Step(Run(s, acts[..|acts| - 1]), acts[|acts| - 1])
  }

  predicate Allowed(s: Store, acts: seq<Action>) {
    acts == [] ||
    (Allowed(s, acts[..|acts| - 1]) && Enabled(Run(s, acts[..|acts| - 1]), acts[|acts| - 1]))
  }

  // ---------- Reading ----------

  datatype Found = Missing | Found(value: Value, expired: bool)

  /** LSM.Get. */
  function Get(s: Store, k: Key): Found {
    if k !in s.kv.items then Missing
    else
      var e := s.kv.items[k];
      if Index.At(s.kv, e).val.None? then Missing
      else Found(Index.At(s.kv, e).val.value, Index.Expired(s.kv, e))
  }

  /** The file an item on disk lives in. */
  function FileOf(s: Store, v: Value): Option<File>
    requires v.OnDisk?
  {
    if v.log in s.readers && v.file < |s.readers[v.log].log.files|
    then Some(s.readers[v.log].log.files[v.file])
    else None
  }

  /** The body a reader gets; None if the file is gone or the extents are wrong. */
  function Body(s: Store, v: Value): Option<Bytes> {
    match v
    case InMem(it) => Some(Flatten(it.body))
    case OnDisk(_, _, d, _, _) =>
      match FileOf(s, v)
      case None => None
      case Some(f) => if f.reader && InBounds(f, d) then Some(BodyOf(f, d)) else None
  }
}
