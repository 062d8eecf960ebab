/**
 The append-only value log of lsm/vfile.go and lsm/vlog.go over values: what a write, a record
 and one turn of the reader loop do to the files.
 */
module Log {
  import opened Wrappers
  import Index

  type Byte = b: int | 0 <= b < 256
  type Bytes = seq<Byte>

  const NEW_LINE: Bytes := [13, 10]

  /** The end mark of a record, ">>>>>!ELINPROXY" and a line feed. */
  const END_MARK: Bytes := [62, 62, 62, 62, 62, 33, 69, 76, 73, 78, 80, 82, 79, 88, 89, 10]

  const MAX_FILE_SIZE: int := 1000 * 1024 * 1024
  const GRACE: int := 5 * Index.SECOND
  const MAX_WAITING: int := 3600 * Index.SECOND

  /**
   A VFile. `content` is what is on disk, `size` what the program has counted. A retired file
   closes its reader some time after `retiredAt`.
   */
  datatype File = File(
    ttl: int,
    expireAt: int,
    content: Bytes,
    size: nat,
    writer: bool,
    reader: bool,
    retiredAt: Option<int>)

  /** An item as the log sees it: the pieces that writing its header and its body hands over. */
  datatype Item = Item(key: Index.Key, status: int, head: seq<Bytes>, body: seq<Bytes>)

  /** The extents of a record; the body follows the header block. */
  datatype Disk = Disk(key: Index.Key, status: int, off: int, headSize: int, bodySize: int)

  function Flatten(chunks: seq<Bytes>): Bytes {
    if chunks == [] then [] else chunks[0] + Flatten(chunks[1..])
  }

  // ---------- Files ----------

  function NewFile(ttl: int, now: int): File {
    File(ttl, now + ttl + GRACE, [], 0, true, true, None)
  }

  predicate Expired(f: File, now: int) {
    now > f.expireAt
  }

  datatype Wrote = Wrote(file: File, n: nat, ok: bool)

  /** One write to a file whose device takes `room` more bytes: what is cut short is not counted. */
  function Write(f: File, b: Bytes, room: nat, now: int): Wrote {
    var g := f.(expireAt := now + f.ttl + GRACE);
    if !f.writer then Wrote(g, 0, false)
    else if |b| <= room then Wrote(g.(content := g.content + b, size := g.size + |b|), |b|, true)
    else Wrote(g.(content := g.content + b[..room]), room, false)
  }

  /** Writes until one fails. */
  function WriteAll(f: File, chunks: seq<Bytes>, room: nat, now: int): Wrote
    decreases |chunks|
  {
    if chunks == [] then
      Wrote(f, 0, true)
    else
      var first := Write(f, chunks[0], room, now);
      if !first.ok then first
      else
        var rest := WriteAll(first.file, chunks[1..], room - first.n, now);
        rest.(n := first.n + rest.n)
  }

  /** How long a retired file outlives its TTL: a quarter of it, truncated to whole seconds. */
  function Extra(ttl: int): int {
    var quarter := if ttl < 0 then -(-ttl / (4 * Index.SECOND)) else ttl / (4 * Index.SECOND);
    var max := quarter * Index.SECOND;
    if max > MAX_WAITING then MAX_WAITING else max
  }

  /** AutoExpire: the first call closes the writer and starts the timer. */
  function Retire(f: File, now: int): File {
    if f.retiredAt.Some? then f else f.(writer := false, retiredAt := Some(now))
  }

  /** When the timer may fire. */
  predicate Due(f: File, now: int) {
    f.retiredAt.Some? && now >= f.retiredAt.value + f.ttl + Extra(f.ttl)
  }

  function Close(f: File): File {
    f.(writer := false, reader := false)
  }

  // ---------- Records ----------

  /** How many bytes the device takes in each of the four parts of a record. */
  datatype Room = Room(head: nat, newLine: nat, body: nat, mark: nat)

  datatype Transformed = Transformed(file: File, disk: Option<Disk>)

  /** A record: header, new line, body, end mark. The results of the second and fourth write are ignored. */
  function Transform(f: File, it: Item, room: Room, now: int): Transformed {
    var h := WriteAll(f, it.head, room.head, now);
    if !h.ok then Transformed(h.file, None)
    else
      var l := Write(h.file, NEW_LINE, room.newLine, now).file;
      var b := WriteAll(l, it.body, room.body, now);
      if !b.ok then Transformed(b.file, None)
      else
        var disk := Disk(it.key, it.status, f.size, l.size - f.size, b.file.size - l.size);
        Transformed(Write(b.file, END_MARK, room.mark, now).file, Some(disk))
  }

  // ---------- The reader loop ----------

  /** A record handed to afterWrite: in which file, its extents, and the item it was made from. */
  datatype Publication = Publication(file: nat, disk: Disk, item: Item, at: int)

  /** The files one reader has opened, the last one being written, and what it has published. */
  datatype FileLog = FileLog(ttl: int, files: seq<File>, published: seq<Publication>, transforms: nat)

  type OpenLog = l: FileLog | l.files != [] witness FileLog(0, [NewFile(0, 0)], [], 0)

  function Current(l: OpenLog): File {
    l.files[|l.files| - 1]
  }

  function SetCurrent(l: OpenLog, f: File): OpenLog {
    l.(files := l.files[|l.files| - 1 := f])
  }

  function NewLog(ttl: int, now: int): OpenLog {
    FileLog(ttl, [NewFile(ttl, now)], [], 0)
  }

  /** Retires the current file and starts another. */
  function Rotate(l: OpenLog, now: int): OpenLog {
    var r := SetCurrent(l, Retire(Current(l), now));
    r.(files := r.files + [NewFile(l.ttl, now)])
  }

  /** One try: on success the record is published, on failure the file is given up. */
  function Try(l: OpenLog, it: Item, room: Room, now: int): (OpenLog, bool) {
    var t := Transform(Current(l), it, room, now);
    var r := SetCurrent(l, t.file).(transforms := l.transforms + 1);
    if t.disk.None? then
      (Rotate(r, now), false)
    else
      (r.(published := r.published + [Publication(|l.files| - 1, t.disk.value, it, now)]), true)
  }

  const TRIES := 3

  function Tries(l: OpenLog, it: Item, rooms: seq<Room>, now: int): OpenLog
    decreases |rooms|
  {
    if rooms == [] then l
    else
      var (r, done) := Try(l, it, rooms[0], now);
      if done then r else Tries(r, it, rooms[1..], now)
  }

  /** What one turn of the loop meets: the clock, and the device's room in each try. */
  datatype Turn = Turn(item: Item, now: int, rooms: seq<Room>)

  predicate ThreeTries(turns: seq<Turn>) {
    forall t :: t in turns ==> |t.rooms| == 3
  }

  function RotateIf(l: OpenLog, c: bool, now: int): OpenLog {
    if c then Rotate(l, now) else l
  }

  function Process(l: OpenLog, t: Turn): OpenLog {
    var rotated := RotateIf(l, Expired(Current(l), t.now), t.now);
    var tried := Tries(rotated, t.item, t.rooms, t.now);
    RotateIf(tried, Current(tried).size > MAX_FILE_SIZE, t.now)
  }

  function ProcessAll(l: OpenLog, turns: seq<Turn>): OpenLog {
    if turns == [] then l else Process(ProcessAll(l, turns[..|turns| - 1]), turns[|turns| - 1])
  }

  // ---------- Logs ----------

  /** The log of a TTL is that of its whole seconds, truncated toward zero. */
  function LogKey(ttl: int): int {
    if ttl < 0 then -Index.Whole(-ttl) else Index.Whole(ttl)
  }
}
