/**
 The two kinds of cache item: in memory, with a spill to a temporary file, and in the log.
 */
module Items {
  import opened Wrappers
  import opened Log
  import opened LogSafety
  import opened VFiles
  import Index

  const BUFFER: nat := 4 * 1024
  const COPY_BUFFER: nat := 32 * 1024
  const TEMP_FILE_LIMIT: nat := 4 * 1024 * 1024

  datatype Range = Range(from: int, to: int, length: int) | WrongRange

  /** ValidRange on a body of `len` bytes: both item kinds compute it alike. */
  function RangeOf(len: int, reqStart: int, reqEnd: int): Range {
    if reqStart < 0 then WrongRange
    else
      var end := if reqEnd >= len then len else reqEnd + 1;
      if reqStart == 0 && end == 0 then Range(0, len, len)
      else if end - reqStart == 0 then WrongRange
      else Range(reqStart, end, end - reqStart)
  }

  /** When a range is refused, and what it is otherwise; an empty one from the start on is the whole of an item. */
  lemma RangeOfIs(len: nat, reqStart: int, reqEnd: int)
    ensures var end := if reqEnd < len then reqEnd + 1 else len;
            && (RangeOf(len, reqStart, reqEnd) == WrongRange <==> reqStart < 0 || 0 < reqStart == end)
            && (0 <= reqStart && reqStart != end ==>
                  RangeOf(len, reqStart, reqEnd) == Range(reqStart, end, end - reqStart))
            && (0 == reqStart == end ==> RangeOf(len, reqStart, reqEnd) == Range(0, len, len))
  {
  }

  class ItemMem {
    var key: Index.Key
    var statusCode: int
    var header: seq<Bytes>
    var data: Bytes
    // What the buffer holds between its length and its capacity.
    var spare: Bytes
    var w: Option<Bytes>

    ghost predicate Valid()
      reads this
    {
      w.Some? ==> data == []
    }

    /** The body, wherever it is. */
    ghost function Content(): Bytes
      reads this
    {
      if w.Some? then w.value else data
    }

    constructor (key: Index.Key, status: int, header: seq<Bytes>, buffer: Bytes)
      ensures Valid() && Content() == [] && spare == buffer
      ensures this.key == key && statusCode == status && this.header == header
    {
      this.key, statusCode, this.header, data, spare, w := key, status, header, [], buffer, None;
    }

    /** Whether a write of b goes to a file: the one there is, or a new one past the limit, if it can be made. */
    ghost predicate ToFile(b: Bytes, tempFile: bool)
      reads this
    {
      w.Some? || (|b| + |data| > TEMP_FILE_LIMIT && tempFile)
    }

    /**
     Appends b; past the limit the body moves to a temporary file, if one can be made. A file takes `room` more
     bytes. A write that fails leaves what the file has taken of body and b, and the item is not whole any more.
     A buffer too small for b is replaced by one that holds `grown` past its length.
     */
    method Write(b: Bytes, tempFile: bool, room: nat, grown: Bytes) returns (n: nat, ok: bool)
      modifies this`data, this`spare, this`w
      ensures w.Some? <==> old(w.Some?) || (|b| + |old(data)| > 4 * 1024 * 1024 && tempFile)
      ensures Content() == if old(ToFile(b, tempFile))
                           then Cut(old(Content()) + b, room + old(if w.Some? then |w.value| else 0))
                           else old(Content()) + b
      ensures ok <==> Content() == old(Content()) + b
      ensures n == if |old(Content())| < |Content()| then |Content()| - |old(Content())| else 0
      ensures ok && old(Valid()) ==> Valid()
      ensures w.None? ==> spare == if |b| <= |old(spare)| then old(spare)[|b|..] else grown
    {
      if w.Some? {
        w := Some(w.value + Cut(b, room));
        return |Cut(b, room)|, |b| <= room;
      }
      if |b| + |data| > TEMP_FILE_LIMIT {
        if tempFile {
          w := Some(Cut(data, room));
          if |data| > room {
            return 0, false;
          }
          var left := room - |data|;
          spare := data + spare;
          data := [];
          w := Some(w.value + Cut(b, left));
          return |Cut(b, left)|, |b| <= left;
        }
      }
      data := data + b;
      spare := if |b| <= |spare| then spare[|b|..] else grown;
      return |b|, true;
    }

    /**
     A copy into the item, which stops at the first write that fails, with creation of the temporary file failing
     at any of them: the content is all of it, or as much as the file has taken.
     */
    method WriteMany(chunks: seq<Bytes>, tempFile: seq<bool>, rooms: seq<nat>, grown: seq<Bytes>) returns (ok: bool)
      requires |tempFile| == |rooms| == |grown| == |chunks|
      modifies this`data, this`spare, this`w
      ensures ok ==> Content() == old(Content()) + Flatten(chunks) && (old(Valid()) ==> Valid())
      ensures !ok ==> w.Some? && Content() <= old(Content()) + Flatten(chunks)
    {
      hide Flatten, Cut;
      ghost var all := Content() + Flatten(chunks);
      assert chunks[0..] == chunks;
      for i := 0 to |chunks|
        invariant Content() + Flatten(chunks[i..]) == all && (old(Valid()) ==> Valid())
      {
        FlattenNext(chunks, i);
        ghost var before, rest := Content(), Flatten(chunks[i + 1..]);
        assert before + chunks[i] + rest == all;
        var n;
        n, ok := Write(chunks[i], tempFile[i], rooms[i], grown[i]);
        CutStarts(before + chunks[i], rest);
        if !ok {
          return;
        }
      }
      ok := true;
      FlattenNone(chunks);
    }

    method Len() returns (n: nat)
      ensures n == |Content()|
    {
      if w.None? {
        return |data|;
      }
      return |w.value|;
    }

    method GetBytes() returns (b: Bytes)
      ensures b == Content()
    {
      if w.None? {
        return data;
      }
      return w.value;
    }

    /** The writes WriteTo makes: the whole slice, or the buffers of the copy loop. */
    ghost function Pieces(): seq<Bytes>
      reads this
    {
      if w.Some? then Buffers(w.value) else [data]
    }

    method WriteTo() returns (chunks: seq<Bytes>)
      ensures chunks == Pieces() && Flatten(chunks) == Content()
    {
      hide Flatten, Buffers;
      if w.None? {
        chunks := [data];
        FlattenOne(data);
        return;
      }
      var file := w.value;
      var pos := 0;
      chunks := [];
      AllBuffers(file);
      while pos < |file|
        invariant pos <= |file| && chunks + Buffers(file[pos..]) == Buffers(file)
      {
        var n := if |file| - pos < COPY_BUFFER then |file| - pos else COPY_BUFFER;
        NextBuffer(file, pos, n);
        assert chunks + [file[pos..pos + n]] + Buffers(file[pos + n..]) == Buffers(file);
        chunks := chunks + [file[pos..pos + n]];
        pos := pos + n;
      }
      NoBuffers(file);
      FlattenBuffers(file);
    }

    method ValidRange(reqStart: int, reqEnd: int) returns (rg: Range)
      ensures rg == RangeOf(|Content()|, reqStart, reqEnd)
    {
      if reqStart < 0 {
        return WrongRange;
      }
      var itmLen := Len();
      var end := reqEnd;
      if end >= itmLen {
        end := itmLen;
      } else {
        end := end + 1;
      }
      if reqStart == 0 && end == 0 {
        return Range(0, itmLen, itmLen);
      }
      var reqLength := end - reqStart;
      if reqLength == 0 {
        return WrongRange;
      }
      return Range(reqStart, end, reqLength);
    }

    /**
     Writes exactly the bytes asked for. Past its end a spilled item has no more; one in memory goes on with what is
     left in its buffer, and past the capacity of that the slice would panic.
     */
    method WriteToRange(from: int, to: int) returns (out: Bytes, n: int, ok: bool)
      requires w.Some? || !(0 <= from < to && from <= |data|) || to <= |data + spare|
      ensures ok <==> 0 <= from < to && from <= |Content()|
      ensures n == |out| && (!ok ==> out == [])
      ensures ok && w.Some? ==> out == Content()[from..if to < |Content()| then to else |Content()|]
      ensures ok && w.None? ==> out == (data + spare)[from..to]
      ensures ok && to <= |Content()| ==> out == Content()[from..to]
    {
      var len := Len();
      if from < 0 || to < 0 || from >= to || from > len {
        return [], 0, false;
      }
      if w.None? {
        var buffer := data + spare;
        out := buffer[from..to];
        if to <= |data| {
          InFront(data, spare, from, to);
        }
        return out, |out|, true;
      }
      var file := w.value;
      var seek, left := from, to - from;
      out := [];
      assert Copied(file, from, out);
      hide Copied;
      while true
        invariant 0 <= left && seek + left == to && from + |out| == seek <= |file|
        invariant Copied(file, from, out)
        decreases left
      {
        var m := if |file| - seek < BUFFER then |file| - seek else BUFFER;
        var b, eof := file[seek..seek + m], m < BUFFER;
        ghost var at := seek;
        seek := seek + m;
        left := left - m;
        if eof || left <= 0 {
          if left < 0 {
            m := m + left;
          }
          FirstOf(file, at, |b|, m);
          CopiedOn(file, from, out, b[..m]);
          out := out + b[..m];
          CopiedTo(file, from, out, if to < |file| then to else |file|);
          return out, |out|, true;
        }
        CopiedOn(file, from, out, b);
        out := out + b;
      }
    }

    method Close()
      modifies this`w
      ensures w.None? && Content() == data == old(data)
    {
      w := None;
    }
  }

  /** What a copy loop reads, buffer by buffer. */
  function Buffers(b: Bytes): seq<Bytes>
    decreases |b|
  {
    if b == [] then []
    else
      var n := if |b| < COPY_BUFFER then |b| else COPY_BUFFER;
      [b[..n]] + Buffers(b[n..])
  }

  lemma InFront(a: Bytes, b: Bytes, from: nat, to: nat)
    requires from <= to <= |a|
    ensures (a + b)[from..to] == a[from..to]
  {
  }

  lemma FlattenNext(chunks: seq<Bytes>, i: nat)
    requires i < |chunks|
    ensures Flatten(chunks[i..]) == chunks[i] + Flatten(chunks[i + 1..])
  {
    assert chunks[i..][1..] == chunks[i + 1..];
  }

  lemma FlattenNone(chunks: seq<Bytes>)
    ensures Flatten(chunks[|chunks|..]) == []
  {
  }

  lemma CutStarts(b: Bytes, rest: Bytes)
    ensures forall room: nat :: Cut(b, room) <= b + rest
  {
  }

  lemma AllBuffers(b: Bytes)
    ensures [] + Buffers(b[0..]) == Buffers(b)
  {
    assert b[0..] == b;
  }

  lemma NoBuffers(b: Bytes)
    ensures Buffers(b[|b|..]) == []
  {
  }

  lemma NextBuffer(b: Bytes, pos: nat, n: nat)
    requires pos < |b| && n == if |b| - pos < COPY_BUFFER then |b| - pos else COPY_BUFFER
    ensures Buffers(b[pos..]) == [b[pos..pos + n]] + Buffers(b[pos + n..])
  {
    assert b[pos..][..n] == b[pos..pos + n] && b[pos..][n..] == b[pos + n..];
  }

  lemma FlattenOne(b: Bytes)
    ensures Flatten([b]) == b
  {
    assert [b][1..] == [] && b + [] == b;
  }

  lemma {:induction false} FlattenBuffers(b: Bytes)
    ensures Flatten(Buffers(b)) == b
    decreases |b|
  {
    if b != [] {
      var n := if |b| < COPY_BUFFER then |b| else COPY_BUFFER;
      FlattenBuffers(b[n..]);
    }
  }

  // ---------- The chunk loop ----------

  /** A range is asked for, or the whole body. */
  predicate Ranged(from: int, to: int) {
    from > 0 || to > 0
  }

  /** How much the loop is after. */
  function Asked(bodySize: int, from: int, to: int): int {
    if Ranged(from, to) then to - from else bodySize
  }

  /** The count at which the loop, at the end of a chunk, looks no further. */
  function Mark(bodySize: int, from: int, to: int): int {
    if Ranged(from, to) && to < bodySize then to else bodySize
  }

  /** What a file has from a position on. */
  function Avail(size: nat, base: int): nat {
    if 0 <= base < size then size - base else 0
  }

  /** The file has what is asked for, or at least reaches the mark. */
  predicate LoopEnds(asked: int, mark: int, avail: int) {
    asked <= avail || mark <= avail
  }

  /** The end of the first chunk at or past `mark`, of which there is at least one. */
  function ChunksTo(mark: int): int {
    if mark <= BUFFER then BUFFER else (mark + BUFFER - 1) / BUFFER * BUFFER
  }

  /** Where the loop stops: with all there is of what it was asked for, or at the end of the chunk with its mark. */
  function Stop(asked: int, mark: int, avail: int): int {
    var most := if asked < avail then asked else avail;
    if most < ChunksTo(mark) then most else ChunksTo(mark)
  }

  lemma ToTheEnd(asked: int, mark: int, avail: int)
    requires asked <= mark && asked <= avail
    ensures Stop(asked, mark, avail) == asked
  {
  }

  /** The counts between two chunks, not yet at the mark. */
  predicate Between(last: int, left: int, mark: int) {
    0 <= last && 0 <= left && last % BUFFER == 0 && (last == 0 || (last < mark && left > 0))
  }

  function ChunkSize(last: int, left: int, avail: int): int {
    var len := if left < BUFFER then left else BUFFER;
    if last >= avail then 0 else if avail - last < len then avail - last else len
  }

  /** What a read behind `last` bytes gets. */
  lemma ChunkOf(size: nat, start: nat, last: nat, left: nat, got: int)
    requires var len := if left < BUFFER then left else BUFFER;
             var there := size - (start + last);
             got == if there <= 0 then 0 else if there < len then there else len
    ensures got == ChunkSize(last, left, Avail(size, start))
  {
  }

  /** After the next chunk the loop is where it stops, or between two chunks again and further on. */
  lemma StopAt(last: int, left: int, mark: int, avail: nat)
    requires Between(last, left, mark) && LoopEnds(last + left, mark, avail)
    ensures var n := ChunkSize(last, left, avail);
            && 0 <= n <= left
            && (left == n || mark <= last + n ==> Stop(last + left, mark, avail) == last + n)
            && (left != n && last + n < mark ==> n > 0 && Between(last + n, left - n, mark))
  {
  }

  /** `out` is what a file of this content has from `start` on. */
  predicate Copied(content: Bytes, start: int, out: Bytes) {
    0 <= start && (out == [] || (start + |out| <= |content| && out == content[start..start + |out|]))
  }

  lemma Longer(all: Bytes, from: nat, to: nat, more: Bytes)
    requires from <= to && to + |more| <= |all| && more == all[to..to + |more|]
    ensures all[from..to] + more == all[from..to + |more|]
  {
    var a, b := all[from..to] + more, all[from..to + |more|];
    forall i | 0 <= i < |a| ensures a[i] == b[i] {
      assert to - from <= i ==> more[i - (to - from)] == all[to..to + |more|][i - (to - from)];
    }
  }

  lemma Inner(all: Bytes, start: nat, len: nat, from: nat, to: nat)
    requires start + len <= |all| && from <= to <= len
    ensures all[start..start + len][from..to] == all[start + from..start + to]
  {
    var a, b := all[start..start + len][from..to], all[start + from..start + to];
    forall i | 0 <= i < |a| ensures a[i] == b[i] {
      assert a[i] == all[start..start + len][from + i] == all[start + (from + i)];
    }
  }

  lemma CopiedOn(content: Bytes, start: int, out: Bytes, more: Bytes)
    requires Copied(content, start, out)
    requires more != [] ==>
               start + |out| + |more| <= |content| && more == content[start + |out|..start + |out| + |more|]
    ensures Copied(content, start, out + more)
  {
    if more != [] {
      Longer(content, start, start + |out|, more);
    } else {
      assert out + more == out;
    }
  }

  lemma FirstOf(all: Bytes, at: nat, got: nat, n: nat)
    requires n <= got && at + got <= |all|
    ensures all[at..at + got][..n] == all[at..at + n]
  {
    var a, b := all[at..at + got][..n], all[at..at + n];
    forall i | 0 <= i < |a| ensures a[i] == b[i] {
      assert a[i] == all[at..at + got][i];
    }
  }

  lemma CopiedTo(content: Bytes, start: nat, out: Bytes, end: nat)
    requires Copied(content, start, out) && start + |out| == end <= |content|
    ensures out == content[start..end]
  {
  }

  class ItemDisk {
    var key: Index.Key
    var statusCode: int
    var file: VFile
    var off: int
    var headSize: int
    var bodySize: int

    constructor (d: Disk, file: VFile)
      ensures Extents() == d && this.file == file
    {
      key, statusCode, this.file, off, headSize, bodySize := d.key, d.status, file, d.off, d.headSize, d.bodySize;
    }

    ghost function Extents(): Disk
      reads this
    {
      Disk(key, statusCode, off, headSize, bodySize)
    }

    ghost predicate Valid()
      reads this, file
    {
      InBounds(file.View(), Extents())
    }

    ghost function Content(): Bytes
      requires Valid()
      reads this, file
    {
      BodyOf(file.View(), Extents())
    }

    method Len() returns (n: int)
      ensures n == bodySize
    {
      return bodySize;
    }

    method ValidRange(reqStart: int, reqEnd: int) returns (rg: Range)
      requires Valid()
      ensures rg == RangeOf(|Content()|, reqStart, reqEnd)
    {
      if reqStart < 0 {
        return WrongRange;
      }
      var itmLen := Len();
      var end := reqEnd;
      if end >= itmLen {
        end := itmLen;
      } else {
        end := end + 1;
      }
      if reqStart == 0 && end == 0 {
        return Range(0, itmLen, itmLen);
      }
      var reqLength := end - reqStart;
      if reqLength == 0 {
        return WrongRange;
      }
      return Range(reqStart, end, reqLength);
    }

    /** Where the loop starts reading. */
    ghost function Start(from: int, to: int): int
      reads this
    {
      off + headSize + if Ranged(from, to) then from else 0
    }

    /** Where the loop stops, for a range and the file as it is. */
    ghost function StopsAt(from: int, to: int): int
      reads this, file
    {
      Stop(Asked(bodySize, from, to), Mark(bodySize, from, to), Avail(|file.content|, Start(from, to)))
    }

    /** The loop can read, and does not go on for ever. */
    ghost predicate Ends(from: int, to: int)
      reads this, file
    {
      && 0 <= Asked(bodySize, from, to)
      && (file.r && 0 <= Start(from, to) ==>
            LoopEnds(Asked(bodySize, from, to), Mark(bodySize, from, to), Avail(|file.content|, Start(from, to))))
    }

    /**
     What the loop does: nothing if the file is closed or the range starts before it; otherwise it copies what the
     file has from where it starts to where it stops, which is no error if that is all it was asked for, or exactly
     the end of the body or of the range.
     */
    ghost predicate Wrote(from: int, to: int, out: Bytes, n: int, ok: bool)
      reads this, file
    {
      && n == |out|
      && if !file.r || Start(from, to) < 0 then !ok && out == []
         else
           && n == StopsAt(from, to) && Copied(file.content, Start(from, to), out)
           && (ok <==> n == Asked(bodySize, from, to) || n == bodySize || (Ranged(from, to) && n == to))
    }

    /** The counts after a chunk say what the loop does next. */
    lemma Turn(from: int, to: int, out: Bytes, left: int, b: Bytes)
      requires Ends(from, to) && file.r && 0 <= Start(from, to) && |out| + left == Asked(bodySize, from, to)
      requires Between(|out|, left, Mark(bodySize, from, to)) && Copied(file.content, Start(from, to), out)
      requires |b| == ChunkSize(|out|, left, Avail(|file.content|, Start(from, to)))
      requires b != [] ==> Start(from, to) + |out| + |b| <= |file.content|
                           && b == file.content[Start(from, to) + |out|..Start(from, to) + |out| + |b|]
      ensures |b| <= left && Copied(file.content, Start(from, to), out + b)
      ensures var n := |out + b|;
              if left == |b| || n >= Mark(bodySize, from, to)
              then Wrote(from, to, out + b, n, left == |b| || n == bodySize || (Ranged(from, to) && n == to))
              else |b| > 0 && Between(n, left - |b|, Mark(bodySize, from, to))
    {
      CopiedOn(file.content, Start(from, to), out, b);
      StopAt(|out|, left, Mark(bodySize, from, to), Avail(|file.content|, Start(from, to)));
      hide Copied, Between, Stop, ChunkSize, Avail;
    }

    /**
     The chunk loop. It reads on, past the end of the body if asked to, until it has what it was asked for, or at
     the end of a chunk has reached its mark; having passed the mark it reports an error.
     */
    method WriteOut(from: int, to: int) returns (out: Bytes, n: int, ok: bool)
      requires Ends(from, to)
      ensures Wrote(from, to, out, n, ok)
    {
      var last := 0;
      var seek := off + headSize;
      var left := bodySize;
      if from > 0 || to > 0 {
        seek := seek + from;
        left := to - from;
      }
      out := [];
      assert left == Asked(bodySize, from, to) && seek == Start(from, to);
      assert Between(last, left, Mark(bodySize, from, to)) && (0 <= seek ==> Copied(file.content, seek, out));
      hide Between, Copied, Asked, Start, StopsAt, ChunkSize, Avail, Ends;
      while true
        invariant 0 <= left && last == |out| && last + left == Asked(bodySize, from, to) && seek == Start(from, to)
        invariant Between(last, left, Mark(bodySize, from, to)) && (last > 0 ==> file.r && 0 <= seek)
        invariant 0 <= seek ==> Copied(file.content, seek, out)
        decreases left
      {
        var len := if left < BUFFER then left else BUFFER;
        var b, eof, read := file.ReadAt(len, seek + last);
        if !read {
          return out, 0, false;
        }
        ChunkOf(|file.content|, seek, last, left, |b|);
        Turn(from, to, out, left, b);
        last := last + |b|;
        left := left - |b|;
        out := out + b;
        hide Wrote;
        if left == 0 {
          return out, last, true;
        }
        if last == bodySize || ((from > 0 || to > 0) && last == to) {
          return out, last, true;
        }
        if last > bodySize || ((from > 0 || to > 0) && last > to) {
          return out, last, false;
        }
      }
    }

    /** A range of the body is written as it is, and is no error. */
    lemma InBody(from: int, to: int)
      requires Valid() && 0 <= from <= to <= bodySize
      ensures Ends(from, to) && 0 <= Start(from, to)
      ensures StopsAt(from, to) == Asked(bodySize, from, to)
      ensures forall out ::
                Copied(file.content, Start(from, to), out) && |out| == Asked(bodySize, from, to) ==>
                  out == if from == 0 && to == 0 then Content() else Content()[from..to]
    {
      ToTheEnd(Asked(bodySize, from, to), Mark(bodySize, from, to), Avail(|file.content|, Start(from, to)));
      hide Stop, ChunksTo;
      if to > 0 {
        Inner(file.content, off + headSize, bodySize, from, to);
      }
    }

    method WriteTo() returns (out: Bytes, n: int, ok: bool)
      requires Valid()
      ensures ok <==> file.r
      ensures n == |out| && out == if ok then Content() else []
    {
      InBody(0, 0);
      out, n, ok := WriteOut(0, 0);
    }

    /** The range check and the loop; for a range of the body exactly its bytes, where (0, 0) asks for all of them. */
    method WriteToRange(from: int, to: int) returns (out: Bytes, n: int, ok: bool)
      requires from <= to ==> Ends(from, to)
      ensures from > to ==> !ok && out == [] && n == 0
      ensures from <= to ==> Wrote(from, to, out, n, ok)
      ensures Valid() && 0 <= from <= to <= bodySize && file.r ==>
                ok && out == if from == 0 && to == 0 then Content() else Content()[from..to]
    {
      if from > to {
        return [], 0, false;
      }
      if Valid() && 0 <= from <= to <= bodySize {
        InBody(from, to);
      }
      out, n, ok := WriteOut(from, to);
    }

    method GetBytes() returns (b: Bytes)
      requires Valid()
      ensures b == if file.r then Content() else []
    {
      InBody(0, 0);
      var out, n, ok := WriteOut(0, 0);
      return if ok then out else [];
    }
  }
}
