/**
 The goroutine that writes one TTL's items to disk: its transform and its loop, proved to take the
 steps of module Log.
 */
module VLogs {
  import opened Wrappers
  import opened Log
  import Index
  import opened LogSafety
  import opened VFiles
  import opened Items

  /** Serialises itm at the end of w. */
  method WriteRecord(w: VFile, itm: ItemMem, room: Room, now: int) returns (disk: Option<Disk>)
    requires w.Valid()
    modifies w
    ensures w.Valid()
    ensures var t := Log.Transform(old(w.View()), AsItem(itm), room, now);
            w.View() == t.file && disk == t.disk
  {
    hide Log.Write, Log.WriteAll, Flatten;
    var off: int := w.Seek();
    var _, headOk := w.WriteAll(itm.header, room.head, now);
    if !headOk {
      return None;
    }
    var _, _ := w.Write(NEW_LINE, room.newLine, now);
    var bodyStart: int := w.Seek();
    var headSize := bodyStart - off;
    var pieces := itm.WriteTo();
    var _, bodyOk := w.WriteAll(pieces, room.body, now);
    if !bodyOk {
      return None;
    }
    var bodyEnd: int := w.Seek();
    var bodySize := bodyEnd - off - headSize;
    var _, _ := w.Write(END_MARK, room.mark, now);
    return Some(Disk(itm.key, itm.statusCode, off, headSize, bodySize));
  }

  ghost function AsItem(itm: ItemMem): Item
    reads itm
  {
    Item(itm.key, itm.statusCode, itm.header, itm.Pieces())
  }

  class Reader {
    const ttl: int
    var w: VFile
    // The items handed to afterWrite, in order.
    var written: seq<ItemDisk>
    ghost var files: seq<VFile>
    ghost var log: OpenLog

    ghost predicate FilesMatch()
      reads this, files
    {
      && |files| == |log.files| && w == files[|files| - 1] && Index.NoDup(files)
      && forall i :: 0 <= i < |files| ==> files[i].Valid() && files[i].View() == log.files[i]
    }

    ghost predicate WrittenMatch()
      reads this, written
    {
      && |written| == |log.published|
      && forall i :: 0 <= i < |written| ==>
           && log.published[i].file < |files|
           && written[i].file == files[log.published[i].file]
           && written[i].Extents() == log.published[i].disk
    }

    ghost predicate Valid()
      reads this, files, written
    {
      FilesMatch() && WrittenMatch() && log.ttl == ttl
    }

    constructor (ttl: int, now: int)
      ensures Valid() && log == NewLog(ttl, now) && fresh(files)
    {
      var f := new VFile(ttl, now);
      this.ttl, w, written := ttl, f, [];
      files, log := [f], NewLog(ttl, now);
    }

    /** Hands the current file to AutoExpire. */
    method RetireCurrent(now: int)
      requires Valid()
      modifies this`log, w
      ensures Valid() && log == SetCurrent(old(log), Retire(Current(old(log)), now))
    {
      hide Log.Retire;
      w.AutoExpire(now);
      log := SetCurrent(log, Retire(Current(log), now));
    }

    method OpenNext(now: int)
      requires Valid()
      modifies this`w, this`files, this`log
      ensures Valid() && fresh(w) && log == old(log).(files := old(log).files + [NewFile(ttl, now)])
    {
      var f := new VFile(ttl, now);
      w := f;
      files := files + [f];
      log := log.(files := log.files + [NewFile(ttl, now)]);
    }

    /** The change of files. */
    method Rotate(now: int)
      requires Valid()
      modifies this`w, this`files, this`log, w
      ensures Valid() && log == Log.Rotate(old(log), now)
      ensures fresh(w)
    {
      hide FilesMatch, WrittenMatch;
      RetireCurrent(now);
      OpenNext(now);
    }

    /** One try; the file that failed is given up. */
    method Try(itm: ItemMem, room: Room, now: int) returns (done: bool)
      requires Valid()
      modifies this`w, this`files, this`log, this`written, w
      ensures Valid()
      ensures (log, done) == Log.Try(old(log), AsItem(itm), room, now)
      ensures old(written) <= written && (w == old(w) || fresh(w))
    {
      hide Log.Transform, Log.Retire;
      var disk := WriteRecord(w, itm, room, now);
      if disk.None? {
        ghost var tried := Log.Transform(Current(log), AsItem(itm), room, now).file;
        log := SetCurrent(log, tried).(transforms := log.transforms + 1);
        Rotate(now);
        return false;
      }
      Publish(disk.value, itm, room, now);
      return true;
    }

    /** Makes the item on disk of a record that has just been written to w. */
    method Publish(disk: Disk, ghost itm: ItemMem, ghost room: Room, ghost now: int)
      requires |files| == |log.files| && w == files[|files| - 1] && Index.NoDup(files)
      requires WrittenMatch() && log.ttl == ttl
      requires forall i :: 0 <= i < |files| - 1 ==> files[i].Valid() && files[i].View() == log.files[i]
      requires var t := Log.Transform(Current(log), AsItem(itm), room, now);
               w.Valid() && w.View() == t.file && t.disk == Some(disk)
      modifies this`log, this`written
      ensures Valid() && (log, true) == Log.Try(old(log), AsItem(itm), room, now) && old(written) <= written
    {
      hide Log.Transform, AsItem;
      var itd := new ItemDisk(disk, w);
      written := written + [itd];
      log := Log.Try(log, AsItem(itm), room, now).0;
    }

    lemma CurrentIsW()
      requires Valid()
      ensures w.Valid() && w.View() == Current(log) && |written| == |log.published|
    {
    }

    /** Whether the item is handed out depends on its three tries. */
    static lemma HandedOut(l: OpenLog, it: Item, rooms: seq<Room>, now: int)
      requires |rooms| == 3
      ensures LogInv(l) && AllIgnoredWhole(rooms) ==>
                |Log.Process(l, Turn(it, now, rooms)).published|
                == |l.published| + if Fits(it, rooms[0]) || Fits(it, rooms[1]) || Fits(it, rooms[2]) then 1 else 0
    {
      assert rooms == [rooms[0], rooms[1], rooms[2]];
      if LogInv(l) && AllIgnoredWhole(rooms) {
        PublishedIff(l, it, now, rooms[0], rooms[1], rooms[2]);
      }
    }

    /** Tries an item up to three times. */
    method TryThrice(itm: ItemMem, now: int, rooms: seq<Room>)
      requires Valid() && |rooms| == 3
      modifies this`w, this`files, this`log, this`written, w
      ensures Valid() && log == Tries(old(log), AsItem(itm), rooms, now)
      ensures old(written) <= written && (w == old(w) || fresh(w))
    {
      hide FilesMatch, WrittenMatch, Log.Transform, Log.Try;
      ghost var it := AsItem(itm);
      ghost var goal := Tries(log, it, rooms, now);
      var done := false;
      var attempt := 0;
      while attempt < 3 && !done
        invariant 0 <= attempt <= 3 && Valid()
        invariant goal == if done then log else Tries(log, it, rooms[attempt..], now)
        invariant old(written) <= written && (w == old(w) || fresh(w))
      {
        assert rooms[attempt..][1..] == rooms[attempt + 1..];
        done := Try(itm, rooms[attempt], now);
        attempt := attempt + 1;
      }
    }

    /** One turn of the loop over the queue. */
    method Process(itm: ItemMem, now: int, rooms: seq<Room>)
      requires Valid() && |rooms| == 3
      modifies this`w, this`files, this`log, this`written, w
      ensures Valid()
      ensures log == Log.Process(old(log), Turn(AsItem(itm), now, rooms))
      ensures w == old(w) || fresh(w)
      ensures LogInv(old(log)) && AllIgnoredWhole(rooms) ==>
                var it := AsItem(itm);
                var fits := Fits(it, rooms[0]) || Fits(it, rooms[1]) || Fits(it, rooms[2]);
                old(written) <= written && |written| == |old(written)| + if fits then 1 else 0
    {
      hide FilesMatch, WrittenMatch, Tries, Log.Rotate, LogInv, AllIgnoredWhole, Fits;
      CurrentIsW();
      HandedOut(log, AsItem(itm), rooms, now);
      var expired := w.Expired(now);
      if expired {
        Rotate(now);
      }
      TryThrice(itm, now, rooms);
      CurrentIsW();
      var size := w.Seek();
      if size > MAX_FILE_SIZE {
        Rotate(now);
      }
      CurrentIsW();
    }

    /** The loop, over everything that is ever queued. */
    method ProcessAll(items: seq<ItemMem>, nows: seq<int>, rooms: seq<seq<Room>>)
      requires Valid() && |items| == |nows| == |rooms|
      requires forall i :: 0 <= i < |items| ==> |rooms[i]| == 3
      modifies this`w, this`files, this`log, this`written, w
      ensures Valid()
      ensures log == Log.ProcessAll(old(log), Turns(items, nows, rooms))
    {
      hide FilesMatch, WrittenMatch, Log.Process, Log.ProcessAll, AsItem, Turns;
      ghost var turns := Turns(items, nows, rooms);
      NoTurns(log, turns);
      for i := 0 to |items|
        invariant Valid() && log == Log.ProcessAll(old(log), turns[..i])
        invariant w == old(w) || fresh(w)
      {
        assert turns[i] == Turn(AsItem(items[i]), nows[i], rooms[i]);
        Process(items[i], nows[i], rooms[i]);
        OneTurn(old(log), turns, i);
      }
      assert turns[..|items|] == turns;
    }
  }

  lemma NoTurns(l: OpenLog, turns: seq<Turn>)
    ensures Log.ProcessAll(l, turns[..0]) == l
  {
  }

  lemma OneTurn(l: OpenLog, turns: seq<Turn>, i: nat)
    requires i < |turns|
    ensures Log.ProcessAll(l, turns[..i + 1]) == Log.Process(Log.ProcessAll(l, turns[..i]), turns[i])
  {
    assert turns[..i + 1][..i] == turns[..i];
  }

  ghost function Turns(items: seq<ItemMem>, nows: seq<int>, rooms: seq<seq<Room>>): (ts: seq<Turn>)
    requires |items| == |nows| == |rooms|
    reads items
    ensures |ts| == |items|
    ensures forall i :: 0 <= i < |items| ==> ts[i] == Turn(AsItem(items[i]), nows[i], rooms[i])
    decreases |items|
  {
    if items == [] then []
    else
      var n := |items| - 1;
      Turns(items[..n], nows[..n], rooms[..n]) + [Turn(AsItem(items[n]), nows[n], rooms[n])]
  }

  /** An item on disk whose extents lead back to an item in memory has its bytes, key and status. */
  lemma SameBytes(itm: ItemMem, itd: ItemDisk)
    requires ReadsBack(itd.file.View(), itd.Extents(), AsItem(itm))
    ensures itd.Valid() && itd.Content() == itm.Content()
    ensures itd.key == itm.key && itd.statusCode == itm.statusCode
  {
    if itm.w.Some? {
      FlattenBuffers(itm.w.value);
    } else {
      assert [itm.data][1..] == [] && itm.data + [] == itm.data;
      assert Flatten([itm.data]) == itm.data;
    }
  }

  /**
   The item on disk that a record makes of an item in memory, spilled or not, is the same body: so
   by their contracts Len, ValidRange, WriteTo and WriteToRange answer alike.
   */
  method ToDisk(w: VFile, itm: ItemMem, room: Room, now: int) returns (itd: Option<ItemDisk>)
    requires w.Valid() && w.w && Aligned(w.View()) && room.newLine != 1
    modifies w
    ensures w.Valid() && old(w.content) <= w.content
    ensures itd.Some? <==> Fits(AsItem(itm), room)
    ensures itd.Some? ==> itd.value.file == w && itd.value.Valid() && itd.value.Content() == itm.Content()
    ensures itd.Some? ==> itd.value.key == itm.key && itd.value.statusCode == itm.statusCode && w.r == old(w.r)
  {
    hide Log.Transform, ReadsBack;
    ghost var f, it := w.View(), AsItem(itm);
    TransformOutcome(f, it, room, now);
    var disk := WriteRecord(w, itm, room, now);
    itd := None;
    if disk.Some? {
      TransformReadsBack(f, it, room, now);
      var made := new ItemDisk(disk.value, w);
      SameBytes(itm, made);
      itd := Some(made);
    }
  }

  /** Whatever a reader has handed out reads back, as long as its log is sound. */
  lemma WrittenReadBack(rd: Reader, i: nat)
    requires rd.Valid() && LogInv(rd.log) && i < |rd.written|
    ensures var itd := rd.written[i];
            var it := rd.log.published[i].item;
            && itd.Valid() && itd.Content() == Flatten(it.body) && itd.key == it.key && itd.statusCode == it.status
  {
    assert rd.log.published[i] in rd.log.published;
  }
}
