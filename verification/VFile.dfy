/**
 The log's files as objects. What the operating system does is a parameter: how many bytes it
 still takes (`room`) and what time it is.
 */
module VFiles {
  import opened Wrappers
  import opened Log

  class VFile {
    const ttl: int
    var expireAt: int
    var content: Bytes
    var size: nat
    var w: bool
    var r: bool
    var autoExpire: nat
    var retiredAt: Option<int>

    ghost function View(): File
      reads this
    {
      File(ttl, expireAt, content, size, w, r, retiredAt)
    }

    /** AutoExpire has run exactly when its counter says so. */
    ghost predicate Valid()
      reads this
    {
      autoExpire == 0 <==> retiredAt.None?
    }

    constructor (ttl: int, now: int)
      ensures Valid() && View() == NewFile(ttl, now) && expireAt == now + ttl + 5_000_000_000
    {
      this.ttl := ttl;
      expireAt := now + ttl + GRACE;
      content, size, w, r, autoExpire, retiredAt := [], 0, true, true, 0, None;
    }

    method Expired(now: int) returns (b: bool)
      ensures b <==> Log.Expired(View(), now)
      ensures b <==> now > expireAt
    {
      return now > expireAt;
    }

    /** What (*os.File).ReadAt finds: fewer bytes than asked for only at the end of the file; no negative offset. */
    method ReadAt(len: nat, off: int) returns (b: Bytes, eof: bool, ok: bool)
      ensures ok <==> r && off >= 0
      ensures !ok ==> b == []
      ensures ok ==> |b| == (if off >= |content| then 0 else if |content| - off < len then |content| - off else len)
      ensures ok && b != [] ==> b == content[off..off + |b|]
      ensures eof <==> ok && |b| < len
    {
      if !r || off < 0 {
        return [], false, false;
      }
      var from := if off < |content| then off else |content|;
      var to := if from + len < |content| then from + len else |content|;
      b := content[from..to];
      return b, |b| < len, true;
    }

    method Write(b: Bytes, room: nat, now: int) returns (n: nat, ok: bool)
      requires Valid()
      modifies this
      ensures Valid()
      ensures var o := Log.Write(old(View()), b, room, now);
              View() == o.file && n == o.n && ok == o.ok
    {
      expireAt := now + ttl + GRACE;
      if !w {
        return 0, false;
      }
      if |b| > room {
        content := content + b[..room];
        return room, false;
      }
      content := content + b;
      size := size + |b|;
      return |b|, true;
    }

    /** A writer of several pieces stops at the first error. */
    method WriteAll(chunks: seq<Bytes>, room: nat, now: int) returns (n: nat, ok: bool)
      requires Valid()
      modifies this
      ensures Valid()
      ensures var o := Log.WriteAll(old(View()), chunks, room, now);
              View() == o.file && n == o.n && ok == o.ok
    {
      ghost var all := Log.WriteAll(View(), chunks, room, now);
      n := 0;
      ok := true;
      var left: nat := room;
      for i := 0 to |chunks|
        invariant Valid() && ok && left + n == room
        invariant var rest := Log.WriteAll(View(), chunks[i..], left, now);
                  all == rest.(n := n + rest.n)
      {
        assert chunks[i..][1..] == chunks[i + 1..];
        var m;
        m, ok := Write(chunks[i], left, now);
        n := n + m;
        if !ok {
          return;
        }
        left := left - m;
      }
    }

    method Seek() returns (s: nat)
      ensures s == size
    {
      return size;
    }

    method CloseWriter()
      modifies this`w
      ensures !w
    {
      w := false;
    }

    method CloseReader()
      modifies this`r
      ensures !r
    {
      r := false;
    }

    method CloseBoth()
      requires Valid()
      modifies this`w, this`r
      ensures Valid() && View() == Log.Close(old(View())) && !w && !r
    {
      CloseWriter();
      CloseReader();
    }

    method AutoExpire(now: int)
      requires Valid()
      modifies this`autoExpire, this`w, this`retiredAt
      ensures Valid() && View() == Retire(old(View()), now)
      ensures old(autoExpire) == 0 ==> !w && retiredAt == Some(now)
      ensures old(autoExpire) > 0 ==> w == old(w) && retiredAt == old(retiredAt)
    {
      autoExpire := autoExpire + 1;
      if autoExpire > 1 {
        return;
      }
      CloseWriter();
      retiredAt := Some(now);
    }
  }
}
