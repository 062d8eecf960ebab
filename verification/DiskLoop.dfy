/**
 The chunk loop of ItemDisk.writeTo as a bare iteration: when it ends.
 */
module DiskLoop {
  import opened Items

  /** The counters the loop carries. */
  datatype Counts = Counts(last: int, left: int)

  /** What a read of `len` bytes at `pos` gets from a file of `size` bytes. */
  function ReadSize(size: int, pos: int, len: int): int {
    if pos >= size then 0 else if size - pos < len then size - pos else len
  }

  /** One turn: a chunk of at most a buffer from `base` on. */
  function Turn(size: int, base: int, c: Counts): Counts {
    var n := ReadSize(size, base + c.last, if c.left < BUFFER then c.left else BUFFER);
    Counts(c.last + n, c.left - n)
  }

  /** The three exits after a turn. */
  predicate Exits(bodySize: int, from: int, to: int, c: Counts) {
    var ranged := from > 0 || to > 0;
    || c.left == 0
    || c.last == bodySize || (ranged && c.last == to)
    || c.last > bodySize || (ranged && c.last > to)
  }

  function Turns(size: int, base: int, c: Counts, k: nat): Counts {
    if k == 0 then c else Turn(size, base, Turns(size, base, c, k - 1))
  }

  /** Without reaching the end of the file the counters move on by a buffer a turn; at its end they stand still. */
  lemma {:induction false} TurnsAt(size: int, base: int, len: int, k: nat)
    requires 0 <= base && 0 <= len
    ensures var c := Turns(size, base, Counts(0, len), k);
            var most := ReadSize(size, base, len);
            && c.last + c.left == len
            && c.last == if k * BUFFER < most then k * BUFFER else most
  {
    if k > 0 {
      TurnsAt(size, base, len, k - 1);
    }
  }

  /** The loop has left after its k-th turn, if not before. */
  predicate ExitsAfter(size: int, base: int, bodySize: int, from: int, to: int, k: nat) {
    k > 0 && Exits(bodySize, from, to, Turns(size, base, Counts(0, Asked(bodySize, from, to)), k))
  }

  /** Asked for more than its mark, the loop stops at the end of the first chunk of 4096 bytes that reaches that. */
  lemma PastTheMark(asked: int, mark: int, avail: int)
    requires 0 < mark < asked && mark <= avail
    ensures var n := Stop(asked, mark, avail);
            mark <= n && (n % 4096 == 0 || n == asked || n == avail) && n < mark + 4096
  {
  }

  /** It leaves as soon as it has all it was asked for, or has reached its mark. */
  lemma ExitsAt(bodySize: int, from: int, to: int, c: Counts)
    requires 0 <= bodySize && 0 <= Asked(bodySize, from, to)
    requires 0 <= c.last && c.last + c.left == Asked(bodySize, from, to)
    ensures Exits(bodySize, from, to, c) <==> c.left == 0 || Mark(bodySize, from, to) <= c.last
  {
  }

  /**
   The loop, over any range and over the whole body, ends exactly when its file has what it is asked for, or at
   least reaches the mark past which it gives up.
   */
  lemma EndsIff(size: nat, base: nat, bodySize: int, from: int, to: int)
    requires 0 <= bodySize && 0 <= Asked(bodySize, from, to)
    ensures (exists k: nat :: ExitsAfter(size, base, bodySize, from, to, k)) <==>
            LoopEnds(Asked(bodySize, from, to), Mark(bodySize, from, to), Avail(size, base))
  {
    var asked, mark, avail := Asked(bodySize, from, to), Mark(bodySize, from, to), Avail(size, base);
    forall k: nat
      ensures ExitsAfter(size, base, bodySize, from, to, k) ==> LoopEnds(asked, mark, avail)
    {
      TurnsAt(size, base, asked, k);
      ExitsAt(bodySize, from, to, Turns(size, base, Counts(0, asked), k));
    }
    if LoopEnds(asked, mark, avail) {
      var k := asked + 1;
      TurnsAt(size, base, asked, k);
      ExitsAt(bodySize, from, to, Turns(size, base, Counts(0, asked), k));
      assert ExitsAfter(size, base, bodySize, from, to, k);
    }
  }
}
