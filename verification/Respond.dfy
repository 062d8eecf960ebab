/**
 respondFromCache for a request with a Range header, against RFC 7233.
 */
module Responses {
  import opened Wrappers
  import opened Log
  import opened Items
  import opened Ranges
  import opened RangeProofs

  const OK: int := 200
  const LIMIT_RANGE: int := 1024 * 1024

  /** What goes out: a whole body, a part with its Content-Range and Content-Length, or status 416. */
  datatype Response =
    | Full(status: int, contentLength: int, body: Bytes)
    | Partial(from: int, last: int, total: int, contentLength: int, body: Bytes)
    | NotSatisfiable

  // ---------- The response ----------

  /** What an item sends for a range: nothing, if the range is wrong. */
  function Sent(body: Bytes, from: int, to: int): Bytes
    requires to <= |body|
  {
    if 0 <= from < to then body[from..to] else []
  }

  /** The response to the first range. */
  function RespondRange(body: Bytes, r: HttpRange): Response {
    match RangeOf(|body|, r.start, r.length)
    case WrongRange => NotSatisfiable
    case Range(from, to, length) =>
      RangeBounds(|body|, r.start, r.length);
      Partial(from, to - 1, |body|, length, Sent(body, from, to))
  }

  lemma RangeBounds(len: nat, start: int, end: int)
    ensures match RangeOf(len, start, end)
            case WrongRange => true
            case Range(from, to, length) => 0 <= from && to <= len
  {
  }

  function Respond(body: Bytes, status: int, header: string): Response {
    match Parse(header, LIMIT_RANGE, |body|)
    case Invalid => NotSatisfiable
    case Absent => Full(status, |body|, body)
    case Ranges(rs) =>
      if status != OK || rs == [] then Full(status, |body|, body) else RespondRange(body, rs[0])
  }

  // ---------- RFC 7233 ----------

  /** Section 2.1: a first position after the last makes the whole set invalid. */
  predicate ValidSet(rs: seq<Spec>) {
    forall r :: r in rs && r.FirstLast? ==> r.a <= r.b
  }

  datatype Interval = Interval(first: nat, last: nat)

  function Min(a: nat, b: nat): nat {
    if a < b then a else b
  }

  /** Section 2.1: the positions of a body of `len` bytes that a range names, if it is satisfiable. */
  function Names(r: Spec, len: nat): Option<Interval> {
    match r
    case FirstLast(a, b) => if a < len then Some(Interval(a, Min(b, len - 1))) else None
    case First(a) => if a < len then Some(Interval(a, len - 1)) else None
    case Suffix(n) => if n == 0 || len == 0 then None else Some(Interval(len - Min(n, len), len - 1))
  }

  predicate Satisfiable(rs: seq<Spec>, len: nat) {
    exists r :: r in rs && Names(r, len).Some?
  }

  /** The ranges are invalid or unsatisfiable. */
  predicate Refusable(rs: seq<Spec>, len: nat) {
    !ValidSet(rs) || !Satisfiable(rs, len)
  }

  /** The range names position p, and nothing outside of first..last. */
  predicate NamesWithin(r: Spec, len: nat, p: nat, first: nat, last: nat) {
    match Names(r, len)
    case None => false
    case Some(i) => first <= i.first <= p <= i.last <= last
  }

  predicate Covered(rs: seq<Spec>, len: nat, p: nat, first: nat, last: nat) {
    exists r :: r in rs && NamesWithin(r, len, p, first, last)
  }

  /** Section 4.1: one of the ranges, or several that overlap or touch, as one part. */
  predicate OnePart(rs: seq<Spec>, len: nat, first: nat, last: nat) {
    first <= last && forall p :: first <= p <= last ==> Covered(rs, len, p, first, last)
  }

  /**
   The answers that RFC 7233 allows for a body and the ranges asked for: the whole body at any time
   (section 3.1), status 416 if the ranges are invalid or unsatisfiable (sections 3.1 and 4.4), and, if
   they are valid, a part of what they name with its length and position (sections 2.1, 4.1 and 4.2).
   */
  predicate Permitted(body: Bytes, rs: seq<Spec>, resp: Response) {
    match resp
    case Full(status, contentLength, b) => status == OK && contentLength == |body| && b == body
    case NotSatisfiable => Refusable(rs, |body|)
    case Partial(from, last, total, contentLength, b) =>
      && ValidSet(rs) && 0 <= from <= last < |body| && OnePart(rs, |body|, from, last)
      && total == |body| && contentLength == last - from + 1 && b == body[from..last + 1]
  }

  /** When the program's answer is among them; only the header and the length of the body matter. */
  predicate Conforms(rs: seq<Spec>, len: nat)
    requires rs != []
  {
    || len == 0
    || if exists r :: r in rs && !RangeProofs.Fits(r) then Refusable(rs, len)
       else
         match rs[0]
         case FirstLast(a, b) =>
           if a == Min(b + 1, len) then Refusable(rs, len) else a <= b && a < len && ValidSet(rs)
         case First(a) => if a == len then Refusable(rs, len) else a < len && ValidSet(rs)
         case Suffix(n) => ValidSet(rs) && OnePart(rs, len, 0, Min(n, len - 1))
  }

  lemma WholeRange(r: Spec, rs: seq<Spec>, len: nat)
    requires r in rs && Names(r, len).Some? && Names(r, len).value.first <= Names(r, len).value.last
    ensures OnePart(rs, len, Names(r, len).value.first, Names(r, len).value.last)
  {
    var i := Names(r, len).value;
    forall p | i.first <= p <= i.last ensures Covered(rs, len, p, i.first, i.last) {
      assert NamesWithin(r, len, p, i.first, i.last);
    }
  }

  /** What the program sends from a to b: 416 if that is nothing, a malformed part if it is less than nothing. */
  lemma RespondFrom(body: Bytes, a: nat, b: nat)
    requires body != []
    ensures var resp := RespondRange(body, HttpRange(a, b));
            var end := Min(b + 1, |body|);
            && (a < end ==> resp == Partial(a, end - 1, |body|, end - a, body[a..end]))
            && (a == end ==> resp == NotSatisfiable)
            && (a > end ==> resp.Partial? && resp.last < resp.from)
  {
  }

  lemma FirstConforms(body: Bytes, rs: seq<Spec>, a: nat, b: nat)
    requires body != [] && rs != []
    requires rs[0] == FirstLast(a, b) || (rs[0] == First(a) && b == |body|)
    ensures Permitted(body, rs, RespondRange(body, HttpRange(a, b))) <==>
            if a == Min(b + 1, |body|) then Refusable(rs, |body|) else a < Min(b + 1, |body|) && ValidSet(rs)
  {
    RespondFrom(body, a, b);
    if a < Min(b + 1, |body|) {
      WholeRange(rs[0], rs, |body|);
    }
  }

  lemma RangeConformsIff(body: Bytes, rs: seq<Spec>)
    requires body != [] && rs != [] && forall r :: r in rs ==> RangeProofs.Fits(r)
    ensures Permitted(body, rs, RespondRange(body, Meaning(rs[0], |body|))) <==> Conforms(rs, |body|)
  {
    hide OnePart, Satisfiable, ValidSet;
    match rs[0]
    case FirstLast(a, b) => FirstConforms(body, rs, a, b);
    case First(a) => FirstConforms(body, rs, a, |body|);
    case Suffix(n) => RespondFrom(body, 0, n);
  }

  /**
   For a cached 200 response and any header that prints a list of ranges, the answer is one that RFC 7233
   allows exactly if the body is empty or: where a number does not fit in 63 bits, or the first range is empty
   as the program reads it, the ranges are invalid or unsatisfiable; where the first range is another, all are
   valid and it starts inside the body and before its end; where it is a suffix, all are valid and name what
   the program sends for it.
   */
  lemma ConformsIff(body: Bytes, rs: seq<Spec>)
    requires |body| <= MAX_INT64 && rs != []
    ensures Permitted(body, rs, Respond(body, OK, PrintHeader(rs))) <==> Conforms(rs, |body|)
  {
    hide Permitted, RespondRange, OnePart, Refusable, ValidSet;
    if body == [] {
      EmptyInFull(body, rs);
    } else if r :| r in rs && !RangeProofs.Fits(r) {
      Refused(rs, LIMIT_RANGE, |body|);
      RefusedIff(body, rs);
    } else {
      RoundTrip(rs, LIMIT_RANGE, |body|);
      assert Meanings(rs, |body|)[0] == Meaning(rs[0], |body|);
      RangeConformsIff(body, rs);
    }
  }

  lemma EmptyInFull(body: Bytes, rs: seq<Spec>)
    requires body == [] && rs != []
    ensures Permitted(body, rs, Respond(body, OK, PrintHeader(rs)))
  {
  }

  lemma RefusedIff(body: Bytes, rs: seq<Spec>)
    ensures Permitted(body, rs, NotSatisfiable) <==> Refusable(rs, |body|)
  {
  }

  /**
   One range alone: a-b with a no more than b + 1 and no more than the length, a- with a no more than the length,
   and suffixes that cover the body.
   */
  lemma OneRangeConforms(r: Spec, len: nat)
    requires len > 0 && RangeProofs.Fits(r)
    ensures Conforms([r], len) <==>
            match r {
              case FirstLast(a, b) => a <= b + 1 && a <= len
              case First(a) => a <= len
              case Suffix(n) => n >= len
            }
  {
    assert forall q :: q in [r] <==> q == r;
    assert Satisfiable([r], len) <==> Names(r, len).Some?;
    if r.Suffix? {
      if r.n >= len {
        WholeRange(r, [r], len);
      } else {
        assert !Covered([r], len, 0, 0, Min(r.n, len - 1));
      }
    }
  }

  /** The good case spelled out: the bytes, their number and the interval named are those asked for. */
  lemma PartialResponse(body: Bytes, a: nat, b: nat, more: seq<Spec>)
    requires a < |body| <= MAX_INT64 && a <= b <= MAX_INT64 && forall r :: r in more ==> RangeProofs.Fits(r)
    ensures var last := if b < |body| then b else |body| - 1;
            var p := Respond(body, OK, PrintHeader([FirstLast(a, b)] + more));
            p == Partial(a, last, |body|, last - a + 1, body[a..last + 1]) && |p.body| == p.contentLength
  {
    var rs := [FirstLast(a, b)] + more;
    RoundTrip(rs, LIMIT_RANGE, |body|);
    assert Meanings(rs, |body|)[0] == HttpRange(a, b);
    RespondFrom(body, a, b);
  }

  // ---------- The handler ----------

  datatype AnyItem = Mem(mem: ItemMem) | OnDisk(disk: ItemDisk)

  ghost predicate ItemValid(x: AnyItem)
    reads if x.Mem? then {x.mem} else {x.disk, x.disk.file}
  {
    x.OnDisk? ==> x.disk.Valid()
  }

  ghost function BodyOfItem(x: AnyItem): Bytes
    requires ItemValid(x)
    reads if x.Mem? then {x.mem} else {x.disk, x.disk.file}
  {
    match x
    case Mem(m) => m.Content()
    case OnDisk(d) => d.Content()
  }

  /** The handler gets the headers: always of an item in memory, of one on disk if its file is open and they parse. */
  ghost predicate HasHeaders(x: AnyItem, parse: bool)
    reads if x.Mem? then {x.mem} else {x.disk, x.disk.file}
  {
    x.Mem? || (x.disk.file.r && parse)
  }

  /** The same response for an item of either kind, however it is stored; none if its headers cannot be read. */
  method RespondFromCache(x: AnyItem, status: int, header: string, parse: bool) returns (resp: Option<Response>)
    requires ItemValid(x)
    ensures resp == if HasHeaders(x, parse) then Some(Respond(BodyOfItem(x), status, header)) else None
    ensures HasHeaders(x, parse) && (header == "" || BodyOfItem(x) == []) ==>
              resp == Some(Full(status, |BodyOfItem(x)|, BodyOfItem(x)))
    ensures HasHeaders(x, parse) && header != "" && BodyOfItem(x) != [] ==>
              match Parse(header, LIMIT_RANGE, |BodyOfItem(x)|) {
                case Ranges(rs) =>
                  && rs != []
                  && (status != 200 ==> resp == Some(Full(status, |BodyOfItem(x)|, BodyOfItem(x))))
                  && (status == 200 ==> resp == Some(RespondRange(BodyOfItem(x), rs[0])))
                case _ => resp == Some(NotSatisfiable)
              }
  {
    var len;
    match x {
      case Mem(m) => len := m.Len();
      case OnDisk(d) =>
        if !d.file.r || !parse {
          return None;
        }
        len := d.Len();
    }
    var parsed := Absent;
    if header != "" {
      parsed := ParseRange(header, LIMIT_RANGE, len);
      if parsed.Invalid? {
        return Some(NotSatisfiable);
      }
    }
    if status != OK || parsed.Absent? {
      var body;
      match x {
        case Mem(m) => body := m.GetBytes();
        case OnDisk(d) =>
          var n, ok;
          body, n, ok := d.WriteTo();
      }
      return Some(Full(status, len, body));
    }
    var r := RespondWith(x, len, parsed.ranges[0]);
    return Some(r);
  }

  /** The range path. */
  method RespondWith(x: AnyItem, len: nat, first: HttpRange) returns (resp: Response)
    requires ItemValid(x) && HasHeaders(x, true) && len == |BodyOfItem(x)| > 0
    ensures resp == RespondRange(BodyOfItem(x), first)
  {
    var rg;
    match x {
      case Mem(m) => rg := m.ValidRange(first.start, first.length);
      case OnDisk(d) => rg := d.ValidRange(first.start, first.length);
    }
    if rg.WrongRange? {
      return NotSatisfiable;
    }
    RangeBounds(len, first.start, first.length);
    var body, n, ok;
    match x {
      case Mem(m) => body, n, ok := m.WriteToRange(rg.from, rg.to);
      case OnDisk(d) =>
        if rg.from <= rg.to {
          d.InBody(rg.from, rg.to);
        }
        body, n, ok := d.WriteToRange(rg.from, rg.to);
    }
    return Partial(rg.from, rg.to - 1, len, rg.length, body);
  }

  /** Both kinds of one content, asked for one range: they send the same, or both refuse, exactly if it is not empty. */
  method SendFromBoth(m: ItemMem, d: ItemDisk, from: int, to: int)
    returns (fromMem: Bytes, memOk: bool, fromDisk: Bytes, diskOk: bool)
    requires d.Valid() && d.file.r && m.Content() == d.Content() && 0 <= from && 0 <= to <= |m.Content()|
    ensures fromMem == fromDisk && memOk == diskOk <==> from != to
    ensures from < to ==> memOk && fromMem == m.Content()[from..to]
  {
    var n;
    fromMem, n, memOk := m.WriteToRange(from, to);
    if from <= to {
      d.InBody(from, to);
    }
    fromDisk, n, diskOk := d.WriteToRange(from, to);
  }
}
