/**
 The Range header: the parser of httpsrv/handler/utils.go, and what it makes of a printed header.
 */
module Ranges {
  import opened Wrappers

  const MAX_INT64: int := 0x7FFF_FFFF_FFFF_FFFF
  const PREFIX: string := "bytes="

  // ---------- Library functions ----------

  /** strings.Split by one character. */
  function Split(s: string, sep: char): (r: seq<string>)
    ensures r != []
  {
    if s == "" then [""]
    else
      var rest := Split(s[1..], sep);
      if s[0] == sep then [""] + rest else [[s[0]] + rest[0]] + rest[1..]
  }

  /** unicode.IsSpace. */
  predicate IsSpace(c: char) {
    var n := c as int;
    || 9 <= n <= 13 || n == 0x20 || n == 0x85 || n == 0xA0 || n == 0x1680
    || 0x2000 <= n <= 0x200A || n == 0x2028 || n == 0x2029 || n == 0x202F || n == 0x205F || n == 0x3000
  }

  function TrimLeft(s: string): string {
    if s != "" && IsSpace(s[0]) then TrimLeft(s[1..]) else s
  }

  function TrimRight(s: string): string {
    if s != "" && IsSpace(s[|s| - 1]) then TrimRight(s[..|s| - 1]) else s
  }

  function TrimSpace(s: string): string {
    TrimRight(TrimLeft(s))
  }

  predicate IsDigit(c: char) {
    '0' <= c <= '9'
  }

  predicate Digits(s: string) {
    s != "" && forall i :: 0 <= i < |s| ==> IsDigit(s[i])
  }

  function DigitValue(c: char): nat
    requires IsDigit(c)
  {
    c as int - '0' as int
  }

  function Value(s: string): nat
    requires forall i :: 0 <= i < |s| ==> IsDigit(s[i])
  {
    if s == "" then 0 else 10 * Value(s[..|s| - 1]) + DigitValue(s[|s| - 1])
  }

  /** strconv.ParseInt in base 10 and 64 bits: an optional sign, digits, and the range of an int64. */
  function ParseInt(s: string): Option<int> {
    var signed := s != "" && (s[0] == '+' || s[0] == '-');
    var digits := if signed then s[1..] else s;
    if !Digits(digits) then None
    else
      var v: int := if signed && s[0] == '-' then -1 * Value(digits) else Value(digits);
      if -MAX_INT64 - 1 <= v <= MAX_INT64 then Some(v) else None
  }

  // ---------- The parser ----------

  /** `length` is the last position, as the program uses it. */
  datatype HttpRange = HttpRange(start: int, length: int)

  datatype Parsed = Absent | Invalid | Ranges(ranges: seq<HttpRange>)

  /** The pieces of one range: the first is the start, a later one the last position. */
  function ParsePieces(pieces: seq<string>, i: nat, r: HttpRange): Option<HttpRange>
    requires i <= |pieces|
    decreases |pieces| - i
  {
    if i == |pieces| then Some(r)
    else if pieces[i] == "" then ParsePieces(pieces, i + 1, r)
    else
      match ParseInt(pieces[i])
      case None => None
      case Some(v) => ParsePieces(pieces, i + 1, if i == 0 then r.(start := v) else r.(length := v))
  }

  /** What a range that was read adds. */
  function Keep(r: HttpRange, defsize: int): seq<HttpRange> {
    if r.start < 0 then []
    else [if r.length == -1 then r.(length := r.start + defsize) else r]
  }

  function ParseParts(parts: seq<string>, defsize: int, size: int): Option<seq<HttpRange>> {
    if parts == [] then Some([])
    else
      var ra := TrimSpace(parts[0]);
      if ra == "" then ParseParts(parts[1..], defsize, size)
      else
        match ParsePieces(Split(ra, '-'), 0, HttpRange(0, size))
        case None => None
        case Some(r) => Prepend(Keep(r, defsize), ParseParts(parts[1..], defsize, size))
  }

  function Prepend(rs: seq<HttpRange>, rest: Option<seq<HttpRange>>): Option<seq<HttpRange>> {
    if rest.None? then None else Some(rs + rest.value)
  }

  lemma PrependTwice(a: seq<HttpRange>, b: seq<HttpRange>, rest: Option<seq<HttpRange>>)
    ensures Prepend(a, Prepend(b, rest)) == Prepend(a + b, rest)
    ensures Prepend([], rest) == rest
  {
    if rest.Some? {
      assert a + (b + rest.value) == a + b + rest.value;
      assert [] + rest.value == rest.value;
    }
  }

  function Parse(s: string, defsize: int, size: int): Parsed {
    if s == "" || size == 0 then Absent
    else if !(PREFIX <= s) then Invalid
    else
      match ParseParts(Split(s[|PREFIX|..], ','), defsize, size)
      case None => Invalid
      case Some(rs) => if rs == [] then Invalid else Ranges(rs)
  }

  /** The loops of parseRange. */
  method ParseRange(s: string, defsize: int, size: int) returns (p: Parsed)
    ensures p == Parse(s, defsize, size)
  {
    hide ParseInt, TrimSpace, Split;
    if s == "" || size == 0 {
      return Absent;
    }
    if !(PREFIX <= s) {
      return Invalid;
    }
    var ranges: seq<HttpRange> := [];
    var parts := Split(s[|PREFIX|..], ',');
    ghost var goal := ParseParts(parts, defsize, size);
    PrependTwice([], [], goal);
    for k := 0 to |parts|
      invariant goal == Prepend(ranges, ParseParts(parts[k..], defsize, size))
    {
      assert parts[k..][1..] == parts[k + 1..];
      ghost var rest := ParseParts(parts[k + 1..], defsize, size);
      var ra := TrimSpace(parts[k]);
      if ra == "" {
        continue;
      }
      var start, length := 0, size;
      var pieces := Split(ra, '-');
      ghost var one := ParsePieces(pieces, 0, HttpRange(0, size));
      for i := 0 to |pieces|
        invariant one == ParsePieces(pieces, i, HttpRange(start, length))
      {
        var pa := pieces[i];
        if |pa| == 0 {
          continue;
        }
        var v := ParseInt(pa);
        if v.None? {
          return Invalid;
        }
        if i == 0 {
          start := v.value;
        } else {
          length := v.value;
        }
      }
      PrependTwice(ranges, Keep(HttpRange(start, length), defsize), rest);
      if start >= 0 {
        if length == -1 {
          length := start + defsize;
        }
        ranges := ranges + [HttpRange(start, length)];
      } else {
        assert ranges + [] == ranges;
      }
    }
    if |ranges| == 0 {
      return Invalid;
    }
    return Ranges(ranges);
  }
}
