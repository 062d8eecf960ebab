/**
 Printing and parsing Range headers.
 */
module RangeProofs {
  import opened Wrappers
  import opened Ranges

  // ---------- Printing ----------

  function Digit(d: nat): (c: char)
    requires d < 10
    ensures IsDigit(c) && DigitValue(c) == d
  {
    ('0' as int + d) as char
  }

  function Print(n: nat): (s: string)
    ensures Digits(s)
  {
    if n < 10 then [Digit(n)] else Print(n / 10) + [Digit(n % 10)]
  }

  /** The forms of one range: first-last, first-, and -suffix. */
  datatype Spec = FirstLast(a: nat, b: nat) | First(a: nat) | Suffix(n: nat)

  function PrintSpec(r: Spec): string {
    match r
    case FirstLast(a, b) => Print(a) + "-" + Print(b)
    case First(a) => Print(a) + "-"
    case Suffix(n) => "-" + Print(n)
  }

  function Join(ss: seq<string>, sep: char): string
    requires ss != []
  {
    if |ss| == 1 then ss[0] else ss[0] + [sep] + Join(ss[1..], sep)
  }

  function PrintSpecs(rs: seq<Spec>): (ss: seq<string>)
    ensures |ss| == |rs|
  {
    if rs == [] then [] else [PrintSpec(rs[0])] + PrintSpecs(rs[1..])
  }

  function PrintHeader(rs: seq<Spec>): string
    requires rs != []
  {
    PREFIX + Join(PrintSpecs(rs), ',')
  }

  /** What the parser takes a form for. */
  function Meaning(r: Spec, size: int): HttpRange {
    match r
    case FirstLast(a, b) => HttpRange(a, b)
    case First(a) => HttpRange(a, size)
    case Suffix(n) => HttpRange(0, n)
  }

  function Meanings(rs: seq<Spec>, size: int): seq<HttpRange> {
    if rs == [] then [] else [Meaning(rs[0], size)] + Meanings(rs[1..], size)
  }

  predicate Fits(r: Spec) {
    match r
    case FirstLast(a, b) => a <= MAX_INT64 && b <= MAX_INT64
    case First(a) => a <= MAX_INT64
    case Suffix(n) => n <= MAX_INT64
  }

  // ---------- Pieces ----------

  predicate Free(s: string, c: char) {
    forall i :: 0 <= i < |s| ==> s[i] != c
  }

  lemma {:induction false} SplitFree(s: string, sep: char)
    requires Free(s, sep)
    ensures Split(s, sep) == [s]
  {
    if s != "" {
      SplitFree(s[1..], sep);
      assert [s[0]] + s[1..] == s;
    }
  }

  lemma {:induction false} SplitFirst(s: string, sep: char, rest: string)
    requires Free(s, sep)
    ensures Split(s + [sep] + rest, sep) == [s] + Split(rest, sep)
  {
    var all := s + [sep] + rest;
    if s == "" {
      assert all[1..] == rest;
    } else {
      assert all[1..] == s[1..] + [sep] + rest;
      SplitFirst(s[1..], sep, rest);
      assert [s[0]] + s[1..] == s;
    }
  }

  lemma {:induction false} SplitJoin(ss: seq<string>, sep: char)
    requires ss != [] && forall s :: s in ss ==> Free(s, sep)
    ensures Split(Join(ss, sep), sep) == ss
  {
    if |ss| == 1 {
      SplitFree(ss[0], sep);
    } else {
      SplitJoin(ss[1..], sep);
      SplitFirst(ss[0], sep, Join(ss[1..], sep));
    }
  }

  lemma TrimNothing(s: string)
    requires s != "" && !IsSpace(s[0]) && !IsSpace(s[|s| - 1])
    ensures TrimSpace(s) == s
  {
  }

  lemma {:induction false} ValueAppend(s: string, c: char)
    requires Digits(s) && IsDigit(c)
    ensures Value(s + [c]) == 10 * Value(s) + DigitValue(c)
  {
    assert (s + [c])[..|s|] == s;
  }

  lemma {:induction false} ValuePrint(n: nat)
    ensures Value(Print(n)) == n
  {
    if n < 10 {
      assert [Digit(n)][..0] == "";
    } else {
      ValuePrint(n / 10);
      ValueAppend(Print(n / 10), Digit(n % 10));
    }
  }

  lemma ParsePrint(n: nat)
    requires n <= MAX_INT64
    ensures ParseInt(Print(n)) == Some(n)
  {
    ValuePrint(n);
    assert IsDigit(Print(n)[0]);
  }

  lemma ParseTooBig(n: nat)
    requires n > MAX_INT64
    ensures ParseInt(Print(n)) == None
  {
    ValuePrint(n);
    assert IsDigit(Print(n)[0]);
  }

  lemma SpecPieces(r: Spec)
    ensures Split(PrintSpec(r), '-') ==
            match r {
              case FirstLast(a, b) => [Print(a), Print(b)]
              case First(a) => [Print(a), ""]
              case Suffix(n) => ["", Print(n)]
            }
  {
    match r
    case FirstLast(a, b) =>
      SplitFirst(Print(a), '-', Print(b));
      SplitFree(Print(b), '-');
    case First(a) =>
      SplitFirst(Print(a), '-', "");
      assert PrintSpec(r) == Print(a) + "-" + "";
    case Suffix(n) =>
      SplitFirst("", '-', Print(n));
      assert PrintSpec(r) == "" + "-" + Print(n);
      SplitFree(Print(n), '-');
  }

  lemma SpecText(r: Spec)
    ensures var s := PrintSpec(r);
            s != "" && Free(s, ',') && TrimSpace(s) == s
  {
    TrimNothing(PrintSpec(r));
  }

  lemma ParseSpec(r: Spec, size: int)
    requires Fits(r) && size > 0
    ensures ParsePieces(Split(PrintSpec(r), '-'), 0, HttpRange(0, size)) == Some(Meaning(r, size))
  {
    SpecPieces(r);
    match r
    case FirstLast(a, b) =>
      ParsePrint(a);
      ParsePrint(b);
      assert ParsePieces([Print(a), Print(b)], 1, HttpRange(a, size)) == Some(HttpRange(a, b));
    case First(a) =>
      ParsePrint(a);
      assert ParsePieces([Print(a), ""], 1, HttpRange(a, size)) == Some(HttpRange(a, size));
    case Suffix(n) =>
      ParsePrint(n);
      assert ParsePieces(["", Print(n)], 1, HttpRange(0, size)) == Some(HttpRange(0, n));
  }

  /** A number that does not fit makes the form unreadable. */
  lemma ParseUnfit(r: Spec, size: int)
    requires !Fits(r)
    ensures ParsePieces(Split(PrintSpec(r), '-'), 0, HttpRange(0, size)) == None
  {
    SpecPieces(r);
    match r
    case FirstLast(a, b) =>
      if a > MAX_INT64 {
        ParseTooBig(a);
      } else {
        ParsePrint(a);
        ParseTooBig(b);
        assert ParsePieces([Print(a), Print(b)], 1, HttpRange(a, size)) == None;
      }
    case First(a) => ParseTooBig(a);
    case Suffix(n) =>
      ParseTooBig(n);
      assert ParsePieces(["", Print(n)], 1, HttpRange(0, size)) == None;
  }

  lemma {:induction false} ParseUnfits(rs: seq<Spec>, defsize: int, size: int)
    requires exists r :: r in rs && !Fits(r)
    ensures ParseParts(PrintSpecs(rs), defsize, size) == None
  {
    SpecText(rs[0]);
    assert PrintSpecs(rs)[1..] == PrintSpecs(rs[1..]);
    if !Fits(rs[0]) {
      ParseUnfit(rs[0], size);
    } else {
      assert rs == [rs[0]] + rs[1..];
      ParseUnfits(rs[1..], defsize, size);
    }
  }

  lemma {:induction false} ParseSpecs(rs: seq<Spec>, defsize: int, size: int)
    requires size > 0 && forall r :: r in rs ==> Fits(r)
    ensures ParseParts(PrintSpecs(rs), defsize, size) == Some(Meanings(rs, size))
  {
    if rs != [] {
      SpecText(rs[0]);
      ParseSpec(rs[0], size);
      ParseSpecs(rs[1..], defsize, size);
      assert PrintSpecs(rs)[1..] == PrintSpecs(rs[1..]);
    }
  }

  lemma {:induction false} SpecsFree(rs: seq<Spec>)
    ensures forall s :: s in PrintSpecs(rs) ==> Free(s, ',')
  {
    if rs != [] {
      SpecText(rs[0]);
      SpecsFree(rs[1..]);
    }
  }

  /** Parsing a printed header gives back its ranges, each in the sense the parser has for its form. */
  lemma RoundTrip(rs: seq<Spec>, defsize: int, size: int)
    requires rs != [] && size > 0 && forall r :: r in rs ==> Fits(r)
    ensures Parse(PrintHeader(rs), defsize, size) == Ranges(Meanings(rs, size))
  {
    SpecsFree(rs);
    SplitJoin(PrintSpecs(rs), ',');
    ParseSpecs(rs, defsize, size);
    var s := PrintHeader(rs);
    assert s[|PREFIX|..] == Join(PrintSpecs(rs), ',');
    assert s[..|PREFIX|] == PREFIX;
  }

  /** If one number of it does not fit in 63 bits, the whole header is refused. */
  lemma Refused(rs: seq<Spec>, defsize: int, size: int)
    requires rs != [] && size > 0 && exists r :: r in rs && !Fits(r)
    ensures Parse(PrintHeader(rs), defsize, size) == Invalid
  {
    SpecsFree(rs);
    SplitJoin(PrintSpecs(rs), ',');
    ParseUnfits(rs, defsize, size);
    var s := PrintHeader(rs);
    assert s[|PREFIX|..] == Join(PrintSpecs(rs), ',');
    assert s[..|PREFIX|] == PREFIX;
  }

  // ---------- Any header ----------

  lemma {:induction false} SplitWithout(s: string, sep: char)
    ensures forall p :: p in Split(s, sep) ==> Free(p, sep)
  {
    if s != "" {
      var rest := Split(s[1..], sep);
      SplitWithout(s[1..], sep);
      assert forall p :: p in rest[1..] ==> p in rest;
      assert rest[0] in rest;
    }
  }

  lemma ParseUnsigned(s: string)
    requires Free(s, '-') && ParseInt(s).Some?
    ensures 0 <= ParseInt(s).value <= MAX_INT64
  {
  }

  predicate InRange(r: HttpRange) {
    0 <= r.start <= MAX_INT64 && 0 <= r.length <= MAX_INT64
  }

  lemma {:induction false} PiecesInRange(pieces: seq<string>, i: nat, r: HttpRange)
    requires i <= |pieces| && InRange(r) && forall p :: p in pieces ==> Free(p, '-')
    ensures var o := ParsePieces(pieces, i, r);
            o.Some? ==> InRange(o.value)
    decreases |pieces| - i
  {
    if i < |pieces| {
      assert pieces[i] in pieces;
      if pieces[i] == "" {
        PiecesInRange(pieces, i + 1, r);
      } else if ParseInt(pieces[i]).Some? {
        var v := ParseInt(pieces[i]).value;
        ParseUnsigned(pieces[i]);
        PiecesInRange(pieces, i + 1, if i == 0 then r.(start := v) else r.(length := v));
      }
    }
  }

  lemma {:induction false} PartsInRange(parts: seq<string>, defsize: int, size: int)
    requires 0 < size <= MAX_INT64
    ensures var o := ParseParts(parts, defsize, size);
            o.Some? ==> forall r :: r in o.value ==> InRange(r)
  {
    if parts != [] {
      var ra := TrimSpace(parts[0]);
      PartsInRange(parts[1..], defsize, size);
      if ra != "" {
        SplitWithout(ra, '-');
        PiecesInRange(Split(ra, '-'), 0, HttpRange(0, size));
      }
    }
  }

  /**
   Whatever the header says, what the parser accepts is not empty and has no negative number. So
   neither its test for a negative start nor its default for a last position of -1 ever applies.
   */
  lemma ParsedInRange(s: string, defsize: int, size: int)
    requires 0 <= size <= MAX_INT64
    ensures var p := Parse(s, defsize, size);
            p.Ranges? ==> p.ranges != [] && forall r :: r in p.ranges ==> InRange(r)
    ensures Parse(s, defsize, size).Absent? <==> s == "" || size == 0
  {
    if s != "" && size != 0 && PREFIX <= s {
      PartsInRange(Split(s[|PREFIX|..], ','), defsize, size);
    }
  }
}
