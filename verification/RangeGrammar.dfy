/**
 Exactly which Range headers the parser accepts, and what it takes them for.
 */
module RangeGrammar {
  import opened Wrappers
  import opened Ranges
  import opened RangeProofs

  // ---------- White space ----------

  predicate Blank(s: string) {
    forall i :: 0 <= i < |s| ==> IsSpace(s[i])
  }

  predicate Trimmed(s: string) {
    s != "" && !IsSpace(s[0]) && !IsSpace(s[|s| - 1])
  }

  lemma {:induction false} TrimLeftOf(s: string) returns (l: string)
    ensures Blank(l) && s == l + TrimLeft(s)
    ensures TrimLeft(s) != "" ==> !IsSpace(TrimLeft(s)[0])
  {
    l := "";
    if s != "" && IsSpace(s[0]) {
      var rest := TrimLeftOf(s[1..]);
      l := [s[0]] + rest;
      assert s == [s[0]] + s[1..];
    }
  }

  lemma {:induction false} TrimRightOf(s: string) returns (r: string)
    ensures Blank(r) && s == TrimRight(s) + r
    ensures TrimRight(s) != "" ==> !IsSpace(TrimRight(s)[|TrimRight(s)| - 1])
  {
    r := "";
    if s != "" && IsSpace(s[|s| - 1]) {
      var rest := TrimRightOf(s[..|s| - 1]);
      r := rest + [s[|s| - 1]];
      assert s == s[..|s| - 1] + [s[|s| - 1]];
    }
  }

  /** Trimming takes white space from both ends, and all of it. */
  lemma TrimOf(s: string) returns (l: string, r: string)
    ensures Blank(l) && Blank(r) && s == l + TrimSpace(s) + r && (TrimSpace(s) == "" || Trimmed(TrimSpace(s)))
  {
    l := TrimLeftOf(s);
    r := TrimRightOf(TrimLeft(s));
    var t := TrimSpace(s);
    assert TrimLeft(s) == t + r;
    assert s == l + t + r;
    assert t != "" ==> TrimLeft(s)[0] == t[0];
  }

  lemma {:induction false} TrimLeftIs(l: string, s: string)
    requires Blank(l) && (s == "" || !IsSpace(s[0]))
    ensures TrimLeft(l + s) == s
  {
    if l == "" {
      assert l + s == s;
    } else {
      assert (l + s)[1..] == l[1..] + s;
      TrimLeftIs(l[1..], s);
    }
  }

  lemma {:induction false} TrimRightIs(s: string, r: string)
    requires Blank(r) && (s == "" || !IsSpace(s[|s| - 1]))
    ensures TrimRight(s + r) == s
  {
    if r == "" {
      assert s + r == s;
    } else {
      assert (s + r)[..|s + r| - 1] == s + r[..|r| - 1];
      TrimRightIs(s, r[..|r| - 1]);
    }
  }

  lemma TrimIs(l: string, t: string, r: string)
    requires Blank(l) && Blank(r) && Trimmed(t)
    ensures TrimSpace(l + t + r) == t
  {
    assert l + t + r == l + (t + r);
    TrimLeftIs(l, t + r);
    TrimRightIs(t, r);
  }

  lemma TrimBlank(s: string)
    ensures TrimSpace(s) == "" <==> Blank(s)
  {
    var l, r := TrimOf(s);
    if Blank(s) {
      TrimLeftIs(s, "");
      assert s + "" == s;
    }
  }

  // ---------- Numbers ----------

  function Zeros(n: nat): (s: string)
    ensures |s| == n && forall i :: 0 <= i < n ==> s[i] == '0'
  {
    if n == 0 then "" else "0" + Zeros(n - 1)
  }

  function NumberText(plus: bool, zeros: nat, v: nat): string {
    (if plus then "+" else "") + (Zeros(zeros) + Print(v))
  }

  /** A number of 63 bits in decimal, with leading zeros or not, and with a plus sign or not. */
  ghost predicate Reads(s: string, v: int) {
    0 <= v <= MAX_INT64 && exists plus, zeros :: s == NumberText(plus, zeros, v)
  }

  lemma {:induction false} ValueZeros(zeros: nat, s: string)
    requires Digits(s)
    ensures Digits(Zeros(zeros) + s) && Value(Zeros(zeros) + s) == Value(s)
    decreases |s|
  {
    var all := Zeros(zeros) + s;
    assert all[..|all| - 1] == Zeros(zeros) + s[..|s| - 1];
    if |s| > 1 {
      ValueZeros(zeros, s[..|s| - 1]);
    } else {
      assert s[..0] == "" && Zeros(zeros) + "" == Zeros(zeros);
      NoValue(zeros);
    }
  }

  lemma {:induction false} NoValue(zeros: nat)
    ensures Value(Zeros(zeros)) == 0
  {
    if zeros > 0 {
      var s := Zeros(zeros);
      assert s[..zeros - 1] == Zeros(zeros - 1);
      NoValue(zeros - 1);
    }
  }

  lemma {:induction false} DigitsAre(s: string) returns (zeros: nat)
    requires Digits(s)
    ensures s == Zeros(zeros) + Print(Value(s))
  {
    zeros := 0;
    var n := |s| - 1;
    assert s == s[..n] + [s[n]];
    if n == 0 {
      assert Value(s[..0]) == 0;
      DigitText(s[n]);
    } else {
      var before := DigitsAre(s[..n]);
      zeros := OneDigitMore(before, Value(s[..n]), s[n]);
    }
  }

  lemma DigitText(c: char)
    requires IsDigit(c)
    ensures Print(DigitValue(c)) == [c] && Zeros(0) + [c] == [c]
  {
  }

  lemma OneDigitMore(zeros: nat, v: nat, c: char) returns (z: nat)
    requires IsDigit(c)
    ensures Zeros(zeros) + Print(v) + [c] == Zeros(z) + Print(10 * v + DigitValue(c))
  {
    DigitText(c);
    if v == 0 {
      assert Print(0) == "0" && Zeros(zeros) + "0" == Zeros(zeros + 1);
      z := zeros + 1;
    } else {
      assert Print(10 * v + DigitValue(c)) == Print(v) + [c];
      z := zeros;
    }
  }

  lemma ParseDigits(digits: string, plus: bool)
    requires Digits(digits)
    ensures var v := Value(digits);
            ParseInt((if plus then "+" else "") + digits) == if v <= MAX_INT64 then Some(v) else None
  {
    hide Value;
    var s := (if plus then "+" else "") + digits;
    if plus {
      assert s[1..] == digits;
    } else {
      assert s == digits && IsDigit(digits[0]);
    }
  }

  lemma ReadsParse(plus: bool, zeros: nat, v: nat)
    requires v <= MAX_INT64
    ensures ParseInt(NumberText(plus, zeros, v)) == Some(v)
  {
    hide ParseInt, Zeros, Value, Print;
    ValueZeros(zeros, Print(v));
    ValuePrint(v);
    ParseDigits(Zeros(zeros) + Print(v), plus);
  }

  lemma SignAndDigits(s: string) returns (plus: bool, digits: string)
    requires Free(s, '-') && ParseInt(s).Some?
    ensures Digits(digits) && s == (if plus then "+" else "") + digits
  {
    hide Value;
    plus := s[0] == '+';
    digits := if plus then s[1..] else s;
    assert plus ==> s == [s[0]] + s[1..];
  }

  lemma ParseReads(s: string)
    requires Free(s, '-') && ParseInt(s).Some?
    ensures Reads(s, ParseInt(s).value)
  {
    var plus, digits := SignAndDigits(s);
    hide ParseInt, Zeros, Value, Print, Digits;
    var zeros := DigitsAre(digits);
    ParseDigits(digits, plus);
    assert s == NumberText(plus, zeros, ParseInt(s).value);
  }

  /** Without a minus sign in it, a text is read as a number exactly if it is one. */
  lemma ParseIntIff(s: string, v: int)
    requires Free(s, '-')
    ensures ParseInt(s) == Some(v) <==> Reads(s, v)
  {
    if ParseInt(s) == Some(v) {
      ParseReads(s);
    }
    hide ParseInt;
    if Reads(s, v) {
      var plus, zeros :| s == NumberText(plus, zeros, v);
      ReadsParse(plus, zeros, v);
    }
  }

  // ---------- One range ----------

  predicate AllFree(ss: seq<string>, sep: char) {
    forall s :: s in ss ==> Free(s, sep)
  }

  /** The number at the last of the pieces that is not empty, the first piece aside; or the size, if there is none. */
  ghost predicate LastIs(pieces: seq<string>, size: int, v: int)
    requires pieces != []
  {
    var n := |pieces| - 1;
    if n == 0 then v == size
    else if pieces[n] != "" then Reads(pieces[n], v)
    else LastIs(pieces[..n], size, v)
  }

  ghost predicate EmptyOrNumber(p: string) {
    p == "" || exists v :: Reads(p, v)
  }

  /** Each piece is empty or a number. The first is the start, or zero; the last that is not empty, the end. */
  ghost predicate PiecesMean(pieces: seq<string>, size: int, r: HttpRange)
    requires pieces != []
  {
    && (forall p :: p in pieces ==> EmptyOrNumber(p))
    && (if pieces[0] == "" then r.start == 0 else Reads(pieces[0], r.start))
    && LastIs(pieces, size, r.length)
  }

  /** One piece more, at the end. */
  lemma {:induction false} PiecesEnd(pieces: seq<string>, p: string, i: nat, r: HttpRange)
    requires i <= |pieces|
    ensures ParsePieces(pieces + [p], i, r) ==
            match ParsePieces(pieces, i, r) {
              case None => None
              case Some(q) =>
                if p == "" then Some(q)
                else match ParseInt(p) {
                  case None => None
                  case Some(v) => Some(if |pieces| == 0 then q.(start := v) else q.(length := v))
                }
            }
    decreases |pieces| - i
  {
    hide ParseInt;
    var all := pieces + [p];
    if i == |pieces| {
      assert all[i] == p;
      assert forall q :: ParsePieces(all, i + 1, q) == Some(q);
    } else {
      assert all[i] == pieces[i];
      if pieces[i] == "" {
        PiecesEnd(pieces, p, i + 1, r);
      } else if ParseInt(pieces[i]).Some? {
        var v := ParseInt(pieces[i]).value;
        PiecesEnd(pieces, p, i + 1, if i == 0 then r.(start := v) else r.(length := v));
      }
    }
  }

  /** Whether the pieces are read, and where the range that they make ends. */
  lemma {:induction false} PiecesRead(pieces: seq<string>, size: int)
    requires pieces != [] && AllFree(pieces, '-')
    ensures var o := ParsePieces(pieces, 0, HttpRange(0, size));
            && (o.Some? <==> forall p :: p in pieces ==> EmptyOrNumber(p))
            && (o.Some? ==> PiecesMean(pieces, size, o.value))
    decreases |pieces|
  {
    var n := |pieces| - 1;
    var before, p := pieces[..n], pieces[n];
    assert pieces == before + [p] && p in pieces;
    PiecesEnd(before, p, 0, HttpRange(0, size));
    PieceRead(p);
    hide ParseInt, Reads;
    if n > 0 {
      assert before[0] == pieces[0];
      PiecesRead(before, size);
      hide ParsePieces;
    }
  }

  lemma PieceRead(p: string)
    requires Free(p, '-')
    ensures p != "" ==> (ParseInt(p).Some? <==> EmptyOrNumber(p))
    ensures forall v :: ParseInt(p) == Some(v) <==> Reads(p, v)
  {
    forall v ensures ParseInt(p) == Some(v) <==> Reads(p, v) {
      ParseIntIff(p, v);
    }
    hide ParseInt, Reads;
    if ParseInt(p).Some? {
      assert Reads(p, ParseInt(p).value);
    }
  }

  /** No text is two numbers. */
  lemma {:induction false} LastOnce(pieces: seq<string>, size: int, v: int, u: int)
    requires pieces != [] && AllFree(pieces, '-') && LastIs(pieces, size, v) && LastIs(pieces, size, u)
    ensures v == u
  {
    var n := |pieces| - 1;
    if n > 0 {
      assert pieces[n] in pieces;
      ParseIntIff(pieces[n], v);
      ParseIntIff(pieces[n], u);
      hide ParseInt, Reads;
      if pieces[n] == "" {
        LastOnce(pieces[..n], size, v, u);
      }
    }
  }

  lemma ParsePiecesIff(pieces: seq<string>, size: int, r: HttpRange)
    requires pieces != [] && AllFree(pieces, '-')
    ensures ParsePieces(pieces, 0, HttpRange(0, size)) == Some(r) <==> PiecesMean(pieces, size, r)
  {
    PiecesRead(pieces, size);
    if PiecesMean(pieces, size, r) {
      var q := ParsePieces(pieces, 0, HttpRange(0, size)).value;
      LastOnce(pieces, size, r.length, q.length);
      ParseIntIff(pieces[0], r.start);
      ParseIntIff(pieces[0], q.start);
    }
  }

  // ---------- The header ----------

  lemma {:induction false} JoinSplit(s: string, sep: char)
    ensures Join(Split(s, sep), sep) == s
  {
    if s != "" {
      var rest := Split(s[1..], sep);
      JoinSplit(s[1..], sep);
      assert s == [s[0]] + s[1..];
      if s[0] == sep {
        assert ([""] + rest)[1..] == rest && Join([""] + rest, sep) == "" + [sep] + s[1..];
      } else {
        JoinFirst(s[0], rest, sep);
      }
    }
  }

  lemma JoinFirst(c: char, rest: seq<string>, sep: char)
    requires rest != []
    ensures Join([[c] + rest[0]] + rest[1..], sep) == [c] + Join(rest, sep)
  {
    var longer := [[c] + rest[0]] + rest[1..];
    assert longer[1..] == rest[1..];
    if |rest| > 1 {
      assert [c] + rest[0] + [sep] + Join(rest[1..], sep) == [c] + (rest[0] + [sep] + Join(rest[1..], sep));
    }
  }

  /** A part is its pieces, with minus signs between them and white space around them. */
  predicate PartText(part: string, l: string, pieces: seq<string>, r: string) {
    && Blank(l) && Blank(r) && pieces != [] && AllFree(pieces, '-') && Trimmed(Join(pieces, '-'))
    && part == l + Join(pieces, '-') + r
  }

  ghost predicate PartMeans(part: string, size: int, h: HttpRange) {
    exists l, pieces, r :: PartText(part, l, pieces, r) && PiecesMean(pieces, size, h)
  }

  /** The ranges of the parts that are not blank, in order. */
  ghost predicate PartsMean(parts: seq<string>, size: int, rs: seq<HttpRange>) {
    if parts == [] then rs == []
    else if Blank(parts[0]) then PartsMean(parts[1..], size, rs)
    else rs != [] && PartMeans(parts[0], size, rs[0]) && PartsMean(parts[1..], size, rs[1..])
  }

  lemma PartIff(part: string, size: int, h: HttpRange)
    requires !Blank(part)
    ensures ParsePieces(Split(TrimSpace(part), '-'), 0, HttpRange(0, size)) == Some(h) <==> PartMeans(part, size, h)
  {
    var t := TrimSpace(part);
    var l, r := TrimOf(part);
    TrimBlank(part);
    JoinSplit(t, '-');
    SplitWithout(t, '-');
    ParsePiecesIff(Split(t, '-'), size, h);
    assert PartText(part, l, Split(t, '-'), r);
    hide PiecesMean, ParsePieces, TrimSpace, Split, Join, Blank, Trimmed;
    if PartMeans(part, size, h) {
      var l0, pieces, r0 :| PartText(part, l0, pieces, r0) && PiecesMean(pieces, size, h);
      TrimIs(l0, Join(pieces, '-'), r0);
      SplitJoin(pieces, '-');
    }
  }

  lemma {:induction false} EndsInRange(pieces: seq<string>, size: int, v: int)
    requires pieces != [] && 0 <= size <= MAX_INT64 && LastIs(pieces, size, v)
    ensures 0 <= v <= MAX_INT64
  {
    if |pieces| > 1 && pieces[|pieces| - 1] == "" {
      EndsInRange(pieces[..|pieces| - 1], size, v);
    }
  }

  lemma PartKept(part: string, size: int, h: HttpRange, defsize: int)
    requires PartMeans(part, size, h) && 0 <= size <= MAX_INT64
    ensures Keep(h, defsize) == [h]
  {
    var l, pieces, r :| PartText(part, l, pieces, r) && PiecesMean(pieces, size, h);
    EndsInRange(pieces, size, h.length);
  }

  lemma {:induction false} ParsePartsIff(parts: seq<string>, defsize: int, size: int, rs: seq<HttpRange>)
    requires 0 <= size <= MAX_INT64
    ensures ParseParts(parts, defsize, size) == Some(rs) <==> PartsMean(parts, size, rs)
    decreases |parts|
  {
    if parts != [] {
      TrimBlank(parts[0]);
      hide ParsePieces, TrimSpace, Split, Blank, PartMeans, Keep;
      if Blank(parts[0]) {
        ParsePartsIff(parts[1..], defsize, size, rs);
      } else {
        FirstPart(parts, defsize, size, rs);
      }
    }
  }

  lemma {:induction false} FirstPart(parts: seq<string>, defsize: int, size: int, rs: seq<HttpRange>)
    requires 0 <= size <= MAX_INT64 && parts != [] && !Blank(parts[0]) && TrimSpace(parts[0]) != ""
    ensures ParseParts(parts, defsize, size) == Some(rs) <==> PartsMean(parts, size, rs)
    decreases |parts|, 0
  {
    var one := ParsePieces(Split(TrimSpace(parts[0]), '-'), 0, HttpRange(0, size));
    hide ParsePieces, TrimSpace, Split, Blank, PartMeans, Keep;
    if one.Some? {
      PartIff(parts[0], size, one.value);
      PartKept(parts[0], size, one.value, defsize);
    }
    if rs != [] {
      PartIff(parts[0], size, rs[0]);
      ParsePartsIff(parts[1..], defsize, size, rs[1..]);
      assert rs == [rs[0]] + rs[1..];
    }
  }

  /** A header is its parts, with commas between them. */
  predicate HeaderText(s: string, parts: seq<string>) {
    parts != [] && AllFree(parts, ',') && s == "bytes=" + Join(parts, ',')
  }

  /**
   Every header, well printed or not: the parser accepts exactly those that are made of parts, white space apart, of
   numbers and minus signs, and takes the first number of a part for the start and the last for the end. It refuses
   all others.
   */
  lemma ParseIff(s: string, defsize: int, size: int, rs: seq<HttpRange>)
    requires s != "" && 0 < size <= MAX_INT64
    ensures !Parse(s, defsize, size).Absent?
    ensures Parse(s, defsize, size) == Ranges(rs) <==>
            rs != [] && exists parts :: HeaderText(s, parts) && PartsMean(parts, size, rs)
  {
    if PREFIX <= s {
      var parts := Split(s[|PREFIX|..], ',');
      JoinSplit(s[|PREFIX|..], ',');
      SplitWithout(s[|PREFIX|..], ',');
      assert HeaderText(s, parts);
      ParsePartsIff(parts, defsize, size, rs);
    }
    if others :| HeaderText(s, others) && PartsMean(others, size, rs) {
      SplitJoin(others, ',');
      assert s[|PREFIX|..] == Join(others, ',') && s[..|PREFIX|] == PREFIX;
    }
  }
}
