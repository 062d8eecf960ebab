/**
 The cache key of httpsrv/httplog/httplog.go, which is also the key requests are coalesced by.
 */
module CacheKey {
  import opened Ranges
  import opened RangeProofs

  /** What the key is made from. `scheme` is the URL's own, empty in a request to a server. */
  datatype Request = Request(
    device: nat,
    verb: string,
    tls: bool,
    scheme: string,
    host: string,
    path: string,
    query: string)

  function Schema(r: Request): string {
    if r.scheme != "" then "" else if r.tls then "https" else "http"
  }

  function Tail(r: Request): string {
    if r.query != "" then "?" + r.query else ""
  }

  function Url(r: Request): string {
    Schema(r) + "://" + r.host + r.path + Tail(r)
  }

  function Key(r: Request): string {
    Print(r.device) + r.verb + Url(r)
  }

  /** A GET or HEAD whose host has no slash and whose path starts with one. */
  predicate Formed(r: Request) {
    && (r.verb == "GET" || r.verb == "HEAD") && Free(r.host, '/') && r.path != "" && r.path[0] == '/'
  }

  /** And whose path has no question mark. */
  predicate Plain(r: Request) {
    Formed(r) && Free(r.path, '?')
  }

  /** The request line has a path only: the scheme is then that of the connection. */
  predicate OriginForm(r: Request) {
    r.scheme == ""
  }

  predicate AllOf(s: string, p: char -> bool) {
    forall i :: 0 <= i < |s| ==> p(s[i])
  }

  predicate StopsAt(s: string, p: char -> bool) {
    s == "" || !p(s[0])
  }

  lemma NothingOfKind(a: string, x: string, whole: string, p: char -> bool)
    requires AllOf(a, p) && StopsAt(whole, p) && a + x == whole
    ensures a == "" && x == whole
  {
    assert a <= whole;
    assert a == "";
  }

  /** A text splits in one way only into characters of a kind and a rest that does not start with one. */
  lemma {:induction false} OneSplit(a: string, x: string, b: string, y: string, p: char -> bool)
    requires AllOf(a, p) && AllOf(b, p) && StopsAt(x, p) && StopsAt(y, p) && a + x == b + y
    ensures a == b && x == y
  {
    if a == "" {
      NothingOfKind(b, y, x, p);
    } else if b == "" {
      NothingOfKind(a, x, y, p);
    } else {
      assert (a + x)[0] == a[0] && (b + y)[0] == b[0];
      assert (a + x)[1..] == a[1..] + x && (b + y)[1..] == b[1..] + y;
      OneSplit(a[1..], x, b[1..], y, p);
      assert a == [a[0]] + a[1..] && b == [b[0]] + b[1..];
    }
  }

  lemma SameAfter(a: string, x: string, y: string)
    requires a + x == a + y
    ensures x == y
  {
    assert (a + x)[|a|..] == x && (a + y)[|a|..] == y;
  }

  lemma NumberSplit(n: nat, x: string, m: nat, y: string)
    requires x != "" && !IsDigit(x[0]) && y != "" && !IsDigit(y[0]) && Print(n) + x == Print(m) + y
    ensures n == m && x == y
  {
    OneSplit(Print(n), x, Print(m), y, c => IsDigit(c));
    ValuePrint(n);
    ValuePrint(m);
  }

  lemma SameDevice(r: Request, q: Request)
    requires Formed(r) && Formed(q) && Key(r) == Key(q)
    ensures r.device == q.device && r.verb + Url(r) == q.verb + Url(q)
  {
    hide Url, Print;
    assert Key(r) == Print(r.device) + (r.verb + Url(r));
    assert Key(q) == Print(q.device) + (q.verb + Url(q));
    NumberSplit(r.device, r.verb + Url(r), q.device, q.verb + Url(q));
  }

  lemma SameVerb(r: Request, q: Request)
    requires Formed(r) && Formed(q) && r.verb + Url(r) == q.verb + Url(q)
    ensures r.verb == q.verb && Url(r) == Url(q)
  {
    assert (r.verb + Url(r))[0] == r.verb[0] && (q.verb + Url(q))[0] == q.verb[0];
    SameAfter(r.verb, Url(r), Url(q));
  }

  lemma SameTail(r: Request, q: Request)
    requires Plain(r) && Plain(q) && r.path + Tail(r) == q.path + Tail(q)
    ensures r.path == q.path && r.query == q.query
  {
    OneSplit(r.path, Tail(r), q.path, Tail(q), c => c != '?');
    if r.query != "" {
      SameAfter("?", r.query, q.query);
    }
  }

  lemma SameUrl(r: Request, q: Request)
    requires Formed(r) && Formed(q) && Url(r) == Url(q)
    ensures Schema(r) == Schema(q) && r.host == q.host && r.path + Tail(r) == q.path + Tail(q)
  {
    hide Tail;
    var x, y := r.path + Tail(r), q.path + Tail(q);
    assert Url(r) == Schema(r) + ("://" + (r.host + x)) && Url(q) == Schema(q) + ("://" + (q.host + y));
    OneSplit(Schema(r), "://" + (r.host + x), Schema(q), "://" + (q.host + y), c => c != ':');
    SameAfter("://", r.host + x, q.host + y);
    OneSplit(r.host, x, q.host, y, c => c != '/');
  }

  /**
   Two plain requests have one key exactly when they agree on device, method, host, path and query, and on what
   the key has for a scheme.
   */
  lemma KeyInjective(r: Request, q: Request)
    requires Plain(r) && Plain(q)
    ensures Key(r) == Key(q) <==>
            && r.device == q.device && r.verb == q.verb && Schema(r) == Schema(q)
            && r.host == q.host && r.path == q.path && r.query == q.query
  {
    if Key(r) == Key(q) {
      SameDevice(r, q);
      SameVerb(r, q);
      SameUrl(r, q);
      SameTail(r, q);
    }
  }

  /** The key has nothing for the scheme of an absolute URL: with any other, and over any connection, it is the same. */
  lemma AbsoluteCollides(r: Request, scheme: string, tls: bool)
    requires r.scheme != "" && scheme != ""
    ensures Key(r.(scheme := scheme, tls := tls)) == Key(r)
  {
    var q := r.(scheme := scheme, tls := tls);
    assert Url(q) == Url(r);
  }

  /** No other plain request has the key of r if and only if r's request line has a path only. */
  lemma UniqueIff(r: Request)
    requires Plain(r)
    ensures (forall q :: Plain(q) && Key(q) == Key(r) ==> q == r) <==> OriginForm(r)
  {
    if OriginForm(r) {
      forall q | Plain(q) && Key(q) == Key(r) ensures q == r {
        KeyInjective(q, r);
      }
    } else {
      AbsoluteCollides(r, r.scheme, !r.tls);
      assert Plain(r.(tls := !r.tls));
    }
  }

  // ---------- Question marks ----------

  /** A path is kept unescaped. So one that contains a question mark shares its key with a query. */
  lemma QuestionMarkCollides(r: Request, path: string, query: string)
    requires query != ""
    ensures Key(r.(path := path + "?" + query, query := "")) == Key(r.(path := path, query := query))
  {
    var a, b := r.(path := path + "?" + query, query := ""), r.(path := path, query := query);
    SameUrls(a, b);
  }

  lemma SameUrls(a: Request, b: Request)
    requires Schema(a) == Schema(b) && a.device == b.device && a.verb == b.verb
    requires a.host + a.path + Tail(a) == b.host + b.path + Tail(b)
    ensures Key(a) == Key(b)
  {
    assert Url(a) == Schema(a) + "://" + (a.host + a.path + Tail(a));
    assert Url(b) == Schema(b) + "://" + (b.host + b.path + Tail(b));
  }

  /** A question mark that something follows could as well start a query. */
  lemma InnerQuestionMark(r: Request, i: nat) returns (q: Request)
    requires Formed(r) && r.query == "" && i < |r.path| - 1 && r.path[i] == '?'
    ensures Formed(q) && q != r && Key(q) == Key(r)
  {
    q := r.(path := r.path[..i], query := r.path[i + 1..]);
    assert r.path == r.path[..i] + "?" + r.path[i + 1..];
    QuestionMarkCollides(r, r.path[..i], r.path[i + 1..]);
    assert q.path != r.path;
  }

  /** Origin form, no query, and no question mark in the path but as its last character. */
  predicate Alone(r: Request) {
    OriginForm(r) && r.query == "" && (r.path == "" || Free(r.path[..|r.path| - 1], '?'))
  }

  lemma AloneUnique(r: Request, q: Request)
    requires Formed(r) && Formed(q) && Alone(r) && Key(q) == Key(r)
    ensures q == r
  {
    SameDevice(q, r);
    SameVerb(q, r);
    SameUrl(q, r);
    assert q.path + Tail(q) == r.path;
    assert q.query != "" ==> q.path + "?" + q.query == r.path;
    InnerMark(q.path, q.query);
  }

  lemma InnerMark(path: string, query: string)
    ensures query != "" ==> var whole := path + "?" + query; !Free(whole[..|whole| - 1], '?')
  {
    var whole := path + "?" + query;
    assert query != "" ==> whole[..|whole| - 1][|path|] == '?';
  }

  /** Of requests with any path, those that share their key with no other. */
  lemma FormedUniqueIff(r: Request)
    requires Formed(r)
    ensures (forall q :: Formed(q) && Key(q) == Key(r) ==> q == r) <==> Alone(r)
  {
    if Alone(r) {
      forall q | Formed(q) && Key(q) == Key(r) ensures q == r {
        AloneUnique(r, q);
      }
    } else if !OriginForm(r) {
      AbsoluteCollides(r, r.scheme, !r.tls);
      assert Formed(r.(tls := !r.tls));
    } else if r.query != "" {
      QuestionMarkCollides(r, r.path, r.query);
      assert r == r.(path := r.path, query := r.query);
      assert Formed(r.(path := r.path + "?" + r.query, query := ""));
    } else {
      var i :| 0 <= i < |r.path| - 1 && r.path[..|r.path| - 1][i] == '?';
      var q := InnerQuestionMark(r, i);
    }
  }
}
