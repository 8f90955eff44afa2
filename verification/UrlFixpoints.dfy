/**
  Texts that parsing and printing leave alone: exactly the printed forms of lasting parts, each of which
  is the printed form of one state only.
 */
module UrlFixpoints {
  import opened Text
  import opened PathSegments
  import opened QueryMap
  import opened UrlModel
  import opened UrlScanning
  import opened UrlTheorems
  import opened UrlParsed
  import opened UrlSlashHost
  import opened UrlCanonical

  // ---------------------------------------------------------------- printing tells states apart

  lemma FirstDelimiter(x: string, f: string, y: string, g: string, c: char)
    requires c !in x && c !in y && x + f == y + g
    requires (f == "" || f[0] == c) && (g == "" || g[0] == c)
    ensures x == y && f == g
  {
    FindAfter(x, f, c);
    FindAfter(y, g, c);
    assert x == (x + f)[..|x|] && y == (y + g)[..|y|];
    assert f == (x + f)[|x|..] && g == (y + g)[|y|..];
  }

  lemma SameQueryPart(m: Query, n: Query)
    requires QueryMap.Clean(m) && QueryMap.Clean(n) && QueryPart(m) == QueryPart(n)
    ensures m == n
  {
    if m != map[] && n != map[] {
      assert PrintQuery(m) == QueryPart(m)[1..] == QueryPart(n)[1..] == PrintQuery(n);
      ReadOfPrint(m);
      ReadOfPrint(n);
    }
  }

  lemma SameFragmentPart(f: string, g: string)
    requires FragmentPart(f) == FragmentPart(g)
    ensures f == g
  {
    if f != "" && g != "" {
      assert f == FragmentPart(f)[1..] && g == FragmentPart(g)[1..];
    }
  }

  lemma PathAndQueryFree(b: Parts)
    requires Legible(b)
    ensures '?' !in PrintPath(b.path) && '#' !in PrintPath(b.path) + QueryPart(b.query)
  {
    PrintPathFreeOf(b.path, '?');
    PrintPathFreeOf(b.path, '#');
    QueryPartFreeOfHash(b.query);
  }

  /** Behind the authority, path, query and fragment are told apart by their delimiters. */
  lemma BodyIsInjective(a: Parts, b: Parts)
    requires Legible(a) && Legible(b) && PrintPath(a.path) + Tail(a) == PrintPath(b.path) + Tail(b)
    ensures a.path == b.path && a.query == b.query && a.fragment == b.fragment
  {
    PathAndQueryFree(a);
    PathAndQueryFree(b);
    Assoc(PrintPath(a.path), QueryPart(a.query), FragmentPart(a.fragment));
    Assoc(PrintPath(b.path), QueryPart(b.query), FragmentPart(b.fragment));
    FirstDelimiter(PrintPath(a.path) + QueryPart(a.query), FragmentPart(a.fragment),
                   PrintPath(b.path) + QueryPart(b.query), FragmentPart(b.fragment), '#');
    FirstDelimiter(PrintPath(a.path), QueryPart(a.query), PrintPath(b.path), QueryPart(b.query), '?');
    PrintPathIsInjective(a.path, b.path);
    SameQueryPart(a.query, b.query);
    SameFragmentPart(a.fragment, b.fragment);
  }

  lemma BodyStart(b: Parts)
    ensures var w := PrintPath(b.path) + Tail(b); w == "" || w[0] == '/' || w[0] == '?' || w[0] == '#'
  {
  }

  lemma SamePort(p: int, v: string, q: int, w: string)
    requires INT32_MIN <= p <= INT32_MAX && INT32_MIN <= q <= INT32_MAX
    requires (v == "" || !IsDigit(v[0])) && (w == "" || !IsDigit(w[0])) && Decimal(p) + v == Decimal(q) + w
    ensures p == q && v == w
  {
    AtoiOfDecimal(p, v);
    AtoiOfDecimal(q, w);
    assert v == (Decimal(p) + v)[|Decimal(p)|..] && w == (Decimal(q) + w)[|Decimal(p)|..];
  }

  lemma SameAuthority(a: Parts, v: string, b: Parts, w: string)
    requires ':' !in a.host && ':' !in b.host && IsScheme(a.scheme) && IsScheme(b.scheme)
    requires INT32_MIN <= a.port <= INT32_MAX && INT32_MIN <= b.port <= INT32_MAX
    requires (v == "" || !IsDigit(v[0])) && (w == "" || !IsDigit(w[0]))
    requires Authority(a) + v == Authority(b) + w
    ensures a.host == b.host && EffectivePort(a) == EffectivePort(b) && v == w
  {
    var p, q := Decimal(EffectivePort(a)), Decimal(EffectivePort(b));
    assert Authority(a) + v == a.host + (":" + (p + v)) && Authority(b) + w == b.host + (":" + (q + w));
    FirstDelimiter(a.host, ":" + (p + v), b.host, ":" + (q + w), ':');
    assert p + v == (":" + (p + v))[1..] && q + w == (":" + (q + w))[1..];
    SamePort(EffectivePort(a), v, EffectivePort(b), w);
  }

  lemma PrintInPieces(b: Parts)
    ensures Print(b) == b.scheme + ("://" + (Authority(b) + (PrintPath(b.path) + Tail(b))))
  {
    Assoc(Authority(b), PrintPath(b.path), Tail(b));
    Assoc(b.scheme + "://", Authority(b) + PrintPath(b.path), Tail(b));
    Assoc(b.scheme, "://", Authority(b) + (PrintPath(b.path) + Tail(b)));
  }

  /** Legible states with the same printed form are the same, up to a default port made explicit. */
  lemma PrintIsInjective(a: Parts, b: Parts)
    requires Legible(a) && Legible(b) && Print(a) == Print(b)
    ensures Normalized(a) == Normalized(b)
  {
    var v, w := PrintPath(a.path) + Tail(a), PrintPath(b.path) + Tail(b);
    PrintInPieces(a);
    PrintInPieces(b);
    LowerOfScheme(a.scheme);
    LowerOfScheme(b.scheme);
    WordIsPlain(a.scheme);
    WordIsPlain(b.scheme);
    FirstDelimiter(a.scheme, "://" + (Authority(a) + v), b.scheme, "://" + (Authority(b) + w), ':');
    assert Authority(a) + v == ("://" + (Authority(a) + v))[3..];
    assert Authority(b) + w == ("://" + (Authority(b) + w))[3..];
    BodyStart(a);
    BodyStart(b);
    SameAuthority(a, v, b, w);
    BodyIsInjective(a, b);
  }

  // ---------------------------------------------------------------- host and port come back

  lemma AuthorityBefore(b: Parts, more: string)
    requires Legible(b) && (more == "" || more[0] == '/' || more[0] == '#')
    ensures HostOf(Authority(b) + more) == b.host && PortOf(b.scheme, Authority(b) + more) == EffectivePort(b)
  {
    if '/' in b.host {
      SlashAuthority(b, more);
    } else if more == "" || more[0] == '/' {
      ScanAuthority(b, more);
    } else {
      ScanAuthorityBeforeHash(b, more);
    }
  }

  lemma EndBeforeQuestionMark(y: string)
    ensures y != "" && y[0] == '?' ==> EndOfPath(y) == 0
  {
  }

  lemma HostPathOfRead(head: string, a: string, y: string)
    requires '?' !in head && '#' !in head && '?' !in a && '#' !in a
    ensures HostPath(head + (a + y), |head|) == a + y[..EndOfPath(y)]
  {
    var end := EndOfPath(y);
    Assoc(head, a, y);
    EndAfter(head + a, y);
    assert (head + a + y)[|head|..|head + a| + end] == a + y[..end];
  }

  lemma BodyBeforeEnd(b: Parts)
    ensures var y := TrimBlanksRight(PrintPath(b.path) + Tail(b));
      var more := y[..EndOfPath(y)]; more == "" || more[0] == '/' || more[0] == '#'
  {
    var w := PrintPath(b.path) + Tail(b);
    TrimBlanksRightPrefix(w);
    BodyStart(b);
    EndBeforeQuestionMark(TrimBlanksRight(w));
  }

  lemma PlainAuthorityText(b: Parts)
    requires Legible(b)
    ensures '?' !in Authority(b) && '#' !in Authority(b) && Authority(b) != ""
  {
    DecimalIsPlain(EffectivePort(b));
  }

  lemma ReadBodyIs(scheme: string, t: string, hp: string)
    requires |scheme| + 3 <= |t| && HostPath(t, |scheme| + 3) == hp && hp != ""
    ensures ParseBody(scheme, t) == (Accepted, Assemble(scheme, hp, t))
  {
  }

  /** In the printed form of a legible state host and port are read back whatever follows them. */
  lemma AuthorityComesBack(before: Parts, b: Parts)
    requires Legible(b)
    ensures var (outcome, r) := Parse(before, Print(b));
      outcome == Accepted && r.scheme == b.scheme && r.host == b.host && r.port == EffectivePort(b)
  {
    var head, y := b.scheme + "://", TrimBlanksRight(PrintPath(b.path) + Tail(b));
    var hp := Authority(b) + y[..EndOfPath(y)];
    PrintedIsRead(before, b);
    PlainHead(b.scheme);
    PlainAuthorityText(b);
    HostPathOfRead(head, Authority(b), y);
    ReadBodyIs(b.scheme, head + ReadText(b), hp);
    BodyBeforeEnd(b);
    AuthorityBefore(b, y[..EndOfPath(y)]);
  }

  // ---------------------------------------------------------------- fixpoints

  /** Parsing accepts the text, and printing what it read gives it again. */
  ghost predicate IsFixpoint(before: Parts, text: string) {
    var (outcome, r) := Parse(before, text);
    outcome == Accepted && Print(r) == text
  }

  lemma LastingIsFixpoint(before: Parts, r: Parts)
    requires Lasting(r)
    ensures IsFixpoint(before, Print(r))
  {
    LegibleLasts(before, r);
    PrintNormalized(r);
  }

  /** What is read off a fixpoint is lasting. */
  lemma FixpointIsLasting(before: Parts, text: string)
    requires IsFixpoint(before, text)
    ensures Lasting(Parse(before, text).1)
  {
    var r := Parse(before, text).1;
    AcceptedIsParsed(before, text);
    LegibleIsFree(r);
    assert ComesBack(before, r);
    if !FrontFree(r, '?') {
      QuestionMarkFails(before, r);
    } else if !Legible(r) {
      HashFails(before, r);
    } else {
      AuthorityComesBack(before, r);
      assert r == Normalized(r);
      LegibleLasts(before, r);
    }
  }

  /** The texts that parsing and printing leave alone are the printed forms of lasting parts. */
  lemma FixpointsExactly(before: Parts, text: string)
    ensures IsFixpoint(before, text) <==> exists r :: Lasting(r) && Print(r) == text
  {
    if IsFixpoint(before, text) {
      FixpointIsLasting(before, text);
    }
    if r :| Lasting(r) && Print(r) == text {
      LastingIsFixpoint(before, r);
    }
  }

  /** For legible parts it comes to the same whether the text stays or the parts do. */
  lemma LegibleFixpointsExactly(before: Parts, b: Parts)
    requires Legible(b)
    ensures IsFixpoint(before, Print(b)) <==> Lasting(b)
  {
    if IsFixpoint(before, Print(b)) {
      var r := Parse(before, Print(b)).1;
      FixpointIsLasting(before, Print(b));
      PrintIsInjective(r, b);
      AuthorityComesBack(before, b);
      assert r == Normalized(b);
      LegibleLasts(before, b);
    }
    if Lasting(b) {
      LastingIsFixpoint(before, b);
    }
  }

  // ---------------------------------------------------------------- a fixpoint of the text alone

  function OnePair(name: string, value: string): Query {
    map[name := {value}]
  }

  lemma ReadOne(name: string, value: string)
    requires name != "" && '=' !in name && '&' !in name && '&' !in value
    ensures ReadQuery(Param(name, value)) == OnePair(name, value)
  {
    var p := Param(name, value);
    TokensOfPiece(p, '&');
    ParamParts(name, value);
    assert ValuesOf(map[], name) + {value} == {value};
    assert Add(map[], name, value) == OnePair(name, value);
    assert AddAll(map[], [p]) == AddAll(Add(map[], name, value), [p][1..]);
    assert p != "";
  }

  lemma {:induction false} AscendingOne(x: string)
    ensures Ascending({x}) == [x]
  {
    assert Ascending({x})[0] in {x};
  }

  lemma PrintOne(name: string, value: string)
    requires name != ""
    ensures PrintQuery(OnePair(name, value)) == Param(name, value)
  {
    var m := OnePair(name, value);
    AscendingOne(name);
    AscendingOne(value);
    assert m.Keys == {name} && ValuesOf(m, name) == {value};
    assert EntriesOf(m) == [(name, [value])];
    assert PrintEntries([(name, [value])], 0, 1) == PrintValues(name, [value]) + "" + PrintEntries([], 1, 1);
    assert PrintValues(name, [value]) == name + "=" + value + "" + "";
  }

  /** One '#' more in the query, and the text behind it at the end of the fragment or not: the same text. */
  lemma SamePrint(a: Parts, b: Parts, name: string, value: string, more: string)
    requires name != "" && a.fragment != "" && a.query == OnePair(name, value + "#" + more)
    requires b == a.(query := OnePair(name, value), fragment := more + "#" + a.fragment)
    ensures Print(a) == Print(b)
  {
    PrintOne(name, value + "#" + more);
    PrintOne(name, value);
    SameTail("?" + (name + "=" + value), more, a.fragment);
    assert "?" + Param(name, value + "#" + more) == "?" + (name + "=" + value) + ("#" + more);
  }

  lemma SameTail(front: string, more: string, rest: string)
    ensures front + ("#" + more) + ("#" + rest) == front + ("#" + (more + "#" + rest))
  {
    Assoc("#", more, "#" + rest);
    Assoc(front, "#" + more, "#" + rest);
    Assoc(more, "#", rest);
  }

  lemma StrayPathIsName(c: Parts, f0: string, x: string, p: string)
    requires c.path == [] && '/' !in x && '/' !in p && f0 == x + "/" + p
    ensures StrayPath(c, f0) == Push([], p)
  {
    FindAfter(x, "/" + p, '/');
    assert f0 == x + ("/" + p) && f0[|x| + 1..] == p;
    AddSegmentsOfPiece([], p);
  }

  lemma QueryStays(n: string, v: string, w: string)
    requires EndsSolid(w)
    ensures TrimBlanksRight(Param(n, v + "#" + w)) == Param(n, v + "#" + w)
  {
    EndsSolidAfter(n + "=" + v + "#", w);
    assert Param(n, v + "#" + w) == n + "=" + v + "#" + w;
    SolidStays(Param(n, v + "#" + w));
  }

  lemma ReadUntrimmed(before: Parts, c: Parts, f0: string, f1: string)
    requires CleanParts(c) && c.query == map[] && c.fragment == f0 + "?" + f1 && '?' !in f0
    requires TrimBlanksRight(f1) == f1
    ensures Parse(before, Print(c))
         == (Accepted, Parts(c.scheme, c.host, EffectivePort(c), StrayPath(c, f0), ReadQuery(f1), c.fragment))
  {
    ParseStray(c, f0, f1);
    PrintStart(c);
  }

  /** The parts read off such a text as "http://host:8#x/p?n=v#w". */
  lemma ReadWithHash(before: Parts, c: Parts, f0: string, f1: string, x: string, p: string,
                     n: string, v: string, w: string)
    requires CleanParts(c) && c.path == [] && c.query == map[] && c.fragment == f0 + "?" + f1
    requires f0 == x + "/" + p && '/' !in x && '?' !in x && IsName(p) && '/' !in p && '?' !in p
    requires f1 == Param(n, v + "#" + w)
    requires n != "" && '=' !in n && '&' !in n && '&' !in v && '&' !in w && EndsSolid(w)
    ensures Parse(before, Print(c))
         == (Accepted, Parts(c.scheme, c.host, EffectivePort(c), [p], OnePair(n, v + "#" + w), c.fragment))
  {
    StrayPathIsName(c, f0, x, p);
    QueryStays(n, v, w);
    ReadUntrimmed(before, c, f0, f1);
    ReadOne(n, v + "#" + w);
    assert Push([], p) == [p];
  }

  /**
    The text alone can be a fixpoint: a '#' in the query, which is read as the start of the fragment, and
    a fragment that says the rest again. "http://h:8#x/p?n=v#w" is read so.
   */
  lemma TextAloneStays(before: Parts, c: Parts, f0: string, f1: string, x: string, p: string,
                       n: string, v: string, w: string)
    requires CleanParts(c) && c.path == [] && c.query == map[] && c.fragment == f0 + "?" + f1
    requires f0 == x + "/" + p && '/' !in x && '?' !in x && IsName(p) && '/' !in p && '?' !in p && '#' !in p
    requires f1 == Param(n, v + "#" + w) && '#' !in n && '#' !in v
    requires n != "" && '=' !in n && '&' !in n && '&' !in v && '&' !in w && EndsSolid(w)
    ensures var (outcome, b) := Parse(before, Print(c));
      outcome == Accepted && !IsCanonical(before, b) && IsFixpoint(before, Print(b))
  {
    var b := Parts(c.scheme, c.host, EffectivePort(c), [p], OnePair(n, v + "#" + w), c.fragment);
    var r := b.(query := OnePair(n, v), fragment := w + "#" + b.fragment);
    ReadWithHash(before, c, f0, f1, x, p, n, v, w);
    SamePrint(b, r, n, v, w);
    EndsWithRest(c.fragment, f0 + "?", n, v, w);
    EndsSolidAfter(w + "#", c.fragment);
    SimpleLasts(r, p, n, v);
    LastingIsFixpoint(before, r);
    assert Has(b.query, n, v + "#" + w) && (v + "#" + w)[|v|] == '#';
    AcceptedIsParsed(before, Print(c));
    CanonicalComesBack(before, b);
    HashFails(before, b);
  }

  lemma EndsWithRest(fragment: string, front: string, n: string, v: string, w: string)
    requires fragment == front + Param(n, v + "#" + w) && EndsSolid(w)
    ensures EndsSolid(fragment)
  {
    assert fragment == front + n + "=" + v + "#" + w;
    EndsSolidAfter(front + n + "=" + v + "#", w);
  }

  lemma SimpleLasts(r: Parts, p: string, n: string, v: string)
    requires IsScheme(r.scheme) && INT32_MIN <= r.port <= INT32_MAX && r.path == [p] && r.query == OnePair(n, v)
    requires ':' !in r.host && '/' !in r.host && '?' !in r.host && '#' !in r.host
    requires IsName(p) && '/' !in p && '?' !in p && '#' !in p
    requires n != "" && '=' !in n && '&' !in n && '#' !in n && '&' !in v && '#' !in v && EndsSolid(r.fragment)
    ensures Lasting(r)
  {
    EndOfFragment(r);
    assert n in r.query && QueryMap.Clean(r.query);
    assert Legible(r) && Survives(r);
  }
}
