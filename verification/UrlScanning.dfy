/**
  How Parse cuts a text: where scheme, authority, path, query and fragment of a printed URL are
  found again.
 */
module UrlScanning {
  import opened Text
  import opened PathSegments
  import opened QueryMap
  import opened UrlModel

  predicate IsScheme(scheme: string) {
    scheme == "http" || scheme == "https"
  }

  /** The components hold no delimiter of a later part, but the host may hold a slash. */
  ghost predicate Legible(b: Parts) {
    IsScheme(b.scheme) && INT32_MIN <= b.port <= INT32_MAX &&
    ':' !in b.host && '?' !in b.host && '#' !in b.host &&
    Normal(b.path) && FreeOf(b.path, '/') && FreeOf(b.path, '?') && FreeOf(b.path, '#') &&
    QueryMap.Clean(b.query)
  }

  /** The encoded components hold no delimiter of the place they are printed in. */
  ghost predicate CleanParts(b: Parts) {
    Legible(b) && '/' !in b.host
  }

  lemma LowerOfScheme(scheme: string)
    requires IsScheme(scheme)
    ensures Lower(scheme) == scheme
  {
  }

  /** A word that lower-cases to a scheme is made of letters. */
  lemma WordIsPlain(word: string)
    requires IsScheme(Lower(word))
    ensures |word| == |Lower(word)|
    ensures forall x <- word :: 'a' <= LowerChar(x) <= 'z'
    ensures ':' !in word && '?' !in word && '#' !in word
  {
    forall i | 0 <= i < |word| ensures 'a' <= LowerChar(word[i]) <= 'z' {
      assert Lower(word)[i] == LowerChar(word[i]);
    }
  }

  lemma ScanScheme(word: string, sep: string, rest: string)
    requires IsScheme(Lower(word)) && |sep| == 3 && sep[0] == ':'
    ensures Find(word + sep + rest, ':') == |word|
    ensures (word + sep + rest)[..|word|] == word
  {
    WordIsPlain(word);
    Assoc(word, sep, rest);
    FindAfter(word, sep + rest, ':');
  }

  lemma EndAfter(front: string, tail: string)
    requires '?' !in front && '#' !in front
    ensures EndOfPath(front + tail) == |front| + EndOfPath(tail)
  {
    FindAfter(front, tail, '?');
    FindAfter(front, tail, '#');
  }

  lemma ScanHostPath(head: string, hp: string, tail: string)
    requires '?' !in head && '#' !in head && '?' !in hp
    requires tail == "" || tail[0] == '?' || (tail[0] == '#' && '?' !in tail)
    requires tail == "" || tail[0] == '#' ==> '#' !in hp
    ensures HostPath(head + hp + tail, |head|) == hp
  {
    var front := head + hp;
    FindAfter(front, tail, '?');
    if tail == "" || tail[0] == '#' {
      FindNone(tail, '?');
      FindAfter(front, tail, '#');
    }
    assert (front + tail)[..|front|] == front;
    assert (front + tail)[|head|..|front|] == front[|head|..] == hp;
  }

  /** How Parse cuts text that starts with a scheme word, three characters and then hp. */
  lemma Scan(word: string, sep: string, hp: string, tail: string)
    requires IsScheme(Lower(word)) && |sep| == 3 && sep[0] == ':' && '?' !in sep && '#' !in sep
    requires hp != "" && '?' !in hp
    requires tail == "" || tail[0] == '?' || (tail[0] == '#' && '?' !in tail)
    requires tail == "" || tail[0] == '#' ==> '#' !in hp
    ensures var t, scheme := word + sep + hp + tail, Lower(word);
      ParseTrimmed(t)
      == (Accepted, Parts(scheme, HostOf(hp), PortOf(scheme, hp), PathOf(hp), ReadQuery(QueryText(t)), FragmentText(t)))
  {
    Assoc(word + sep, hp, tail);
    ScanScheme(word, sep, hp + tail);
    WordIsPlain(word);
    ScanHostPath(word + sep, hp, tail);
  }

  function QueryEnd(t: string, q: nat, f: nat): nat {
    if q < f then f else |t|
  }

  lemma QueryTextIs(t: string, q: nat, f: nat)
    requires Find(t, '?') == q < |t| && Find(t, '#') == f
    ensures q < QueryEnd(t, q, f) <= |t| && QueryText(t) == t[q + 1..QueryEnd(t, q, f)]
  {
  }

  lemma QueryTextAfter(front: string, tail: string, t: string, q: nat, f: nat)
    requires t == front + tail && Find(tail, '?') == q < |tail| && Find(tail, '#') == f
    requires Find(t, '?') == |front| + q && Find(t, '#') == |front| + f
    ensures QueryText(t) == QueryText(tail)
  {
    var i, end := q + 1, QueryEnd(tail, q, f);
    QueryTextIs(tail, q, f);
    QueryTextIs(t, |front| + q, |front| + f);
    assert QueryEnd(t, |front| + q, |front| + f) == |front| + end;
    SliceAfter(front, tail, i, end);
  }

  lemma ScanQuery(front: string, tail: string)
    requires '?' !in front && '#' !in front
    ensures QueryText(front + tail) == QueryText(tail)
  {
    FindAfter(front, tail, '?');
    FindAfter(front, tail, '#');
    if Find(tail, '?') < |tail| {
      QueryTextAfter(front, tail, front + tail, Find(tail, '?'), Find(tail, '#'));
    }
  }

  lemma FragmentTextIs(t: string, f: nat)
    requires Find(t, '#') == f < |t|
    ensures FragmentText(t) == t[f + 1..|t|]
  {
  }

  lemma ScanFragment(front: string, tail: string)
    requires '#' !in front
    ensures FragmentText(front + tail) == FragmentText(tail)
  {
    var f := Find(tail, '#');
    FindAfter(front, tail, '#');
    if f < |tail| {
      FragmentTextIs(tail, f);
      FragmentTextIs(front + tail, |front| + f);
      SliceAfter(front, tail, f + 1, |tail|);
    }
  }

  lemma QueryOfTail(query: string, fragment: string)
    requires '#' !in query
    ensures QueryText("?" + query + FragmentPart(fragment)) == query
  {
    var q, f := "?" + query, FragmentPart(fragment);
    FindAfter(q, f, '#');
    assert (q + f)[0] == '?';
    assert (q + f)[1..|q|] == query;
  }

  lemma FragmentOfTail(query: string, fragment: string)
    requires '#' !in query
    ensures FragmentText(query + FragmentPart(fragment)) == fragment
  {
    var f := FragmentPart(fragment);
    FindAfter(query, f, '#');
    if f != "" {
      assert (query + f)[|query| + 1..] == fragment;
    }
  }

  lemma TailOfParts(m: Query, fragment: string)
    requires QueryMap.Clean(m)
    requires m == map[] ==> '?' !in fragment
    ensures ReadQuery(QueryText(QueryPart(m) + FragmentPart(fragment))) == m
    ensures FragmentText(QueryPart(m) + FragmentPart(fragment)) == fragment
  {
    PrintQueryFreeOfHash(m);
    FragmentOfTail(QueryPart(m), fragment);
    if m == map[] {
      var f := FragmentPart(fragment);
      assert QueryPart(m) + f == f;
      FindNone(f, '?');
    } else {
      QueryOfTail(PrintQuery(m), fragment);
      ReadOfPrint(m);
    }
  }

  lemma ScanHost(host: string, port: string, p: string)
    requires ':' !in host && '/' !in host && ':' !in port && '/' !in port && port != ""
    requires p == "" || p[0] == '/'
    ensures var hp := host + ":" + port + p;
      Find(hp, '/') == |host + ":" + port| && HostOf(hp) == host && PortText(hp) == port
  {
    var hp, a := host + ":" + port + p, host + ":" + port;
    assert hp == host + (":" + port + p);
    FindAfter(host, ":" + port + p, ':');
    FindAfter(a, p, '/');
    assert hp[..|host|] == host;
    assert hp[..|a|] == a && hp[|host| + 1..|a|] == a[|host| + 1..] == port;
  }

  /** Host and port are found again in front of a path. */
  lemma ScanAuthority(b: Parts, p: string)
    requires CleanParts(b)
    requires p == "" || p[0] == '/'
    ensures HostOf(Authority(b) + p) == b.host
    ensures PortOf(b.scheme, Authority(b) + p) == EffectivePort(b)
    ensures Find(Authority(b) + p, '/') == |Authority(b)|
    ensures '/' !in Authority(b) && '?' !in Authority(b) && '#' !in Authority(b)
  {
    var port := Decimal(EffectivePort(b));
    DecimalIsPlain(EffectivePort(b));
    AtoiOfDecimal(EffectivePort(b), "");
    assert port + "" == port;
    assert '/' !in port && '?' !in port && '#' !in port && ':' !in port;
    ScanHost(b.host, port, p);
  }

  lemma PrintStart(b: Parts)
    requires IsScheme(b.scheme)
    ensures |Print(b)| > 7 && !IsBlank(Print(b)[0])
    ensures TrimBlanks(Print(b)) == TrimBlanksRight(Print(b))
  {
    DecimalIsPlain(EffectivePort(b));
    TrimBlanksOfSolidStart(Print(b));
  }
}
