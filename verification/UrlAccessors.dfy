/**
  EncodedPath and EncodedQuery read the printed URL again: when they give the parts that were printed.
 */
module UrlAccessors {
  import opened Text
  import opened PathSegments
  import opened QueryMap
  import opened UrlModel
  import opened UrlScanning
  import opened UrlTheorems
  import opened UrlParsed
  import opened UrlFixpoints

  lemma EndOfTail(b: Parts)
    ensures EndOfPath(Tail(b)) == 0 <==> NoStrayQuestionMark(b)
  {
    var tail := Tail(b);
    FindNone(tail, '?');
    if NoStrayQuestionMark(b) {
      TailStart(b);
    } else {
      assert tail == "#" + b.fragment && '?' in tail;
    }
  }

  /** Where EncodedPath stops. */
  lemma PathEnd(b: Parts)
    requires CleanParts(b)
    ensures EndOfPath(Print(b)) >= |Front(b)|
    ensures EndOfPath(Print(b)) == |Front(b)| <==> NoStrayQuestionMark(b)
  {
    PrintFromFront(b);
    EndAfter(Front(b), Tail(b));
    EndOfTail(b);
  }

  lemma SlashOfPath(b: Parts)
    requires CleanParts(b) && b.path != []
    ensures |b.scheme| + 3 <= |Print(b)|
    ensures FindFrom(Print(b), '/', |b.scheme| + 3) == |Front(b)| - |PrintPath(b.path)|
    ensures Print(b)[|Front(b)| - |PrintPath(b.path)|..|Front(b)|] == PrintPath(b.path)
  {
    PrintFromFront(b);
    PrintPathIsJoin(b.path);
    var p := PrintPath(b.path);
    ScanAuthority(b, p + Tail(b));
    var front := b.scheme + "://" + Authority(b);
    Assoc(b.scheme + "://", Authority(b), p);
    Assoc(front, p, Tail(b));
    SliceAfter(front, p + Tail(b), 0, |p|);
  }

  lemma EncodedPathNotEmpty(url: string, scheme: string)
    ensures EncodedPath(url, scheme) != (Accepted, "")
  {
    if |scheme| + 3 <= |url| {
      var slash, end := FindFrom(url, '/', |scheme| + 3), EndOfPath(url);
      assert slash < |url| ==> url[slash] == '/';
      assert end < |url| ==> url[end] != '/';
    }
  }

  lemma EncodedPathIs(url: string, scheme: string, p: string, slash: nat, n: nat, end: nat)
    requires |scheme| + 3 <= |url| && FindFrom(url, '/', |scheme| + 3) == slash && EndOfPath(url) == end
    requires slash < n <= end && url[slash..n] == p
    ensures EncodedPath(url, scheme) == (Accepted, p) <==> n == end
  {
    SliceSplit(url, slash, n, end);
    AppendsNothing(p, url[n..end]);
  }

  /** EncodedPath is the printed path exactly when there is a segment and no stray '?'. */
  lemma EncodedPathExactly(b: Parts)
    requires CleanParts(b)
    ensures EncodedPath(Print(b), b.scheme) == (Accepted, PrintPath(b.path))
       <==> b.path != [] && NoStrayQuestionMark(b)
  {
    if b.path == [] {
      EncodedPathNotEmpty(Print(b), b.scheme);
    } else {
      var p, n := PrintPath(b.path), |Front(b)|;
      assert 0 < |p| by { PrintPathIsJoin(b.path); }
      SlashOfPath(b);
      PathEnd(b);
      EncodedPathIs(Print(b), b.scheme, p, n - |p|, n, EndOfPath(Print(b)));
    }
  }

  lemma StrayQuery(fragment: string)
    requires '?' in fragment
    ensures QueryText("#" + fragment) == "" <==> Find(fragment, '?') == |fragment| - 1
  {
    var tail, k := "#" + fragment, Find(fragment, '?');
    FindNone(fragment, '?');
    FindAfter("#", fragment, '?');
    assert Find(tail, '#') == 0;
    assert |tail[1 + k + 1..|tail|]| == |fragment| - 1 - k;
  }

  lemma NoQuery(tail: string)
    requires '?' !in tail
    ensures QueryText(tail) == ""
  {
    FindNone(tail, '?');
  }

  /** EncodedQuery is the printed query unless a stray '?' has text after it. */
  lemma EncodedQueryExactly(b: Parts)
    requires CleanParts(b)
    ensures EncodedQuery(Print(b)) == (if b.query == map[] then "" else PrintQuery(b.query))
       <==> (NoStrayQuestionMark(b) || Find(b.fragment, '?') == |b.fragment| - 1)
  {
    PrintFromFront(b);
    ScanQuery(Front(b), Tail(b));
    if b.query != map[] {
      PrintQueryFreeOfHash(b.query);
      QueryOfTail(PrintQuery(b.query), b.fragment);
    } else {
      assert Tail(b) == FragmentPart(b.fragment);
      if NoStrayQuestionMark(b) {
        NoQuery(Tail(b));
      } else {
        StrayQuery(b.fragment);
      }
    }
  }

  /** Scheme, host, port and the three accessors put the printed text together again. */
  lemma AccessorsReassemble(b: Parts)
    requires CleanParts(b) && b.path != [] && NoStrayQuestionMark(b)
    ensures var (outcome, path) := EncodedPath(Print(b), b.scheme);
      var query := EncodedQuery(Print(b));
      outcome == Accepted &&
      Print(b) == b.scheme + "://" + (b.host + ":" + Decimal(EffectivePort(b)) + path)
                  + ((if query == "" then "" else "?" + query) + (if b.fragment == "" then "" else "#" + b.fragment))
  {
    EncodedPathExactly(b);
    EncodedQueryExactly(b);
    if b.query != map[] {
      var init, name, value := LastPrinted(b.query);
      JoinParam(init, name, value);
    }
  }

  // ---------------------------------------------------------------- the other cases

  lemma EncodedPathAt(url: string, scheme: string, slash: nat, end: nat)
    requires |scheme| + 3 <= |url| && FindFrom(url, '/', |scheme| + 3) == slash && EndOfPath(url) == end
    ensures EncodedPath(url, scheme)
         == if slash == |url| then (OutOfRange, "")
            else (Accepted, if end < slash then url[slash..] else url[slash..end])
  {
  }

  lemma SlashBehind(head: string, a: string, body: string)
    requires '/' !in a
    ensures FindFrom(head + a + body, '/', |head|) == |head + a| + Find(body, '/')
  {
    assert (head + a + body)[|head|..] == a + body;
    FindAfter(a, body, '/');
  }

  lemma SlicesBehind(front: string, body: string, i: nat, j: nat)
    requires i <= |body| && j <= |body|
    ensures (front + body)[|front| + i..] == body[i..]
    ensures i <= j ==> (front + body)[|front| + i..|front| + j] == body[i..j]
  {
  }

  /** What EncodedPath gives behind text without delimiters: from the first '/' to the end of the path. */
  lemma EncodedPathShifted(front: string, body: string, scheme: string, s: nat, e: nat)
    requires |scheme| + 3 <= |front| && s <= |body| && e <= |body|
    requires FindFrom(front + body, '/', |scheme| + 3) == |front| + s && EndOfPath(front + body) == |front| + e
    ensures EncodedPath(front + body, scheme)
         == if s == |body| then (OutOfRange, "") else (Accepted, if e < s then body[s..] else body[s..e])
  {
    EncodedPathAt(front + body, scheme, |front| + s, |front| + e);
    SlicesBehind(front, body, s, e);
  }

  lemma EncodedPathBehind(scheme: string, a: string, body: string)
    requires IsScheme(scheme) && '/' !in a && '?' !in a && '#' !in a
    ensures var s, e := Find(body, '/'), EndOfPath(body);
      EncodedPath(scheme + "://" + (a + body), scheme)
      == if s == |body| then (OutOfRange, "") else (Accepted, if e < s then body[s..] else body[s..e])
  {
    var head := scheme + "://";
    PlainHead(scheme);
    SlashBehind(head, a, body);
    EndAfter(head + a, body);
    EncodedPathShifted(head + a, body, scheme, Find(body, '/'), EndOfPath(body));
    Assoc(head, a, body);
  }

  /** On any text at all it throws where no '/' lies behind scheme and "://", or the text ends before. */
  lemma EncodedPathThrows(url: string, scheme: string)
    ensures EncodedPath(url, scheme) == (OutOfRange, "") <==>
      |url| < |scheme| + 3 || '/' !in url[|scheme| + 3..]
    ensures EncodedPath(url, scheme) != (OutOfRange, "") ==> EncodedPath(url, scheme).0 == Accepted
  {
    if |scheme| + 3 <= |url| {
      FindNone(url[|scheme| + 3..], '/');
    }
  }

  lemma BodyOfPrint(b: Parts)
    requires CleanParts(b)
    ensures Print(b) == b.scheme + "://" + (Authority(b) + (PrintPath(b.path) + Tail(b)))
    ensures '/' !in Authority(b) && '?' !in Authority(b) && '#' !in Authority(b)
  {
    PrintInPieces(b);
    Assoc(b.scheme, "://", Authority(b) + (PrintPath(b.path) + Tail(b)));
    ScanAuthority(b, "");
  }

  /** Without a segment it throws, or gives the text from a '/' of query or fragment on. */
  lemma EncodedPathWithoutSegment(b: Parts)
    requires CleanParts(b) && b.path == []
    ensures '/' !in Tail(b) ==> EncodedPath(Print(b), b.scheme) == (OutOfRange, "")
    ensures '/' in Tail(b) && NoStrayQuestionMark(b) ==>
      EncodedPath(Print(b), b.scheme) == (Accepted, Tail(b)[Find(Tail(b), '/')..])
  {
    BodyOfPrint(b);
    EncodedPathBehind(b.scheme, Authority(b), Tail(b));
    assert PrintPath(b.path) + Tail(b) == Tail(b);
    FindNone(Tail(b), '/');
    EndOfTail(b);
    TailIsNoPath(b);
  }

  lemma TailIsNoPath(b: Parts)
    ensures Tail(b) == "" || Tail(b)[0] == '?' || Tail(b)[0] == '#'
  {
  }

  lemma EndAtQuestionMark(p: string, f1: string)
    requires '?' !in p && p != "" && p[0] == '/'
    ensures var body := p + ("?" + f1);
      Find(body, '/') == 0 && EndOfPath(body) == |p| && body[0..|p|] == p && |body| > 0
  {
    var body := p + ("?" + f1);
    FindAfter(p, "?" + f1, '?');
    assert body[0] == '/';
  }

  lemma StrayBody(b: Parts, f0: string, f1: string)
    requires b.query == map[] && b.fragment == f0 + "?" + f1
    ensures PrintPath(b.path) + Tail(b) == PrintPath(b.path) + "#" + f0 + ("?" + f1)
  {
    var p := PrintPath(b.path);
    StrayTailText(b, f0, f1);
    Assoc("#" + f0, "?", f1);
    Assoc(p, "#" + f0, "?" + f1);
    Assoc(p, "#", f0);
    Assoc("#" + f0, "?", f1);
  }

  /** With a stray '?' it runs on to that. */
  lemma EncodedPathWithStray(b: Parts)
    requires CleanParts(b) && b.path != [] && !NoStrayQuestionMark(b)
    ensures EncodedPath(Print(b), b.scheme)
         == (Accepted, PrintPath(b.path) + "#" + b.fragment[..Find(b.fragment, '?')])
  {
    var f0, f1 := SplitStray(b);
    var p := PrintPath(b.path) + "#" + f0;
    BodyOfPrint(b);
    StrayBody(b, f0, f1);
    EncodedPathBehind(b.scheme, Authority(b), p + ("?" + f1));
    PrintPathIsJoin(b.path);
    PrintPathFreeOf(b.path, '?');
    assert '?' !in p && p[0] == '/';
    EndAtQuestionMark(p, f1);
  }

  /** And EncodedQuery gives what follows it. */
  lemma EncodedQueryWithStray(b: Parts)
    requires CleanParts(b) && !NoStrayQuestionMark(b)
    ensures EncodedQuery(Print(b)) == b.fragment[Find(b.fragment, '?') + 1..]
  {
    var f0, f1 := SplitStray(b);
    PrintFromFront(b);
    ScanQuery(Front(b), Tail(b));
    StrayTailText(b, f0, f1);
    QueryAfterHash(f0, f1);
  }

  lemma StrayTailText(b: Parts, f0: string, f1: string)
    requires b.query == map[] && b.fragment == f0 + "?" + f1
    ensures Tail(b) == "#" + f0 + "?" + f1
  {
  }
}
