/**
  Texts as users write them: for which of them the printed form is canonical, and what becomes of the
  others.
 */
module UrlCanonical {
  import opened Text
  import opened PathSegments
  import opened QueryMap
  import opened UrlModel
  import opened UrlScanning
  import opened UrlTheorems
  import opened UrlParsed
  import opened UrlSlashHost

  // ---------------------------------------------------------------- the canonical form

  /** The fields hold no delimiter of a later part and survive a round trip, or come back by the chances. */
  ghost predicate Lasting(b: Parts) {
    Legible(b) && if '/' in b.host then SlashRepair(b) else Survives(b) || DotsRepair(b)
  }

  lemma LegibleLasts(before: Parts, b: Parts)
    requires Legible(b)
    ensures IsCanonical(before, b) <==> Lasting(b)
  {
    if '/' in b.host {
      SlashExactly(before, b);
    } else {
      RoundTripExactly(before, b);
    }
  }

  /**
    For every text that Parse accepts, the printed form is canonical exactly when the parts hold no
    delimiter of a later part and survive a round trip, or by the chances of a stray '?' and of a slash
    in the host. Then printing what is read back gives the same text.
   */
  lemma CanonicalExactly(before: Parts, url: string)
    requires Parse(before, url).0 == Accepted
    ensures var b := Parse(before, url).1; IsCanonical(before, b) <==> Lasting(b)
    ensures var b := Parse(before, url).1; IsCanonical(before, b) ==> Print(Parse(before, Print(b)).1) == Print(b)
  {
    var b := Parse(before, url).1;
    PrintNormalized(b);
    AcceptedIsParsed(before, url);
    LegibleIsFree(b);
    CanonicalComesBack(before, b);
    if !FrontFree(b, '?') {
      QuestionMarkFails(before, b);
    } else if !Legible(b) {
      HashFails(before, b);
    } else {
      LegibleLasts(before, b);
    }
  }

  /** In short: where no '?' is stray and no blank is printed last, clean parts with a segment are it. */
  lemma OrdinarilyCanonical(before: Parts, url: string)
    requires Parse(before, url).0 == Accepted
    ensures var b := Parse(before, url).1;
      EndsSolid(Print(b)) && NoStrayQuestionMark(b) ==> (IsCanonical(before, b) <==> CleanParts(b) && b.path != [])
  {
    CanonicalExactly(before, url);
  }

  // ---------------------------------------------------------------- texts without blanks

  lemma BlankIsPrinted(b: Parts, c: char)
    requires Parsed(b) && FrontFree(b, c) && QueryFreeOf(b.query, c) && c !in b.fragment
    requires IsBlank(c)
    ensures c !in PrintPath(b.path) && c !in Tail(b)
  {
    PrintPathFreeOf(b.path, c);
    PrintQueryFreeOf(b.query, c);
  }

  /** Parts without blanks print a text that does not end in one. */
  lemma NoBlankPrint(b: Parts)
    requires Parsed(b)
    requires forall c :: IsBlank(c) ==> FrontFree(b, c) && QueryFreeOf(b.query, c) && c !in b.fragment
    ensures EndsSolid(Print(b))
  {
    forall c | IsBlank(c) ensures c !in PrintPath(b.path) && c !in Tail(b) {
      BlankIsPrinted(b, c);
    }
    assert NoBlank(PrintPath(b.path)) && NoBlank(Tail(b));
    AuthorityEndsSolid(b);
    EndsSolidAfter(Authority(b), PrintPath(b.path));
    EndsSolidAfter(b.scheme + "://", Authority(b) + PrintPath(b.path));
    EndsSolidAfter(Front(b), Tail(b));
    assert PrintPath(b.path) == "" ==> Authority(b) + PrintPath(b.path) == Authority(b);
    assert Tail(b) == "" ==> Print(b) == Front(b);
  }

  lemma PartsOfText(t: string, start: nat, c: char)
    requires start <= |t| && c !in t
    ensures c !in HostPath(t, start) && c !in QueryText(t) && c !in FragmentText(t)
  {
  }

  lemma NoBlankParts(scheme: string, t: string)
    requires IsScheme(scheme) && |scheme| + 3 <= |t| && NoBlank(t)
    ensures EndsSolid(Print(Assemble(scheme, HostPath(t, |scheme| + 3), t)))
  {
    var hp := HostPath(t, |scheme| + 3);
    var b := Assemble(scheme, hp, t);
    AssembledIsParsed(scheme, hp, t);
    forall c | IsBlank(c) ensures FrontFree(b, c) && QueryFreeOf(b.query, c) && c !in b.fragment {
      PartsOfText(t, |scheme| + 3, c);
      AssembledFree(scheme, hp, t, c);
    }
    NoBlankPrint(b);
  }

  /** A text without blanks inside is printed without one at its end. */
  lemma NoBlankText(before: Parts, url: string)
    requires Parse(before, url).0 == Accepted && NoBlank(TrimBlanks(url))
    ensures EndsSolid(Print(Parse(before, url).1))
  {
    var t := TrimBlanks(url);
    var scheme := Lower(t[..Find(t, ':')]);
    assert ParseTrimmed(t) == ParseBody(scheme, t);
    NoBlankParts(scheme, t);
  }

  // ---------------------------------------------------------------- texts of the usual shape

  /** A scheme word in either case and three characters of which Parse checks only the first. */
  ghost predicate Start(word: string, sep: string) {
    IsScheme(Lower(word)) && |sep| == 3 && sep[0] == ':' && '?' !in sep && '#' !in sep
  }

  /** What may follow host, port and path: a query, a fragment without '?', or nothing. */
  ghost predicate IsTail(tail: string) {
    tail == "" || tail[0] == '?' || (tail[0] == '#' && '?' !in tail)
  }

  ghost predicate IsHostPath(hp: string) {
    hp != "" && '?' !in hp && '#' !in hp
  }

  lemma TailQuery(tail: string)
    requires IsTail(tail)
    ensures '#' !in QueryText(tail)
  {
    FindNone(tail, '?');
    if tail != "" && tail[0] == '?' {
      var f := Find(tail, '#');
      QueryTextIs(tail, 0, f);
      assert forall i :: 1 <= i < f ==> tail[i] == tail[..f][i];
    }
  }

  /** What is read off such a text, and when its parts are clean. */
  lemma ShapeParse(word: string, sep: string, hp: string, tail: string)
    requires Start(word, sep) && IsHostPath(hp) && IsTail(tail)
    ensures var scheme := Lower(word);
      var b := Parts(scheme, HostOf(hp), PortOf(scheme, hp), PathOf(hp),
                     ReadQuery(QueryText(tail)), FragmentText(tail));
      ParseTrimmed(word + sep + hp + tail) == (Accepted, b) && (CleanParts(b) <==> '/' !in b.host)
      && Parsed(b) && FrontFree(b, '?') && FrontFree(b, '#') && QueryFreeOf(b.query, '#')
  {
    var scheme, front, t := Lower(word), word + sep + hp, word + sep + hp + tail;
    WordIsPlain(word);
    Scan(word, sep, hp, tail);
    ScanQuery(front, tail);
    ScanFragment(front, tail);
    TailQuery(tail);
    AssembledIsParsed(scheme, hp, t);
    AssembledFree(scheme, hp, t, '?');
    AssembledFree(scheme, hp, t, '#');
    LegibleIsFree(Assemble(scheme, hp, t));
  }

  lemma HostBeforeColon(authority: string, rest: string)
    requires ':' in authority
    ensures HostOf(authority + rest) <= authority
  {
    var hp, k := authority + rest, Find(authority, ':');
    FindNone(authority, ':');
    assert hp[..k] == authority[..k];
    FindIs(hp, ':', k);
  }

  lemma HostBeforeSlash(authority: string, path: string)
    requires '/' !in authority && ':' !in authority && ':' !in path
    ensures HostOf(authority + ("/" + path)) == authority
  {
    var hp := authority + ("/" + path);
    FindNone(hp, ':');
    FindAfter(authority, "/" + path, '/');
    assert hp[..|authority|] == authority;
  }

  lemma HostInPath(authority: string, path: string)
    requires '/' !in authority && ':' in path && ':' !in authority
    ensures HostOf(authority + ("/" + path)) == authority + "/" + path[..Find(path, ':')]
  {
    var front, k := authority + "/", Find(path, ':');
    FindNone(path, ':');
    Assoc(authority, "/", path);
    FindAfter(front, path, ':');
    assert (front + path)[..|front| + k] == front + path[..k];
  }

  /** The host ends with the authority unless only the path holds a ':'. */
  lemma HostEndsAtSlash(authority: string, path: string)
    requires '/' !in authority
    ensures var host := HostOf(authority + ("/" + path));
      (host <= authority <==> (':' in path ==> ':' in authority)) &&
      ('/' in host <==> ':' in path && ':' !in authority)
  {
    var host := HostOf(authority + ("/" + path));
    if ':' in authority {
      HostBeforeColon(authority, "/" + path);
      PrefixFreeOf(host, authority, '/');
    } else if ':' in path {
      HostInPath(authority, path);
      assert host[|authority|] == '/' && |host| > |authority|;
    } else {
      HostBeforeSlash(authority, path);
    }
  }

  lemma ShapeIsRead(before: Parts, url: string, word: string, sep: string, hp: string, tail: string)
    requires Start(word, sep) && IsHostPath(hp) && IsTail(tail)
    requires |url| > 7 && TrimBlanks(url) == word + sep + hp + tail
    ensures var (outcome, b) := Parse(before, url);
      outcome == Accepted && (CleanParts(b) <==> '/' !in HostOf(hp))
      && b.host == HostOf(hp) && b.path == PathOf(hp)
      && b.query == ReadQuery(QueryText(tail)) && b.fragment == FragmentText(tail)
      && ('?' !in b.fragment ==> NoStrayQuestionMark(b) && !DotsRepair(b))
  {
    ShapeParse(word, sep, hp, tail);
  }

  /**
    The printed form of a text with a slash after its authority: with a ':' in the path alone the host
    runs on into the path; otherwise it is canonical as a round trip is exact. Where no '?' is in the
    fragment and no blank is printed last, this comes down to a surviving segment and no such ':'.
   */
  lemma CanonicalFixpoint(before: Parts, url: string, word: string, sep: string, authority: string, path: string,
                          tail: string)
    requires Start(word, sep) && IsTail(tail) && '/' !in authority && IsHostPath(authority + ("/" + path))
    requires |url| > 7 && TrimBlanks(url) == word + sep + (authority + ("/" + path)) + tail
    ensures var (outcome, b) := Parse(before, url);
      outcome == Accepted && b.path == AddSegments([], path)
      && b.query == ReadQuery(QueryText(tail)) && b.fragment == FragmentText(tail)
    ensures var b := Parse(before, url).1;
      IsCanonical(before, b)
      <==> if ':' in path && ':' !in authority then SlashRepair(b) else Survives(b) || DotsRepair(b)
    ensures var b := Parse(before, url).1;
      '?' !in b.fragment && ((':' in path ==> ':' in authority) || EndsSolid(Print(b))) ==>
      (IsCanonical(before, b)
       <==> (':' in path ==> ':' in authority) && AddSegments([], path) != [] && EndsSolid(Print(b)))
    ensures var b := Parse(before, url).1; IsCanonical(before, b) ==> Print(Parse(before, Print(b)).1) == Print(b)
  {
    ShapeParse(word, sep, authority + ("/" + path), tail);
    PathAfter(authority, path);
    HostEndsAtSlash(authority, path);
    LegibleIsFree(Parse(before, url).1);
    CanonicalExactly(before, url);
  }

  /** Without a slash after it, the whole authority, port included, becomes a path segment too. */
  lemma AuthorityBecomesPath(word: string, sep: string, authority: string, tail: string)
    requires Start(word, sep) && authority != "" && '/' !in authority && '?' !in authority
    requires IsTail(tail) && (tail == "" || tail[0] == '#' ==> '#' !in authority)
    ensures var r := ParseTrimmed(word + sep + authority + tail);
      r.0 == Accepted && r.1.path == if IsName(authority) then [authority] else []
  {
    Scan(word, sep, authority, tail);
    FindNone(authority, '/');
    AddSegmentsOfPiece([], authority);
  }

  /** There too the printed form is canonical exactly when a segment survives and nothing is trimmed off. */
  lemma CanonicalWithoutSlash(before: Parts, url: string, word: string, sep: string, authority: string, tail: string)
    requires Start(word, sep) && IsTail(tail) && '/' !in authority && IsHostPath(authority)
    requires |url| > 7 && TrimBlanks(url) == word + sep + authority + tail
    ensures var (outcome, b) := Parse(before, url);
      outcome == Accepted && CleanParts(b) && b.path == if IsName(authority) then [authority] else []
    ensures var b := Parse(before, url).1; IsCanonical(before, b) <==> Survives(b) || DotsRepair(b)
    ensures var b := Parse(before, url).1;
      '?' !in b.fragment ==> (IsCanonical(before, b) <==> IsName(authority) && EndsSolid(Print(b)))
  {
    ShapeIsRead(before, url, word, sep, authority, tail);
    AuthorityBecomesPath(word, sep, authority, tail);
    HostOfIs(authority);
    PrefixFreeOf(HostOf(authority), authority, '/');
    CanonicalExactly(before, url);
  }

  /**
    With a ':' in the path and none in the authority the host runs on into the path. Unless a '?' is
    stray or a blank is printed last, every round of printing and parsing then adds the same segments.
   */
  lemma ColonInPathGrows(before: Parts, url: string, word: string, sep: string, authority: string, path: string,
                         tail: string)
    requires Start(word, sep) && IsTail(tail) && '/' !in authority && IsHostPath(authority + ("/" + path))
    requires |url| > 7 && TrimBlanks(url) == word + sep + (authority + ("/" + path)) + tail
    requires ':' in path && ':' !in authority
    ensures var b := Parse(before, url).1;
      b.host == authority + "/" + path[..Find(path, ':')] &&
      (EndsSolid(Print(b)) && NoStrayQuestionMark(b) ==>
        Parse(before, Print(b)) == (Accepted, Lengthened(b)) && Buried(b) != []
        && forall k: nat :: RoundsAre(before, b, k))
  {
    var b := Parse(before, url).1;
    ShapeParse(word, sep, authority + ("/" + path), tail);
    HostInPath(authority, path);
    if EndsSolid(Print(b)) && NoStrayQuestionMark(b) {
      assert b.host[|authority|] == '/';
      LegibleIsFree(b);
      RoundsOfGrowing(before, b);
    }
  }

  lemma RoundsOfGrowing(before: Parts, b: Parts)
    requires Grows(b)
    ensures Parse(before, Print(b)) == (Accepted, Lengthened(b)) && Buried(b) != []
    ensures forall k: nat :: RoundsAre(before, b, k)
  {
    BuriedIsNotEmpty(b);
    OneRound(before, b);
    forall k: nat ensures RoundsAre(before, b, k) {
      RoundsGrow(before, b, k);
    }
  }

  lemma ExampleUrl()
    ensures var url := "http://h/a:b";
      |url| > 7 && url == "http" + "://" + ("h" + ("/" + "a:b")) + "" && TrimBlanks(url) == url && NoBlank(url)
  {
    var url := "http://h/a:b";
    assert forall i :: 0 <= i < |url| ==> !IsBlank(url[i]);
  }

  lemma ExamplePath()
    ensures "a:b"[..Find("a:b", ':')] == "a" && PathOf("h" + ("/" + "a:b")) == ["a:b"]
    ensures "h" + "/" + "a" == "h/a" && ':' in "a:b"
  {
    FindIs("a:b", ':', 1);
    PathAfter("h", "a:b");
    AddSegmentsOfPiece([], "a:b");
    assert "a:b"[1] == ':';
  }

  /** One of the smallest such texts: host "h/a", and a segment more after every round. */
  lemma ColonInPathExample(before: Parts)
    ensures var (outcome, b) := Parse(before, "http://h/a:b");
      outcome == Accepted && b.host == "h/a" && b.path == ["a:b"] &&
      |Parse(before, Print(b)).1.path| > 1 && !IsCanonical(before, b)
  {
    var url := "http://h/a:b";
    ExampleUrl();
    ExamplePath();
    ShapeIsRead(before, url, "http", "://", "h" + ("/" + "a:b"), "");
    NoBlankText(before, url);
    ColonInPathGrows(before, url, "http", "://", "h", "a:b", "");
  }

  lemma DotsAndBlankPath()
    ensures AddSegments([], ".. " + "/" + ("b:0" + "/" + "..")) == [".. "]
  {
    AddSegmentsConcat([], ".. ", "b:0" + "/" + "..");
    AddSegmentsConcat([".. "], "b:0", "..");
    AddSegmentsOfPiece([], ".. ");
    AddSegmentsOfPiece([".. "], "b:0");
    AddSegmentsOfPiece([".. ", "b:0"], "..");
    assert Push([], ".. ") == [".. "] && Push([".. "], "b:0") == [".. ", "b:0"];
  }

  lemma DotsAndBlankPort(hp: string)
    requires hp == "h/.. /b" + (":" + ("0" + "/.."))
    ensures HostOf(hp) == "h/.. /b" && PortOf("http", hp) == 0
  {
    FindAfter("h/.. /b", ":" + ("0" + "/.."), ':');
    FindIs(hp, '/', 1);
    AtoiOfDecimal(0, "/..");
    assert Decimal(0) == "0";
    assert hp[..7] == "h/.. /b" && hp[8..] == "0" + "/..";
  }

  lemma DotsAndBlankText(hp: string)
    requires hp == "h/.. /b" + (":" + ("0" + "/.."))
    ensures hp == "h" + ("/" + (".. " + "/" + ("b:0" + "/" + "..")))
    ensures hp == "h/.. /b" + ":" + "0" + "/.."
    ensures IsHostPath(hp) && |hp| > 7
    ensures "/.. " == "/" + ".. " + ""
  {
    assert forall i :: 0 <= i < |hp| ==> hp[i] != '?' && hp[i] != '#';
  }

  /** The state read off "http://h/.. /b:0/..", in which a slash stands in the host. */
  ghost predicate IsDotsAndBlank(b: Parts) {
    b == Parts("http", "h/.. /b", 0, [".. "], map[], "")
  }

  lemma DotsAndBlankPrint(b: Parts, hp: string)
    requires IsDotsAndBlank(b) && hp == "h/.. /b" + ":" + "0" + "/.."
    ensures Print(b) == "http" + "://" + hp + "" + " "
  {
    assert Decimal(0) == "0";
    assert PrintPath([".. "]) == "/.. ";
    assert QueryPart(map[]) + FragmentPart("") == "";
    assert "/.." + " " == "/.. ";
  }

  lemma DotsAndBlankFields(hp: string)
    requires hp == "h/.. /b" + (":" + ("0" + "/.."))
    ensures HostOf(hp) == "h/.. /b" && PortOf("http", hp) == 0 && PathOf(hp) == [".. "] && IsHostPath(hp) && |hp| > 7
  {
    DotsAndBlankText(hp);
    DotsAndBlankPort(hp);
    DotsAndBlankPath();
    PathAfter("h", ".. " + "/" + ("b:0" + "/" + ".."));
  }

  lemma PlainParse(hp: string)
    requires IsHostPath(hp)
    ensures ParseTrimmed("http" + "://" + hp + "")
         == (Accepted, Parts("http", HostOf(hp), PortOf("http", hp), PathOf(hp), map[], ""))
  {
    LowerOfScheme("http");
    ShapeParse("http", "://", hp, "");
    FindNone("", '?');
    FindNone("", '#');
  }

  lemma TrimOneSpace(s: string)
    requires s != "" && !IsBlank(s[0]) && EndsSolid(s)
    ensures TrimBlanks(s) == s && TrimBlanks(s + " ") == s && !EndsSolid(s + " ")
  {
    TrimBlanksOfSolidStart(s);
    TrimBlanksRightPrefix(s);
    TrimBlanksOfSolidStart(s + " ");
    TrimBlanksRightKeeps(s, " ");
    TrimSpaces(" ");
    assert s + "" == s;
  }

  lemma CanonicalByTrimming(before: Parts, b: Parts, url: string)
    requires |url| > 7 && !IsBlank(url[0]) && EndsSolid(url) && b.port != -1
    requires ParseTrimmed(url) == (Accepted, b) && Print(b) == url + " "
    ensures Parse(before, url) == (Accepted, b) && !EndsSolid(Print(b)) && IsCanonical(before, b)
  {
    TrimOneSpace(url);
  }

  lemma DotsAndBlankParse(hp: string, b: Parts)
    requires hp == "h/.. /b" + (":" + ("0" + "/.."))
    requires ParseTrimmed("http" + "://" + hp + "").1 == b
    ensures IsDotsAndBlank(b) && ParseTrimmed("http" + "://" + hp + "").0 == Accepted
  {
    DotsAndBlankFields(hp);
    PlainParse(hp);
  }

  lemma DotsAndBlankEnds(hp: string, url: string)
    requires hp == "h/.. /b" + (":" + ("0" + "/.."))
    requires url == "http" + "://" + hp + ""
    ensures |url| > 7 && url[0] == 'h' && url[|url| - 1] == '.'
  {
  }

  /**
    The rare chance of parts that are not clean: here the blank that is trimmed off the printed form
    turns a name into the ".." that takes the added segment away again.
   */
  lemma TrimmingRepairs(before: Parts, hp: string, url: string)
    requires hp == "h/.. /b" + (":" + ("0" + "/..")) && url == "http" + "://" + hp + ""
    ensures var (outcome, b) := Parse(before, url);
      outcome == Accepted && IsDotsAndBlank(b) && !EndsSolid(Print(b)) && IsCanonical(before, b)
  {
    var b := ParseTrimmed(url).1;
    DotsAndBlankText(hp);
    DotsAndBlankParse(hp, b);
    DotsAndBlankEnds(hp, url);
    DotsAndBlankPrint(b, hp);
    CanonicalByTrimming(before, b, url);
  }

  // ---------------------------------------------------------------- queries

  /** Two texts that differ in their queries alone, which carry the same pairs, parse to the same state. */
  lemma SameQuerySameUrl(before: Parts, url1: string, url2: string, word: string, sep: string, hp: string,
                         q1: string, q2: string, fragment: string)
    requires Start(word, sep) && IsHostPath(hp) && '#' !in q1 && '#' !in q2 && |url1| > 7 && |url2| > 7
    requires TrimBlanks(url1) == word + sep + hp + ("?" + q1 + FragmentPart(fragment))
    requires TrimBlanks(url2) == word + sep + hp + ("?" + q2 + FragmentPart(fragment))
    requires forall n, v :: Carries(Tokens(q1, '&'), n, v) <==> Carries(Tokens(q2, '&'), n, v)
    ensures Parse(before, url1) == Parse(before, url2) && Parse(before, url1).0 == Accepted
  {
    SameQuery(word, sep, hp, q1, fragment);
    SameQuery(word, sep, hp, q2, fragment);
    ReadQueryIsSetLike(q1, q2);
  }

  lemma SameQuery(word: string, sep: string, hp: string, query: string, fragment: string)
    requires Start(word, sep) && IsHostPath(hp) && '#' !in query
    ensures var scheme := Lower(word);
      ParseTrimmed(word + sep + hp + ("?" + query + FragmentPart(fragment)))
      == (Accepted, Parts(scheme, HostOf(hp), PortOf(scheme, hp), PathOf(hp), ReadQuery(query), fragment))
  {
    QueryOfTail(query, fragment);
    FragmentOfTail("?" + query, fragment);
    ShapeParse(word, sep, hp, "?" + query + FragmentPart(fragment));
  }
}
