/**
  Single components in plain characters and numbers: which words are schemes, which ports go without
  saying, what is rejected, and what the printer and the accessors give in the cases that no round trip
  covers.
 */
module UrlReadings {
  import opened Text
  import opened PathSegments
  import opened QueryMap
  import opened UrlModel
  import opened UrlScanning
  import opened UrlTheorems
  import opened UrlParsed
  import opened UrlCanonical
  import opened UrlFixpoints

  // ---------------------------------------------------------------- the scheme word

  /** The words that Parse takes for a scheme, letter by letter in either case. */
  lemma SchemeWords(w: string)
    ensures Lower(w) == "http" <==> |w| == 4 && forall i :: 0 <= i < 4 ==> w[i] == "http"[i] || w[i] == "HTTP"[i]
    ensures Lower(w) == "https" <==> |w| == 5 && forall i :: 0 <= i < 5 ==> w[i] == "https"[i] || w[i] == "HTTPS"[i]
  {
    forall i | 0 <= i < |w| ensures Lower(w)[i] == LowerChar(w[i]) {
    }
    if |w| == 4 {
      LettersOf(w, "http", "HTTP");
    } else if |w| == 5 {
      LettersOf(w, "https", "HTTPS");
    }
  }

  lemma LettersOf(w: string, lower: string, upper: string)
    requires |w| == |lower| == |upper|
    requires forall i :: 0 <= i < |lower| ==> 'a' <= lower[i] <= 'z' && upper[i] as int + 32 == lower[i] as int
    ensures Lower(w) == lower <==> forall i :: 0 <= i < |w| ==> w[i] == lower[i] || w[i] == upper[i]
  {
    if Lower(w) == lower {
      forall i | 0 <= i < |w| ensures w[i] == lower[i] || w[i] == upper[i] {
        assert Lower(w)[i] == LowerChar(w[i]);
      }
    }
  }

  predicate SameLetter(c: char, d: char) {
    c == d || ('A' <= c <= 'Z' && d as int == c as int + 32) || ('A' <= d <= 'Z' && c as int == d as int + 32)
  }

  /** Equal but for the case of the letters A to Z. */
  predicate SameLetters(v: string, w: string) {
    |v| == |w| && forall i :: 0 <= i < |v| ==> SameLetter(v[i], w[i])
  }

  lemma SameLower(v: string, w: string)
    ensures SameLetters(v, w) <==> Lower(v) == Lower(w)
  {
    if |v| == |w| {
      forall i | 0 <= i < |v| ensures SameLetter(v[i], w[i]) <==> Lower(v)[i] == Lower(w)[i] {
      }
    }
  }

  lemma WordIsCut(word: string, rest: string)
    requires ':' !in word && (rest == "" || rest[0] == ':')
    ensures (word + rest)[..Find(word + rest, ':')] == word
  {
    FindAfter(word, rest, ':');
  }

  lemma HostPathBehind(word: string, rest: string)
    requires '?' !in word && '#' !in word && 3 <= |rest|
    ensures HostPath(word + rest, |word| + 3) == HostPath(rest, 3)
  {
    EndAfter(word, rest);
    var end := EndOfPath(rest);
    if 3 <= end {
      SliceAfter(word, rest, 3, end);
    } else {
      SliceAfter(word, rest, 3, |rest|);
      assert (word + rest)[|word| + 3..|word + rest|] == (word + rest)[|word| + 3..] && rest[3..|rest|] == rest[3..];
    }
  }

  lemma BodyBehindWord(word: string, rest: string)
    requires IsScheme(Lower(word)) && 3 <= |rest|
    ensures ParseBody(Lower(word), word + rest)
         == if HostPath(rest, 3) == "" then (Rejected, CLEARED.(scheme := Lower(word)))
            else (Accepted, Assemble(Lower(word), HostPath(rest, 3), rest))
  {
    WordIsPlain(word);
    HostPathBehind(word, rest);
    ScanQuery(word, rest);
    ScanFragment(word, rest);
  }

  /** Texts that differ only in blanks around them and in the case of their first word parse alike. */
  lemma SchemeCaseIsFree(before: Parts, url1: string, url2: string, v: string, w: string, rest: string)
    requires |url1| > 7 && |url2| > 7 && TrimBlanks(url1) == v + rest && TrimBlanks(url2) == w + rest
    requires SameLetters(v, w) && ':' !in v && ':' !in w && (rest == "" || rest[0] == ':')
    ensures Parse(before, url1) == Parse(before, url2)
  {
    SameLower(v, w);
    WordIsCut(v, rest);
    WordIsCut(w, rest);
    if IsScheme(Lower(v)) && 3 <= |rest| {
      BodyBehindWord(v, rest);
      BodyBehindWord(w, rest);
    }
  }

  // ---------------------------------------------------------------- rejected texts

  /** Up to seven characters are rejected and leave the fields as they were. */
  lemma ShortTextRejected(before: Parts, url: string)
    requires |url| <= 7
    ensures Parse(before, url) == (Rejected, before)
  {
  }

  /** Any other first word is rejected, and clears the fields. */
  lemma OtherSchemeRejected(before: Parts, url: string, word: string, rest: string)
    requires |url| > 7 && TrimBlanks(url) == word + rest && ':' !in word && (rest == "" || rest[0] == ':')
    requires !SameLetters(word, "http") && !SameLetters(word, "https")
    ensures Parse(before, url) == (Rejected, Parts("", "", -1, [], map[], ""))
  {
    SameLower(word, "http");
    SameLower(word, "https");
    LowerOfScheme("http");
    LowerOfScheme("https");
    WordIsCut(word, rest);
  }

  /** So is a scheme with nothing between its three characters and a query or fragment. */
  lemma NoHostRejected(before: Parts, url: string, word: string, sep: string, tail: string)
    requires Start(word, sep) && IsTail(tail) && |url| > 7 && TrimBlanks(url) == word + (sep + tail)
    ensures Parse(before, url) == (Rejected, Parts(Lower(word), "", -1, [], map[], ""))
  {
    WordIsPlain(word);
    WordIsCut(word, sep + tail);
    EndAfter(sep, tail);
    assert (sep + tail)[3..3] == "";
    BodyBehindWord(word, sep + tail);
    if tail == "" {
      assert EndOfPath(tail) == 0;
    }
  }

  /** A '?' among the three characters, or a '#' there and no '?' at all, ends nothing: host and path are the rest. */
  lemma DelimiterInSeparator(before: Parts, url: string, word: string, sep: string, rest: string)
    requires IsScheme(Lower(word)) && |sep| == 3 && sep[0] == ':' && rest != ""
    requires '?' in sep || ('#' in sep && '?' !in rest)
    requires |url| > 7 && TrimBlanks(url) == word + (sep + rest)
    ensures var (outcome, b) := Parse(before, url);
      outcome == Accepted && b.host == HostOf(rest) && b.path == PathOf(rest)
      && b.port == PortOf(b.scheme, rest) && b.query == ReadQuery(QueryText(sep + rest))
  {
    var t := sep + rest;
    WordIsPlain(word);
    WordIsCut(word, t);
    FindNone(sep, '?');
    FindNone(sep, '#');
    if '?' in sep {
      var k := Find(sep, '?');
      assert t[..k] == sep[..k];
      FindIs(t, '?', k);
    } else {
      var k := Find(sep, '#');
      FindNone(t, '?');
      assert '?' !in t;
      assert t[..k] == sep[..k];
      FindIs(t, '#', k);
    }
    assert EndOfPath(t) < 3 && t[3..] == rest;
    BodyBehindWord(word, t);
  }

  // ---------------------------------------------------------------- ports that go without saying

  /** Without a ':', or with nothing between it and the path, the port is that of the scheme. */
  lemma DefaultPorts(hp: string)
    ensures ':' !in hp ==> PortOf("http", hp) == 80 && PortOf("https", hp) == 443
    ensures PortText(hp) == "" ==> PortOf("http", hp) == 80 && PortOf("https", hp) == 443
  {
    FindNone(hp, ':');
  }

  lemma EmptyPort(host: string, p: string)
    requires ':' !in host && '/' !in host && (p == "" || p[0] == '/')
    ensures PortText(host + ":" + p) == "" && HostOf(host + ":" + p) == host
  {
    ColonAfter(host, p);
    FindAfter(host + ":", p, '/');
  }

  lemma SchemeByLength(word: string)
    requires IsScheme(Lower(word))
    ensures Lower(word) == if |word| == 4 then "http" else "https"
  {
  }

  /** A text without a port is read with port 80 or 443. */
  lemma PortByScheme(before: Parts, url: string, word: string, sep: string, hp: string, tail: string)
    requires Start(word, sep) && IsHostPath(hp) && IsTail(tail) && (':' !in hp || PortText(hp) == "")
    requires |url| > 7 && TrimBlanks(url) == word + sep + hp + tail
    ensures var (outcome, b) := Parse(before, url);
      outcome == Accepted && b.port == if |word| == 4 then 80 else 443
  {
    ShapeParse(word, sep, hp, tail);
    SchemeByLength(word);
    DefaultPorts(hp);
  }

  lemma ShortDecimals()
    ensures Decimal(80) == "80" && Decimal(443) == "443" && Decimal(-1) == "-1"
  {
    assert Digits(8) == "8" && Digits(4) == "4" && Digits(44) == "44";
  }

  lemma ExplicitPort(host: string, port: string, n: int, path: string)
    requires ':' !in host && '/' !in host && ':' !in path && port == Decimal(n) && INT32_MIN <= n <= INT32_MAX
    ensures var with, without := host + (":" + (port + ("/" + path))), host + ("/" + path);
      HostOf(with) == HostOf(without) == host && PathOf(with) == PathOf(without) && PortText(with) == port
  {
    DecimalIsPlain(n);
    var with := host + ":" + port + ("/" + path);
    assert with == host + (":" + (port + ("/" + path))) == (host + ":" + port) + ("/" + path);
    assert '/' !in port && ':' !in port;
    ScanHost(host, port, "/" + path);
    PathAfter(host + ":" + port, path);
    PathAfter(host, path);
    HostBeforeSlash(host, path);
  }

  lemma ReadWithPort(word: string, sep: string, hp: string, tail: string, n: int)
    requires Start(word, sep) && IsTail(tail) && IsHostPath(hp) && INT32_MIN <= n <= INT32_MAX
    requires PortText(hp) == Decimal(n)
    ensures var scheme := Lower(word);
      ParseTrimmed(word + sep + hp + tail)
      == (Accepted, Parts(scheme, HostOf(hp), n, PathOf(hp), ReadQuery(QueryText(tail)), FragmentText(tail)))
  {
    ShapeParse(word, sep, hp, tail);
    DecimalIsPlain(n);
    AtoiOfDecimal(n, "");
    assert Decimal(n) + "" == Decimal(n);
  }

  lemma ReadWithoutPort(word: string, sep: string, hp: string, tail: string)
    requires Start(word, sep) && IsTail(tail) && IsHostPath(hp) && ':' !in hp
    ensures var scheme, n := Lower(word), if |word| == 4 then 80 else 443;
      ParseTrimmed(word + sep + hp + tail)
      == (Accepted, Parts(scheme, HostOf(hp), n, PathOf(hp), ReadQuery(QueryText(tail)), FragmentText(tail)))
  {
    ShapeParse(word, sep, hp, tail);
    SchemeByLength(word);
    DefaultPorts(hp);
  }

  /** Saying the scheme's own port is the same as leaving it out. */
  lemma ExplicitDefaultPort(word: string, sep: string, host: string, path: string, tail: string)
    requires Start(word, sep) && IsTail(tail) && ':' !in host && '/' !in host && ':' !in path
    requires IsHostPath(host + ("/" + path))
    ensures var port := if |word| == 4 then "80" else "443";
      ParseTrimmed(word + sep + (host + (":" + (port + ("/" + path)))) + tail)
      == ParseTrimmed(word + sep + (host + ("/" + path)) + tail)
  {
    var n := if |word| == 4 then 80 else 443;
    var port := Decimal(n);
    ShortDecimals();
    ExplicitPort(host, port, n, path);
    DecimalIsPlain(n);
    PlainWith(host, port, path);
    ReadWithPort(word, sep, host + (":" + (port + ("/" + path))), tail, n);
    ReadWithoutPort(word, sep, host + ("/" + path), tail);
  }

  lemma PlainWith(host: string, port: string, path: string)
    requires IsHostPath(host + ("/" + path)) && '?' !in port && '#' !in port
    ensures IsHostPath(host + (":" + (port + ("/" + path))))
  {
    assert forall c :: c in host || c in path ==> c in host + ("/" + path);
  }

  /** Port -1 is printed as the scheme's own, any other as it is. */
  lemma PrintedPort(b: Parts)
    requires ':' !in b.host
    ensures b.port == -1 && b.scheme == "http" ==>
      Print(b) == "http" + "://" + (b.host + ":80" + PrintPath(b.path)) + Tail(b)
    ensures b.port == -1 && b.scheme == "https" ==>
      Print(b) == "https" + "://" + (b.host + ":443" + PrintPath(b.path)) + Tail(b)
    ensures b.port != -1 ==>
      Print(b) == b.scheme + "://" + (b.host + ":" + Decimal(b.port) + PrintPath(b.path)) + Tail(b)
  {
    ShortDecimals();
    assert b.host + ":" + "80" == b.host + ":80" && b.host + ":" + "443" == b.host + ":443";
  }

  /** A host with a ':' is printed in brackets. */
  lemma PrintedBrackets(b: Parts)
    requires ':' in b.host && b.port != -1
    ensures Print(b) == b.scheme + "://" + ("[" + b.host + "]:" + Decimal(b.port) + PrintPath(b.path)) + Tail(b)
  {
    assert "[" + b.host + "]" + ":" == "[" + b.host + "]:";
  }

  /** What a new or cleared builder prints. */
  lemma PrintedCleared()
    ensures CLEARED == Parts("", "", -1, [], map[], "") && Print(CLEARED) == "://:-1"
  {
    ShortDecimals();
    assert Tail(CLEARED) == "";
  }

  // ---------------------------------------------------------------- pieces of a query

  /** A piece without '=' is a name with an empty value. */
  lemma BareName(piece: string)
    requires piece != "" && '=' !in piece && '&' !in piece
    ensures ReadQuery(piece) == map[piece := {""}]
  {
    TokensOfPiece(piece, '&');
    FindNone(piece, '=');
    assert piece[..|piece|] == piece && ValuesOf(map[], piece) + {""} == {""};
    assert AddAll(map[], [piece]) == AddAll(Add(map[], piece, ""), [piece][1..]);
  }

  /** Name and value are split at the first '=', the value may hold more of them. */
  lemma SplitAtFirstEquals(name: string, value: string)
    requires name != "" && '=' !in name && '&' !in name && '&' !in value
    ensures ReadQuery(name + "=" + value) == map[name := {value}]
  {
    ReadOne(name, value);
  }

  /** A name without values, which only a map that is not valid holds, is printed bare and not counted. */
  lemma NameWithoutValues(name: string, other: string, value: string)
    ensures PrintEntries([(name, []), (other, [value])], 0, 2) == name + (other + "=" + value + "&")
    ensures PrintQuery(map[name := {}]) == name
  {
    var first, second: Entry := (name, []), (other, [value]);
    assert [first, second][1..] == [second] && [second][1..] == [];
    assert PrintEntries([second], 0, 2) == PrintEntry(second, 0, 2) + PrintEntries([], 1, 2);
    assert PrintValues(other, [value]) == other + "=" + value + "" + PrintValues(other, []);
    AscendingOne(name);
    var m: Query := map[name := {}];
    assert m.Keys == {name} && ValuesOf(m, name) == {} && EntriesOf(m) == [first];
    assert PrintEntries([first], 0, 1) == PrintEntry(first, 0, 1) + PrintEntries([], 0, 1);
  }
}
