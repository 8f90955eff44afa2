/**
  The classes HttpUrl::Builder and HttpUrl. String positions are size_t values here: npos is the
  greatest of them, and sums and differences wrap around as they do in C++.
 */
module HttpUrls {
  import opened Text
  import opened PathSegments
  import Q = QueryMap
  import U = UrlModel

  // ---------------------------------------------------------------- size_t

  const SIZE_MOD: int := 0x1_0000_0000_0000_0000
  const NPOS: nat := SIZE_MOD - 1
  const MAX_SIZE: nat := 0x7FFF_FFFF_FFFF_FFFF

  function Plus(a: nat, b: nat): nat {
    (a + b) % SIZE_MOD
  }

  function Minus(a: nat, b: nat): nat {
    (a - b) % SIZE_MOD
  }

  /** std::string::find of one character. */
  function FindOrNpos(s: string, c: char): nat {
    if Find(s, c) == |s| then NPOS else Find(s, c)
  }

  function FindFromOrNpos(s: string, c: char, start: nat): nat {
    if |s| < start || FindFrom(s, c, start) == |s| then NPOS else FindFrom(s, c, start)
  }

  datatype Substring = OutOfRange | Piece(text: string)

  /** std::string::substr: throws when the position lies past the end, and cuts the count to fit. */
  function Substr(s: string, pos: nat, count: nat): Substring {
    if |s| < pos then OutOfRange
    else Piece(s[pos..if count < |s| - pos then pos + count else |s|])
  }

  /** substr with a computed count: an end before the start wraps around and means the rest. */
  lemma SubstrBetween(s: string, start: nat, end: nat)
    requires start <= |s| <= MAX_SIZE && end <= |s|
    ensures Substr(s, start, Minus(end, start)) == Piece(if end < start then s[start..] else s[start..end])
  {
    assert s[start..|s|] == s[start..];
    if end < start {
      assert Minus(end, start) == end - start + SIZE_MOD;
    } else {
      assert Minus(end, start) == end - start;
    }
  }

  // ---------------------------------------------------------------- Builder

  class Builder {
    var scheme: string
    var host: string
    var port: int
    var path: seq<string>
    var query: map<string, set<string>>
    var fragment: string

    ghost function Parts(): U.Parts
      reads this
    {
      U.Parts(scheme, host, port, path, query, fragment)
    }

    /** What every operation keeps. */
    ghost predicate Valid()
      reads this
    {
      scheme in {"", "http", "https"} && INT32_MIN <= port <= INT32_MAX && Normal(path) && Q.Valid(query)
    }

    constructor ()
      ensures Valid() && Parts() == U.CLEARED
    {
      scheme, host, port, path, query, fragment := "", "", -1, [], map[], "";
    }

    method Clear()
      modifies this
      ensures Valid() && Parts() == U.CLEARED
    {
      scheme, host, port, path, query, fragment := "", "", -1, [], map[], "";
    }

    method SetScheme(name: string)
      requires Valid()
      modifies this`scheme
      ensures Valid() && scheme == (if name == "https" then "https" else "http")
    {
      if name == "" {
        scheme := "http";
      }
      if name == "http" {
        scheme := "http";
      } else if name == "https" {
        scheme := "https";
      } else {
        scheme := "http";
      }
    }

    method SetPort(number: int)
      requires Valid()
      modifies this`port
      ensures Valid() && port == (if 1 <= number <= 65535 then number else -1)
    {
      if number <= 0 || number > 65535 {
        port := -1;
      } else {
        port := number;
      }
    }

    method Pop()
      requires Valid()
      modifies this`path
      ensures Valid() && path == PathSegments.Pop(old(path))
    {
      if path != [] {
        path := path[..|path| - 1];
      }
    }

    method Push(segment: string)
      requires Valid()
      modifies this`path
      ensures Valid() && path == PathSegments.Push(old(path), segment)
    {
      if segment == "" {
        return;
      }
      if segment == "." {
        return;
      }
      if segment == ".." {
        Pop();
        return;
      }
      path := path + [segment];
    }

    method AddEncodedPathSegment(segment: string)
      requires Valid()
      modifies this`path
      ensures Valid() && path == PathSegments.Push(old(path), segment)
    {
      if segment == "" {
        return;
      }
      Push(segment);
    }

    method AddEncodedPathSegments(text: string)
      requires Valid()
      modifies this`path
      ensures Valid() && path == AddSegments(old(path), text)
    {
      if text == "" {
        return;
      }
      var ss := Tokens(text, '/');
      for i := 0 to |ss|
        invariant Valid() && path == PushAll(old(path), ss[..i])
      {
        PushAllAppend(old(path), ss[..i], [ss[i]]);
        assert ss[..i + 1] == ss[..i] + [ss[i]];
        assert PushAll(path, [ss[i]]) == PushAll(PathSegments.Push(path, ss[i]), [ss[i]][1..]);
        if ss[i] != "" {
          Push(ss[i]);
        }
      }
      assert ss[..|ss|] == ss;
    }

    /** Replaces one segment; a dot segment or an index out of range changes nothing. */
    method SetEncodedPathSegment(index: int, segment: string)
      requires Valid()
      modifies this`path
      ensures Valid()
      ensures path == if IsName(segment) && 0 <= index < |old(path)| then old(path)[index := segment] else old(path)
    {
      if segment == "" {
        return;
      }
      if segment == "." || segment == ".." {
        return;
      }
      if index < 0 || index >= |path| {
        return;
      }
      path := path[index := segment];
    }

    method RemovePathSegment(index: int)
      requires Valid()
      modifies this`path
      ensures Valid()
      ensures path == if 0 <= index < |old(path)| then old(path)[..index] + old(path)[index + 1..] else old(path)
    {
      if index < 0 || index >= |path| {
        return;
      }
      path := path[..index] + path[index + 1..];
    }

    method AddEncodedQueryParameter(name: string, value: string)
      requires Valid()
      modifies this`query
      ensures Valid() && query == Q.Add(old(query), name, value)
    {
      if name == "" {
        return;
      }
      if name !in query {
        var values := {value};
        query := query[name := values];
        assert {} + {value} == values;
      } else {
        query := query[name := query[name] + {value}];
      }
    }

    method RemoveEncodedQueryParameter(name: string, value: string)
      requires Valid()
      modifies this`query
      ensures Valid() && query == Q.Remove(old(query), name, value)
    {
      if name == "" {
        return;
      }
      if name in query {
        var rest := query[name] - {value};
        if rest == {} {
          query := query - {name};
        } else {
          query := query[name := rest];
        }
      }
    }

    method RemoveEncodedQueryName(name: string)
      requires Valid()
      modifies this`query
      ensures Valid() && query == Q.RemoveName(old(query), name)
    {
      if name == "" {
        return;
      }
      query := query - {name};
    }

    method AddEncodedFragment(text: string)
      requires Valid()
      modifies this`fragment
      ensures Valid() && fragment == (if text == "" then old(fragment) else text)
    {
      if text == "" {
        return;
      }
      fragment := text;
    }

    // ---------------------------------------------------------------- Parse

    /** Reads the pieces of a query; name and value are split at the first '='. */
    method AddQueryText(text: string)
      requires Valid()
      modifies this`query
      ensures Valid() && query == Q.AddAll(old(query), Tokens(text, '&'))
    {
      var ss := Tokens(text, '&');
      for i := 0 to |ss|
        invariant Valid() && query == Q.AddAll(old(query), ss[..i])
      {
        var s := ss[i];
        Q.AddAllAppend(old(query), ss[..i], [s]);
        assert ss[..i + 1] == ss[..i] + [s];
        assert Q.AddAll(query, [s]) == Q.AddAll(Q.Add(query, Q.NameOf(s), Q.ValueOf(s)), [s][1..]);
        if s != "" {
          var p := Find(s, '=');
          if p < |s| {
            AddEncodedQueryParameter(s[..p], s[p + 1..]);
          } else {
            assert s[..|s|] == s;
            AddEncodedQueryParameter(s, "");
          }
        }
      }
      assert ss[..|ss|] == ss;
    }

    /** The host+path part of Parse: where it ends, and the text substr cuts out. */
    static method CutHostPath(url: string, pathStart: nat) returns (hostPath: Substring)
      requires |url| <= MAX_SIZE && pathStart <= 8
      ensures hostPath == if |url| < pathStart then OutOfRange else Piece(U.HostPath(url, pathStart))
    {
      var pathEnd := FindOrNpos(url, '?');
      if pathEnd == NPOS {
        pathEnd := FindOrNpos(url, '#');
      }
      if pathEnd == NPOS {
        pathEnd := |url|;
      }
      hostPath := Substr(url, pathStart, Minus(pathEnd, pathStart));
      if pathStart <= |url| {
        SubstrBetween(url, pathStart, pathEnd);
      }
    }

    static method CutPort(hostPath: string) returns (text: string)
      requires |hostPath| <= MAX_SIZE && Find(hostPath, ':') < |hostPath|
      ensures text == U.PortText(hostPath)
    {
      var portStart := FindOrNpos(hostPath, ':');
      var portEnd := FindOrNpos(hostPath, '/');
      SubstrBetween(hostPath, portStart + 1, Find(hostPath, '/'));
      if portEnd == NPOS {
        text := hostPath[portStart + 1..];
        assert text == hostPath[portStart + 1..|hostPath|];
      } else {
        var cut := Substr(hostPath, portStart + 1, Minus(portEnd, portStart + 1));
        text := cut.text;
      }
    }

    method SplitAuthority(hostPath: string)
      requires Valid() && |hostPath| <= MAX_SIZE
      modifies this`host, this`port
      ensures Valid() && host == U.HostOf(hostPath) && port == U.PortOf(scheme, hostPath)
    {
      var portStart := FindOrNpos(hostPath, ':');
      var pathStart := FindOrNpos(hostPath, '/');
      if portStart == NPOS {
        port := U.DefaultPort(scheme);
        if pathStart == NPOS {
          host := hostPath;
          assert hostPath[..|hostPath|] == hostPath;
        } else {
          host := hostPath[..pathStart];
        }
      } else {
        host := hostPath[..portStart];
        var portText := CutPort(hostPath);
        if portText != "" {
          port := Atoi(portText);
        } else {
          port := U.DefaultPort(scheme);
        }
      }
    }

    /** npos + 1 is 0: without a '/' all of hostPath is added. */
    method AddPathOf(hostPath: string)
      requires Valid() && |hostPath| <= MAX_SIZE && path == []
      modifies this`path
      ensures Valid() && path == U.PathOf(hostPath)
    {
      var pathStart := FindOrNpos(hostPath, '/');
      var restStart := Plus(pathStart, 1);
      assert restStart == if pathStart == NPOS then 0 else pathStart + 1;
      var rest := hostPath[restStart..];
      assert rest == if pathStart == NPOS then hostPath else hostPath[pathStart + 1..];
      assert U.PathOf(hostPath) == AddSegments([], rest);
      if rest != "" {
        AddEncodedPathSegments(rest);
      }
    }

    /** The text between '?' and '#'. */
    static method CutQuery(url: string) returns (text: string)
      requires |url| <= MAX_SIZE
      ensures text == U.QueryText(url)
    {
      var queryStart := FindOrNpos(url, '?');
      var fragmentStart := FindOrNpos(url, '#');
      text := "";
      if queryStart != NPOS {
        if fragmentStart == NPOS {
          text := url[queryStart + 1..];
          assert url[queryStart + 1..|url|] == text;
        } else {
          SubstrBetween(url, queryStart + 1, fragmentStart);
          var cut := Substr(url, queryStart + 1, Minus(fragmentStart, queryStart + 1));
          text := cut.text;
          assert url[queryStart + 1..|url|] == url[queryStart + 1..];
        }
      }
    }

    method ReadTail(url: string)
      requires Valid() && |url| <= MAX_SIZE && query == map[] && fragment == ""
      modifies this`query, this`fragment
      ensures Valid() && query == Q.ReadQuery(U.QueryText(url)) && fragment == U.FragmentText(url)
    {
      var queryText := CutQuery(url);
      if queryText != "" {
        AddQueryText(queryText);
      }
      var fragmentStart := FindOrNpos(url, '#');
      if fragmentStart != NPOS {
        AddEncodedFragment(url[fragmentStart + 1..]);
      }
    }

    method ReadScheme(url: string) returns (known: bool)
      requires Valid() && scheme == "" && |url| <= MAX_SIZE
      modifies this`scheme
      ensures Valid()
      ensures var word := U.Lower(url[..Find(url, ':')]);
        known == (word == "http" || word == "https") && scheme == if known then word else ""
    {
      var word := Substr(url, 0, FindOrNpos(url, ':')).text;
      assert word == url[..Find(url, ':')];
      if word == "" {
        return false;
      }
      word := U.Lower(word);
      if word == "http" {
        scheme := "http";
      } else if word == "https" {
        scheme := "https";
      } else {
        return false;
      }
      return true;
    }

    method ReadParts(hostPath: string, url: string)
      requires Valid() && Parts() == U.CLEARED.(scheme := scheme)
      requires |url| <= MAX_SIZE && |hostPath| <= MAX_SIZE
      modifies this`host, this`port, this`path, this`query, this`fragment
      ensures Valid() && Parts() == U.Assemble(scheme, hostPath, url)
    {
      SplitAuthority(hostPath);
      AddPathOf(hostPath);
      ReadTail(url);
    }

    /** From the scheme on, for text already trimmed. */
    method ParseTrimmed(url: string) returns (outcome: U.Outcome)
      requires Valid() && Parts() == U.CLEARED && |url| <= MAX_SIZE
      modifies this
      ensures Valid()
      ensures (outcome, Parts()) == U.ParseTrimmed(url)
    {
      var known := ReadScheme(url);
      if !known {
        return U.Rejected;
      }
      var hostPath := CutHostPath(url, |scheme| + 3);
      if hostPath == OutOfRange {
        return U.OutOfRange;
      }
      if hostPath.text == "" {
        return U.Rejected;
      }
      ReadParts(hostPath.text, url);
      return U.Accepted;
    }

    method Parse(text: string) returns (outcome: U.Outcome)
      requires Valid() && |text| <= MAX_SIZE
      modifies this
      ensures Valid()
      ensures (outcome, Parts()) == U.Parse(old(Parts()), text)
    {
      if text == "" || |text| <= 7 {
        return U.Rejected;
      }

      Clear();

      var url := text;
      url := TrimLeft(url, ' ');
      url := TrimLeft(url, '\t');
      url := TrimLeft(url, '\n');
      url := TrimLeft(url, FORM_FEED);
      url := TrimLeft(url, '\r');

      url := TrimRight(url, ' ');
      url := TrimRight(url, '\t');
      url := TrimRight(url, '\n');
      url := TrimRight(url, FORM_FEED);
      url := TrimRight(url, '\r');
      assert url == TrimBlanks(text);
      TrimBlanksShrinks(text);
      outcome := ParseTrimmed(url);
    }

    // ---------------------------------------------------------------- ToString

    method PrintSegments() returns (text: string)
      ensures text == PrintPath(path)
    {
      text := "";
      for i := 0 to |path|
        invariant text == PrintPath(path[..i])
      {
        PrintPathPush(path[..i], path[i]);
        assert path[..i + 1] == path[..i] + [path[i]];
        text := text + "/";
        text := text + path[i];
      }
      assert path[..|path|] == path;
    }

    /** The inner loop of ToString: the values of one name, in ascending order. */
    static method PrintValuesOf(name: string, values: set<string>) returns (text: string)
      ensures text == Q.PrintValues(name, Ascending(values))
    {
      text := "";
      var valuesIndex := 0;
      var remaining := values;
      assert text + Q.PrintValues(name, Ascending(remaining)) == Q.PrintValues(name, Ascending(values));
      while remaining != {}
        invariant valuesIndex + |remaining| == |values|
        invariant text + Q.PrintValues(name, Ascending(remaining)) == Q.PrintValues(name, Ascending(values))
        decreases |remaining|
      {
        LeastExists(remaining);
        var value :| value in remaining && IsLeast(value, remaining);
        AscendingStep(remaining, value);
        ghost var before, rest := text, Ascending(remaining - {value});
        text := text + name;
        text := text + "=";
        text := text + value;
        valuesIndex := valuesIndex + 1;
        if valuesIndex < |values| {
          text := text + "&";
        }
        Q.PrintValuesStep(before, name, value, rest, text);
        remaining := remaining - {value};
      }
    }

    /** One round of the outer loop of ToString. */
    method PrintParameter(name: string, paramIndex: nat) returns (text: string, index: nat)
      requires name in query
      ensures text == Q.PrintEntry(Q.EntryOf(query, name), paramIndex, |query|)
      ensures index == if query[name] == {} then paramIndex else paramIndex + 1
    {
      var values := query[name];
      index := paramIndex;
      if values == {} {
        text := name;
      } else {
        text := PrintValuesOf(name, values);
        index := index + 1;
        if index < |query| {
          text := text + "&";
        }
      }
    }

    /** The outer loop of ToString: the names in ascending order. */
    method PrintParameters() returns (text: string)
      ensures text == Q.PrintQuery(query)
    {
      ghost var entries := Q.EntriesOf(query);
      text := "";
      var paramIndex := 0;
      var remaining := query.Keys;
      ghost var i, rest := 0, Q.PrintQuery(query);
      assert Q.NamesOf(query)[0..] == Q.NamesOf(query) && entries[0..] == entries;
      assert text + rest == rest;
      while remaining != {}
        invariant i <= |query| && Ascending(remaining) == Q.NamesOf(query)[i..]
        invariant rest == Q.PrintEntries(entries[i..], paramIndex, |query|)
        invariant text + rest == Q.PrintQuery(query)
        decreases |remaining|
      {
        LeastExists(remaining);
        var name :| name in remaining && IsLeast(name, remaining);
        Q.NextName(query, remaining, i, name);
        Q.PrintEntriesStep(text, entries, i, paramIndex, |query|);
        var parameter, index := PrintParameter(name, paramIndex);
        text, paramIndex := text + parameter, index;
        remaining, i := remaining - {name}, i + 1;
        rest := Q.PrintEntries(entries[i..], paramIndex, |query|);
      }
      assert text + "" == text;
    }

    method PrintAuthority() returns (text: string)
      ensures text == U.Authority(Parts())
    {
      if ':' in host {
        text := "[";
        text := text + host;
        text := text + "]";
      } else {
        text := host;
      }
      var number := if port == -1 then U.DefaultPort(scheme) else port;
      text := text + ":";
      text := text + Decimal(number);
    }

    method PrintTail() returns (text: string)
      ensures text == U.QueryPart(query) + U.FragmentPart(fragment)
    {
      text := "";
      if query != map[] {
        text := "?";
        var parameters := PrintParameters();
        text := text + parameters;
      }
      var hash := "";
      if fragment != "" {
        hash := "#";
        hash := hash + fragment;
      }
      text := text + hash;
    }

    method ToString() returns (url: string)
      ensures url == U.Print(Parts())
    {
      url := scheme;
      url := url + "://";
      var authority := PrintAuthority();
      var segments := PrintSegments();
      url := url + (authority + segments);
      var tail := PrintTail();
      url := url + tail;
    }
  }

  // ---------------------------------------------------------------- HttpUrl

  class HttpUrl {
    var url: string
    var scheme: string
    var host: string
    var port: int
    var path: seq<string>
    var query: map<string, set<string>>
    var fragment: string

    /** The fields are those of some parts and url is their printed form. */
    ghost predicate Shows(b: U.Parts)
      reads this
    {
      U.Parts(scheme, host, port, path, query, fragment) == b && url == U.Print(b)
    }

    /** Init: copies the builder's fields and prints it. */
    constructor (builder: Builder)
      ensures Shows(builder.Parts())
    {
      scheme, host, port := builder.scheme, builder.host, builder.port;
      path, query, fragment := builder.path, builder.query, builder.fragment;
      new;
      var text := builder.ToString();
      url := text;
    }

    /** Parses; a rejected text is ignored and leaves the builder's fields as they are. */
    static method FromText(text: string) returns (u: HttpUrl?)
      requires |text| <= MAX_SIZE
      ensures u == null <==> U.Parse(U.CLEARED, text).0 == U.OutOfRange
      ensures u != null ==> fresh(u) && u.Shows(U.Parse(U.CLEARED, text).1)
    {
      var builder := new Builder();
      var outcome := builder.Parse(text);
      if outcome == U.OutOfRange {
        return null;
      }
      u := new HttpUrl(builder);
    }

    method EncodedPath() returns (text: Substring)
      requires |url| <= MAX_SIZE && |scheme| <= 5
      ensures var (outcome, expected) := U.EncodedPath(url, scheme);
        text == if outcome == U.OutOfRange then OutOfRange else Piece(expected)
    {
      var pathStart := FindFromOrNpos(url, '/', |scheme| + 3);
      var pathEnd := FindOrNpos(url, '?');
      if pathEnd == NPOS {
        pathEnd := FindOrNpos(url, '#');
      }
      if pathEnd == NPOS {
        pathEnd := |url|;
      }
      text := Substr(url, pathStart, Minus(pathEnd, pathStart));
      if pathStart != NPOS {
        SubstrBetween(url, pathStart, pathEnd);
      }
    }

    method EncodedQuery() returns (text: string)
      requires |url| <= MAX_SIZE
      ensures text == U.EncodedQuery(url)
    {
      text := Builder.CutQuery(url);
    }
  }
}
