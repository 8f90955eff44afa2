/**
  ToString and Parse as a printer and parser pair: exactly when parsing undoes printing.
 */
module UrlTheorems {
  import opened Text
  import opened PathSegments
  import opened QueryMap
  import opened UrlModel
  import opened UrlScanning

  function Normalized(b: Parts): Parts {
    b.(port := EffectivePort(b))
  }

  /** What a caller can check on a clean builder before printing it. */
  ghost predicate Survives(b: Parts) {
    b.path != [] &&
    (b.query == map[] ==> '?' !in b.fragment) &&
    EndsSolid(Print(b))
  }

  // ---------------------------------------------------------------- the round trip

  lemma PathAfter(front: string, text: string)
    requires '/' !in front
    ensures PathOf(front + ("/" + text)) == AddSegments([], text)
  {
    var hp := front + ("/" + text);
    FindAfter(front, "/" + text, '/');
    assert hp[|front| + 1..] == text;
  }

  lemma ScanPath(b: Parts)
    requires CleanParts(b) && b.path != []
    ensures PathOf(Authority(b) + PrintPath(b.path)) == b.path
  {
    PrintPathIsJoin(b.path);
    ScanAuthority(b, "");
    PathAfter(Authority(b), Join(b.path, '/'));
    AddSegmentsOfJoin(b.path);
  }

  lemma FrontFreeOf(scheme: string, hp: string, c: char)
    requires scheme == "http" || scheme == "https"
    requires c != ':' && c != '/' && !('a' <= c <= 'z') && c !in hp
    ensures c !in scheme + "://" + hp
  {
  }

  /** What is parsed off scheme, host and port followed by a path text and a tail. */
  lemma ParseFront(b: Parts, p: string, tail: string)
    requires CleanParts(b)
    requires (p == "" || p[0] == '/') && '?' !in p && '#' !in p
    requires tail == "" || tail[0] == '?' || (tail[0] == '#' && '?' !in tail)
    ensures ParseTrimmed(b.scheme + "://" + (Authority(b) + p) + tail)
         == (Accepted, Parts(b.scheme, b.host, EffectivePort(b), PathOf(Authority(b) + p),
                             ReadQuery(QueryText(tail)), FragmentText(tail)))
  {
    var hp := Authority(b) + p;
    var front := b.scheme + "://" + hp;
    ScanAuthority(b, p);
    LowerOfScheme(b.scheme);
    Scan(b.scheme, "://", hp, tail);
    FrontFreeOf(b.scheme, hp, '?');
    FrontFreeOf(b.scheme, hp, '#');
    assert QueryText(front + tail) == QueryText(tail) by { ScanQuery(front, tail); }
    assert FragmentText(front + tail) == FragmentText(tail) by { ScanFragment(front, tail); }
  }

  /** Parsing the text a clean builder prints, when nothing is trimmed off, rebuilds its fields. */
  lemma ParsePrinted(b: Parts)
    requires CleanParts(b) && b.path != []
    requires b.query == map[] ==> '?' !in b.fragment
    ensures ParseTrimmed(Print(b)) == (Accepted, Normalized(b))
  {
    PrintPathIsJoin(b.path);
    PrintPathFreeOf(b.path, '?');
    PrintPathFreeOf(b.path, '#');
    assert b.query == map[] ==> QueryPart(b.query) + FragmentPart(b.fragment) == FragmentPart(b.fragment);
    ParseFront(b, PrintPath(b.path), QueryPart(b.query) + FragmentPart(b.fragment));
    ScanPath(b);
    TailOfParts(b.query, b.fragment);
  }

  /** Parsing what a clean builder printed rebuilds every field, the port made explicit. */
  lemma RoundTrip(before: Parts, b: Parts)
    requires CleanParts(b) && Survives(b)
    ensures Parse(before, Print(b)) == (Accepted, Normalized(b))
  {
    PrintStart(b);
    TrimBlanksRightPrefix(Print(b));
    assert TrimBlanks(Print(b)) == Print(b);
    ParsePrinted(b);
  }

  // ---------------------------------------------------------------- when it fails

  function Front(b: Parts): string {
    b.scheme + "://" + (Authority(b) + PrintPath(b.path))
  }

  ghost function Tail(b: Parts): string {
    QueryPart(b.query) + FragmentPart(b.fragment)
  }

  lemma LegibleFront(b: Parts)
    requires Legible(b)
    ensures '?' !in Authority(b) + PrintPath(b.path) && '#' !in Authority(b) + PrintPath(b.path)
    ensures '?' !in Front(b) && '#' !in Front(b) && Authority(b) != ""
  {
    DecimalIsPlain(EffectivePort(b));
    PrintPathFreeOf(b.path, '?');
    PrintPathFreeOf(b.path, '#');
    FrontFreeOf(b.scheme, Authority(b) + PrintPath(b.path), '?');
    FrontFreeOf(b.scheme, Authority(b) + PrintPath(b.path), '#');
  }

  lemma PrintFromFront(b: Parts)
    requires CleanParts(b)
    ensures Print(b) == Front(b) + Tail(b)
    ensures Print(b)[|b.scheme| + 3..] == Authority(b) + (PrintPath(b.path) + Tail(b))
    ensures '?' !in Front(b) && '#' !in Front(b)
  {
    var head, a, p := b.scheme + "://", Authority(b), PrintPath(b.path);
    Assoc(head, a + p, Tail(b));
    Assoc(a, p, Tail(b));
    ScanAuthority(b, "");
    PrintPathFreeOf(b.path, '?');
    PrintPathFreeOf(b.path, '#');
    FrontFreeOf(b.scheme, a + p, '?');
    FrontFreeOf(b.scheme, a + p, '#');
  }

  /** A query printed before the fragment, or no '?' in the fragment, keeps '?' the query's own. */
  ghost predicate NoStrayQuestionMark(b: Parts) {
    b.query == map[] ==> '?' !in b.fragment
  }

  lemma AuthorityEndsSolid(b: Parts)
    ensures EndsSolid(Authority(b))
  {
    DecimalIsPlain(EffectivePort(b));
    var port := Decimal(EffectivePort(b));
    assert Authority(b)[|Authority(b)| - 1] == port[|port| - 1];
  }

  lemma TailStart(b: Parts)
    requires NoStrayQuestionMark(b)
    ensures Tail(b) == "" || Tail(b)[0] == '?' || (Tail(b)[0] == '#' && '?' !in Tail(b))
  {
    if b.query == map[] {
      assert Tail(b) == FragmentPart(b.fragment);
    }
  }

  function PathText(init: Path, text: string): string {
    if init == [] then text else Join(init, '/') + "/" + text
  }

  lemma PrintPathAfter(init: Path, text: string)
    ensures PrintPath(init) + "/" + text == "/" + PathText(init, text)
  {
    if init != [] {
      PrintPathIsJoin(init);
    }
  }

  lemma AddPathText(init: Path, text: string)
    requires Normal(init) && FreeOf(init, '/') && '/' !in text
    ensures AddSegments([], PathText(init, text)) == Push(init, text)
  {
    if init == [] {
      AddSegmentsOfPiece([], text);
    } else {
      AddSegmentsConcat([], Join(init, '/'), text);
      AddSegmentsOfJoin(init);
      AddSegmentsOfPiece(init, text);
    }
  }

  lemma PathOfAfter(b: Parts, init: Path, text: string)
    requires CleanParts(b)
    requires Normal(init) && FreeOf(init, '/') && '/' !in text
    ensures PathOf(Authority(b) + (PrintPath(init) + "/" + text)) == Push(init, text)
  {
    PrintPathAfter(init, text);
    AddPathText(init, text);
    ScanAuthority(b, "");
    PathAfter(Authority(b), PathText(init, text));
  }

  lemma PathOfNoSlash(hp: string)
    requires '/' !in hp && ':' in hp
    ensures PathOf(hp) == [hp]
  {
    FindNone(hp, '/');
    AddSegmentsOfPiece([], hp);
  }

  lemma LastSegment(b: Parts) returns (init: Path, last: string)
    requires Legible(b) && b.path != []
    ensures b.path == init + [last] && PrintPath(b.path) == PrintPath(init) + "/" + last
    ensures Normal(init) && FreeOf(init, '/') && FreeOf(init, '?') && FreeOf(init, '#')
    ensures IsName(last) && '/' !in last && '?' !in last && '#' !in last
  {
    init, last := b.path[..|b.path| - 1], b.path[|b.path| - 1];
    assert last in b.path && forall s :: s in init ==> s in b.path;
    PrintPathPush(init, last);
  }

  function StrayHostPath(b: Parts, f0: string): string {
    Authority(b) + (PrintPath(b.path) + "#" + f0)
  }

  /** The path whose last piece, or the authority where there is none, a fragment's first piece joins. */
  function Grown(b: Parts, piece: string): Path {
    Pop(b.path) + [(if b.path == [] then Authority(b) else b.path[|b.path| - 1]) + "#" + piece]
  }

  /**
    What becomes of the path when the text f0 in front of a stray '?' runs on from it: its last piece
    grows to the next slash, and the pieces behind that slash are pushed.
   */
  function StrayPath(b: Parts, f0: string): Path {
    var k := Find(f0, '/');
    if k == |f0| then Grown(b, f0[..k])
    else AddSegments(if b.path == [] then [] else Grown(b, f0[..k]), f0[k + 1..])
  }

  /** The fragment's first piece joins the authority or the last segment; more may follow a slash. */
  lemma StrayAfterAuthority(a: string, p0: string, more: string)
    requires '/' !in a && ':' in a && '/' !in p0 && (more == "" || more[0] == '/')
    ensures PathOf(a + ("#" + (p0 + more))) == if more == "" then [a + "#" + p0] else AddSegments([], more[1..])
  {
    var front := a + "#" + p0;
    assert a + ("#" + (p0 + more)) == front + more;
    if more == "" {
      AppendsNothing(front, more);
      PathOfNoSlash(front);
    } else {
      assert more == "/" + more[1..];
      PathAfter(front, more[1..]);
    }
  }

  lemma PlainAuthority(b: Parts)
    requires CleanParts(b)
    ensures '/' !in Authority(b) && ':' in Authority(b)
  {
    ScanAuthority(b, "");
  }

  lemma StrayAtAuthority(b: Parts, p0: string, more: string)
    requires CleanParts(b) && b.path == [] && '/' !in p0 && (more == "" || more[0] == '/')
    ensures PathOf(StrayHostPath(b, p0 + more)) == if more == "" then Grown(b, p0) else AddSegments([], more[1..])
  {
    PlainAuthority(b);
    StrayAfterAuthority(Authority(b), p0, more);
    assert PrintPath(b.path) + "#" == "#";
    assert Grown(b, p0) == [Authority(b) + "#" + p0];
  }

  lemma GrownPrint(init: Path, last: string, p0: string, more: string)
    ensures PrintPath(init) + "/" + last + "#" + (p0 + more) == PrintPath(init) + "/" + (last + "#" + p0) + more
    ensures PrintPath(init) + "/" + (last + "#" + p0) + more == "/" + (PathText(init, last + "#" + p0) + more)
  {
    var f, grown := PrintPath(init) + "/", last + "#" + p0;
    Assoc(f + last + "#", p0, more);
    Assoc(f, last + "#", p0);
    Assoc(f, last, "#");
    PrintPathAfter(init, grown);
    Assoc("/", PathText(init, grown), more);
  }

  lemma AddGrown(init: Path, piece: string, more: string)
    requires Normal(init) && FreeOf(init, '/') && IsName(piece) && '/' !in piece && (more == "" || more[0] == '/')
    ensures AddSegments([], PathText(init, piece) + more)
         == if more == "" then init + [piece] else AddSegments(init + [piece], more[1..])
  {
    var text := PathText(init, piece);
    AddPathText(init, piece);
    if more == "" {
      AppendsNothing(text, more);
    } else {
      assert text + more == text + "/" + more[1..];
      AddSegmentsConcat([], text, more[1..]);
    }
  }

  lemma StrayAtLastSegment(a: string, init: Path, last: string, p0: string, more: string)
    requires '/' !in a && Normal(init) && FreeOf(init, '/')
    requires '/' !in last && '/' !in p0 && (more == "" || more[0] == '/')
    ensures var grown := init + [last + "#" + p0];
      PathOf(a + (PrintPath(init) + "/" + last + "#" + (p0 + more)))
      == if more == "" then grown else AddSegments(grown, more[1..])
  {
    var piece := last + "#" + p0;
    assert piece[|last|] == '#';
    GrownPrint(init, last, p0, more);
    PathAfter(a, PathText(init, piece) + more);
    AddGrown(init, piece, more);
  }

  lemma StrayAtSegment(b: Parts, p0: string, more: string)
    requires CleanParts(b) && b.path != [] && '/' !in p0 && (more == "" || more[0] == '/')
    ensures PathOf(StrayHostPath(b, p0 + more))
         == if more == "" then Grown(b, p0) else AddSegments(Grown(b, p0), more[1..])
  {
    var init, last := LastSegment(b);
    PlainAuthority(b);
    StrayAtLastSegment(Authority(b), init, last, p0, more);
    assert Grown(b, p0) == init + [last + "#" + p0];
  }

  lemma StrayPathOfPieces(b: Parts, p0: string, more: string)
    requires '/' !in p0 && (more == "" || more[0] == '/')
    ensures StrayPath(b, p0 + more)
         == if more == "" then Grown(b, p0)
            else AddSegments(if b.path == [] then [] else Grown(b, p0), more[1..])
  {
    var f0 := p0 + more;
    FindAfter(p0, more, '/');
    assert f0[..|p0|] == p0 && (more != "" ==> f0[|p0| + 1..] == more[1..]);
  }

  lemma SplitAtSlash(f0: string) returns (p0: string, more: string)
    ensures f0 == p0 + more && '/' !in p0 && (more == "" || more[0] == '/')
  {
    var k := Find(f0, '/');
    p0, more := f0[..k], f0[k..];
  }

  lemma StrayPathIs(b: Parts, f0: string)
    requires CleanParts(b)
    ensures PathOf(StrayHostPath(b, f0)) == StrayPath(b, f0)
  {
    var p0, more := SplitAtSlash(f0);
    StrayPathOfPieces(b, p0, more);
    if b.path == [] {
      StrayAtAuthority(b, p0, more);
    } else {
      StrayAtSegment(b, p0, more);
    }
  }

  /**
    Behind its first slash the text climbs at least one level and then goes down the very names it
    has climbed past; a path without segments takes any climb that goes down nothing.
   */
  predicate ClimbsBack(path: Path, f0: string) {
    '/' in f0 &&
    var m := MoveOf(f0[Find(f0, '/') + 1..]);
    if path == [] then m.down == [] else m.up > 0 && m.down == path[|Climb(path, m.up)|..]
  }

  lemma WalkBack(path: Path, grown: Path, m: Move)
    requires path != [] && |grown| == |path| && Pop(grown) == Pop(path) && grown != path
    ensures Walk(grown, m) == path <==> m.up > 0 && m.down == path[|Climb(path, m.up)|..]
  {
    var n := |Climb(path, m.up)|;
    assert path == path[..n] + path[n..];
    if m.up == 0 {
      assert Walk(grown, m)[..|grown|] == grown && path[..|grown|] == path;
    } else {
      assert Climb(grown, m.up) == Pop(grown)[..n] == Pop(path)[..n] == path[..n];
      if Walk(grown, m) == path {
        assert m.down == Walk(grown, m)[n..];
      }
    }
  }

  /** The text before a stray '?' ends up in the path, and brings the path back only by climbing. */
  lemma StrayPathExactly(b: Parts, f0: string)
    requires CleanParts(b)
    ensures StrayPath(b, f0) == b.path <==> ClimbsBack(b.path, f0)
  {
    var k := Find(f0, '/');
    FindNone(f0, '/');
    if b.path != [] {
      var grown := Grown(b, f0[..k]);
      assert |grown[|grown| - 1]| > |b.path[|b.path| - 1]|;
      if k < |f0| {
        AddSegmentsIsWalk(grown, f0[k + 1..]);
        WalkBack(b.path, grown, MoveOf(f0[k + 1..]));
      }
    } else if k < |f0| {
      AddSegmentsIsWalk([], f0[k + 1..]);
    }
  }

  lemma StrayPrint(b: Parts, f0: string, f1: string)
    requires b.query == map[] && b.fragment == f0 + "?" + f1
    ensures var front := b.scheme + "://" + (Authority(b) + (PrintPath(b.path) + "#" + f0));
      TrimBlanksRight(Print(b)) == front + ("?" + TrimBlanksRight(f1))
  {
    var a, p := Authority(b), PrintPath(b.path);
    var front := b.scheme + "://" + (a + (p + "#" + f0));
    assert Print(b) == front + "?" + f1;
    TrimBlanksRightKeeps(front + "?", f1);
    Assoc(front, "?", TrimBlanksRight(f1));
  }

  lemma ScanHostBeforeHash(host: string, port: string, rest: string) returns (more: string)
    requires ':' !in host && '/' !in host && ':' !in port && '/' !in port && port != ""
    requires rest != "" && rest[0] == '#'
    ensures HostOf(host + ":" + port + rest) == host
    ensures PortText(host + ":" + port + rest) == port + more && (more == "" || more[0] == '#')
  {
    var a, k := host + ":" + port, Find(rest, '/');
    more := rest[..k];
    ColonAfter(host, port + rest);
    Assoc(host + ":", port, rest);
    FindAfter(a, rest, '/');
    HostSlice(host, port, rest, k);
  }

  lemma ColonAfter(host: string, tail: string)
    requires ':' !in host
    ensures Find(host + ":" + tail, ':') == |host| && (host + ":" + tail)[..|host|] == host
  {
    Assoc(host, ":", tail);
    FindAfter(host, ":" + tail, ':');
  }

  lemma HostSlice(host: string, port: string, rest: string, k: nat)
    requires k <= |rest|
    ensures (host + ":" + port + rest)[|host| + 1..|host + ":" + port| + k] == port + rest[..k]
  {
  }

  /** Host and port are found again also when a fragment directly follows them. */
  lemma ScanAuthorityBeforeHash(b: Parts, rest: string)
    requires CleanParts(b) && rest != "" && rest[0] == '#'
    ensures HostOf(Authority(b) + rest) == b.host && PortOf(b.scheme, Authority(b) + rest) == EffectivePort(b)
  {
    var port := Decimal(EffectivePort(b));
    DecimalIsPlain(EffectivePort(b));
    var more := ScanHostBeforeHash(b.host, port, rest);
    AtoiOfDecimal(EffectivePort(b), more);
  }

  lemma QueryAfterHash(f0: string, y: string)
    requires '?' !in f0
    ensures QueryText("#" + f0 + "?" + y) == y
  {
    var hash := "#" + f0;
    var tail := hash + "?" + y;
    Assoc(hash, "?", y);
    FindAfter(hash, "?" + y, '?');
    assert Find(tail, '#') == 0;
    SliceAfter(hash, "?" + y, 1, 1 + |y|);
  }

  lemma StrayTail(head: string, f0: string, y: string)
    requires '?' !in head && '#' !in head && '?' !in f0
    ensures QueryText(head + ("#" + f0 + "?" + y)) == y
    ensures FragmentText(head + ("#" + f0 + "?" + y)) == f0 + "?" + y
  {
    assert QueryText(head + ("#" + f0 + "?" + y)) == y by {
      ScanQuery(head, "#" + f0 + "?" + y);
      QueryAfterHash(f0, y);
    }
    assert "#" + f0 + "?" + y == "#" + (f0 + "?" + y);
    FragmentAfterHash(head, f0 + "?" + y);
  }

  lemma StrayAuthority(b: Parts, f0: string)
    requires CleanParts(b)
    ensures HostOf(StrayHostPath(b, f0)) == b.host && PortOf(b.scheme, StrayHostPath(b, f0)) == EffectivePort(b)
  {
    if b.path == [] {
      assert PrintPath(b.path) + "#" + f0 == "#" + f0;
      ScanAuthorityBeforeHash(b, "#" + f0);
    } else {
      PrintPathIsJoin(b.path);
      ScanAuthority(b, PrintPath(b.path) + "#" + f0);
    }
  }

  /** How a URL with a stray '?' is read back: the path runs on to the '?', the query starts there. */
  lemma ParseStrayText(b: Parts, f0: string, f1: string)
    requires Legible(b) && b.query == map[] && b.fragment == f0 + "?" + f1 && '?' !in f0
    ensures var y, hp := TrimBlanksRight(f1), StrayHostPath(b, f0);
      ParseTrimmed(TrimBlanksRight(Print(b)))
      == (Accepted, Parts(b.scheme, HostOf(hp), PortOf(b.scheme, hp), PathOf(hp), ReadQuery(y), f0 + "?" + y))
  {
    var y, p, hp := TrimBlanksRight(f1), PrintPath(b.path), StrayHostPath(b, f0);
    StrayPrint(b, f0, f1);
    LegibleFront(b);
    LowerOfScheme(b.scheme);
    Scan(b.scheme, "://", hp, "?" + y);
    StrayText(b, f0, y);
    StrayTail(b.scheme + "://" + (Authority(b) + p), f0, y);
  }

  /** With host and port read back, and the path by its segments. */
  lemma ParseStray(b: Parts, f0: string, f1: string)
    requires CleanParts(b) && b.query == map[] && b.fragment == f0 + "?" + f1 && '?' !in f0
    ensures var y := TrimBlanksRight(f1);
      ParseTrimmed(TrimBlanksRight(Print(b)))
      == (Accepted, Parts(b.scheme, b.host, EffectivePort(b), StrayPath(b, f0), ReadQuery(y), f0 + "?" + y))
  {
    ParseStrayText(b, f0, f1);
    StrayAuthority(b, f0);
    StrayPathIs(b, f0);
  }

  lemma StrayText(b: Parts, f0: string, y: string)
    ensures b.scheme + "://" + StrayHostPath(b, f0) + ("?" + y)
         == b.scheme + "://" + (Authority(b) + PrintPath(b.path)) + ("#" + f0 + "?" + y)
  {
  }

  /**
    The rare chance of a fragment with a stray '?': dots in its part before the '?' undo what they
    put in the path, and its part after the '?' names no parameter.
   */
  ghost predicate DotsRepair(b: Parts) {
    b.query == map[] && '?' in b.fragment && EndsSolid(Print(b)) &&
    var k := Find(b.fragment, '?');
    ClimbsBack(b.path, b.fragment[..k]) && NamesNothing(b.fragment[k + 1..])
  }

  /** Without a slash in the fragment there is no such chance. */
  lemma RepairNeedsSlash(b: Parts)
    requires CleanParts(b) && DotsRepair(b)
    ensures '/' in b.fragment
  {
    var k := Find(b.fragment, '?');
    assert forall x <- b.fragment[..k] :: x in b.fragment;
  }

  lemma MoveOfUpDown(name: string)
    requires IsName(name) && '/' !in name
    ensures MoveOf(".." + "/" + name) == Move(1, [name])
  {
    TokensOfPiece(name, '/');
    TokensStep("..", name, '/');
    assert FollowAll(STAY, ["..", name]) == FollowAll(Follow(STAY, ".."), [name]) by {
      assert ["..", name][1..] == [name];
    }
    assert FollowAll(Follow(STAY, ".."), [name]) == Follow(Follow(STAY, ".."), name) by {
      assert [name][1..] == [];
    }
  }

  lemma ClimbsBackToName(name: string)
    requires IsName(name) && '/' !in name
    ensures ClimbsBack([name], "/" + (".." + "/" + name))
  {
    var f0 := "/" + (".." + "/" + name);
    MoveOfUpDown(name);
    assert f0[1..] == ".." + "/" + name && Find(f0, '/') == 0;
    assert f0[0] in f0;
  }

  lemma EndOfFragment(b: Parts)
    requires b.fragment != ""
    ensures EndsSolid(Print(b)) <==> EndsSolid(b.fragment)
  {
    assert Print(b)[|Print(b)| - 1] == b.fragment[|b.fragment| - 1];
  }

  lemma RepairWithoutQuery(b: Parts, f0: string)
    requires b.query == map[] && b.fragment == f0 + "?" && '?' !in f0 && ClimbsBack(b.path, f0)
    ensures DotsRepair(b)
  {
    FindAfter(f0, "?", '?');
    EndOfFragment(b);
    assert b.fragment[..|f0|] == f0 && b.fragment[|f0| + 1..] == "" && b.fragment[|f0|] == '?';
  }

  /** It exists: the fragment "/../a?" behind the path "/a". */
  lemma DotsCanRepair(b: Parts, name: string)
    requires IsName(name) && '/' !in name && '?' !in name
    requires b.path == [name] && b.query == map[] && b.fragment == "/" + (".." + "/" + name) + "?"
    ensures DotsRepair(b)
  {
    ClimbsBackToName(name);
    RepairWithoutQuery(b, "/" + (".." + "/" + name));
  }

  lemma SplitStray(b: Parts) returns (f0: string, f1: string)
    requires !NoStrayQuestionMark(b)
    ensures b.fragment == f0 + "?" + f1 && '?' !in f0
    ensures f0 == b.fragment[..Find(b.fragment, '?')] && f1 == b.fragment[Find(b.fragment, '?') + 1..]
  {
    var k := Find(b.fragment, '?');
    FindNone(b.fragment, '?');
    f0, f1 := b.fragment[..k], b.fragment[k + 1..];
  }

  /** Without a segment the authority itself is read as the path, or as part of its first segment. */
  lemma EmptyPathFails(b: Parts)
    requires CleanParts(b) && b.path == []
    ensures var r := ParseTrimmed(TrimBlanksRight(Print(b))).1;
      r.path == if NoStrayQuestionMark(b) then [Authority(b)] else StrayPath(b, b.fragment[..Find(b.fragment, '?')])
  {
    if NoStrayQuestionMark(b) {
      EmptyPathIsAuthority(b);
    } else {
      var f0, f1 := SplitStray(b);
      ParseStray(b, f0, f1);
    }
  }

  lemma EmptyPathIsAuthority(b: Parts)
    requires CleanParts(b) && NoStrayQuestionMark(b) && b.path == []
    ensures ParseTrimmed(TrimBlanksRight(Print(b))).1.path == [Authority(b)]
  {
    var tail := TrimBlanksRight(Tail(b));
    AuthorityEndsSolid(b);
    assert Front(b) == b.scheme + "://" + Authority(b) == b.scheme + "://" + (Authority(b) + "");
    TrimBlanksRightKeeps(Front(b), Tail(b));
    TrimBlanksRightPrefix(Tail(b));
    TailStart(b);
    ParseFront(b, "", tail);
    ScanAuthority(b, "");
    assert Authority(b) + "" == Authority(b);
    PathOfNoSlash(Authority(b));
  }

  lemma StrayRoundTrip(b: Parts)
    requires CleanParts(b) && !NoStrayQuestionMark(b)
    ensures ParseTrimmed(TrimBlanksRight(Print(b))) == (Accepted, Normalized(b)) <==> DotsRepair(b)
  {
    var f0, f1 := SplitStray(b);
    ParseStray(b, f0, f1);
    StrayEnd(b, f0, f1);
    StrayPathExactly(b, f0);
    ReadsNothing(f1);
  }

  lemma StrayEnd(b: Parts, f0: string, f1: string)
    requires b.query == map[] && b.fragment == f0 + "?" + f1
    ensures EndsSolid(Print(b)) <==> TrimBlanksRight(f1) == f1
    ensures f0 + "?" + TrimBlanksRight(f1) == b.fragment <==> TrimBlanksRight(f1) == f1
  {
    var t, y := Print(b), TrimBlanksRight(f1);
    TrimBlanksRightPrefix(f1);
    assert t[|t| - 1] == b.fragment[|b.fragment| - 1];
    assert |f0 + "?" + y| == |f0| + 1 + |y| && |b.fragment| == |f0| + 1 + |f1|;
    assert f1 != "" ==> b.fragment[|b.fragment| - 1] == f1[|f1| - 1];
  }

  lemma FragmentAfterHash(query: string, y: string)
    requires '#' !in query
    ensures FragmentText(query + ("#" + y)) == y
  {
    ScanFragment(query, "#" + y);
  }

  lemma QueryPartFreeOfHash(m: Query)
    requires QueryMap.Clean(m)
    ensures '#' !in QueryPart(m)
  {
    PrintQueryFreeOfHash(m);
  }

  lemma TrimmedFragmentFails(b: Parts)
    requires CleanParts(b) && b.fragment != "" && !EndsSolid(Print(b))
    ensures ParseTrimmed(TrimBlanksRight(Print(b))).1.fragment != b.fragment
  {
    if NoStrayQuestionMark(b) {
      TrimmedOrdinaryFragment(b);
    } else {
      var f0, f1 := SplitStray(b);
      ParseStray(b, f0, f1);
      StrayEnd(b, f0, f1);
    }
  }

  lemma TrimmedOrdinaryFragment(b: Parts)
    requires Legible(b) && NoStrayQuestionMark(b) && b.fragment != "" && !EndsSolid(Print(b))
    ensures ParseTrimmed(TrimBlanksRight(Print(b))).1.fragment != b.fragment
  {
    var q, y := QueryPart(b.query), TrimBlanksRight(b.fragment);
    var front := Front(b) + (q + "#");
    assert Print(b) == front + b.fragment by {
      Assoc(q, "#", b.fragment);
      Assoc(Front(b), q + "#", b.fragment);
    }
    TrimCuts(front, b.fragment);
    assert front + y == Front(b) + (q + ("#" + y)) by {
      Assoc(q, "#", y);
      Assoc(Front(b), q + "#", y);
    }
    QueryPartFreeOfHash(b.query);
    assert b.query == map[] ==> '?' !in q + ("#" + y);
    CutTailFront(b, q + ("#" + y));
    FragmentAfterHash(q, y);
  }

  /** The front part is read in full whatever tail follows it. */
  lemma CutTailFront(b: Parts, tail: string)
    requires Legible(b)
    requires tail == "" || tail[0] == '?' || (tail[0] == '#' && '?' !in tail)
    ensures ParseTrimmed(Front(b) + tail).1.fragment == FragmentText(tail)
    ensures ParseTrimmed(Front(b) + tail).1.query == ReadQuery(QueryText(tail))
  {
    LegibleFront(b);
    LowerOfScheme(b.scheme);
    Scan(b.scheme, "://", Authority(b) + PrintPath(b.path), tail);
    ScanQuery(Front(b), tail);
    ScanFragment(Front(b), tail);
  }

  lemma QueryWithoutFragment(query: string)
    requires '#' !in query
    ensures QueryText("?" + query) == query
  {
    QueryOfTail(query, "");
    assert "?" + query + "" == "?" + query;
  }

  lemma JoinEnd(init: seq<string>, last: string)
    ensures Join(init + [last], '&') == (if init == [] then "" else Join(init, '&') + "&") + last
  {
    if init == [] {
      assert init + [last] == [last];
    } else {
      JoinAppend(init, [last], '&');
    }
  }

  function QueryFront(init: seq<string>, name: string): string {
    (if init == [] then "" else Join(init, '&') + "&") + (name + "=")
  }

  lemma JoinParam(init: seq<string>, name: string, value: string)
    ensures Join(init + [Param(name, value)], '&') == QueryFront(init, name) + value
  {
    JoinEnd(init, Param(name, value));
    Assoc(if init == [] then "" else Join(init, '&') + "&", name + "=", value);
  }

  lemma PrintWithoutFragment(b: Parts)
    requires b.fragment == ""
    ensures Print(b) == Front(b) + QueryPart(b.query)
  {
    assert QueryPart(b.query) + "" == QueryPart(b.query);
  }

  lemma TrimmedQueryText(b: Parts, qf: string, value: string)
    requires b.fragment == "" && b.query != map[] && PrintQuery(b.query) == qf + value
    requires EndsSolid(qf) && !EndsSolid(Print(b))
    ensures TrimBlanksRight(value) < value
    ensures TrimBlanksRight(Print(b)) == Front(b) + ("?" + (qf + TrimBlanksRight(value)))
  {
    var front, cut := Front(b) + ("?" + qf), TrimBlanksRight(value);
    Assoc("?", qf, value);
    Assoc(Front(b), "?" + qf, value);
    PrintWithoutFragment(b);
    assert front[|front| - 1] == qf[|qf| - 1];
    TrimCuts(front, value);
    Assoc("?", qf, cut);
    Assoc(Front(b), "?" + qf, cut);
  }

  lemma TrimmedQueryFails(b: Parts)
    requires Legible(b) && b.fragment == "" && b.query != map[] && !EndsSolid(Print(b))
    ensures ParseTrimmed(TrimBlanksRight(Print(b))).1.query != b.query
  {
    var init, name, value := LastPrinted(b.query);
    var cut, qf := TrimBlanksRight(value), QueryFront(init, name);
    JoinParam(init, name, value);
    TrimmedQueryText(b, qf, value);
    assert '#' !in qf + cut by {
      PrintQueryFreeOfHash(b.query);
      assert qf + cut <= qf + value;
      PrefixFreeOf(qf + cut, qf + value, '#');
    }
    CutTailFront(b, "?" + (qf + cut));
    QueryWithoutFragment(qf + cut);
    JoinParam(init, name, cut);
    CutParamSeparable(init, name, value, cut);
    CutTokensMiss(init, name, value, cut);
  }

  lemma PrintWithoutTail(b: Parts, pf: string, last: string)
    requires b.fragment == "" && b.query == map[] && PrintPath(b.path) == pf + last
    ensures Print(b) == b.scheme + "://" + (Authority(b) + pf) + last
  {
    Assoc(Authority(b), pf, last);
    Assoc(b.scheme + "://", Authority(b) + pf, last);
    assert Print(b) == b.scheme + "://" + (Authority(b) + PrintPath(b.path)) + "";
  }

  lemma TrimmedPathText(b: Parts, init: Path, last: string)
    requires b.fragment == "" && b.query == map[] && PrintPath(b.path) == PrintPath(init) + "/" + last
    requires !EndsSolid(Print(b))
    ensures TrimBlanksRight(Print(b))
         == b.scheme + "://" + (Authority(b) + (PrintPath(init) + "/" + TrimBlanksRight(last))) + ""
    ensures TrimBlanksRight(last) < last
  {
    var cut, pf := TrimBlanksRight(last), PrintPath(init) + "/";
    var front := b.scheme + "://" + (Authority(b) + pf);
    PrintWithoutTail(b, pf, last);
    assert front[|front| - 1] == '/';
    TrimCuts(front, last);
    Assoc(Authority(b), pf, cut);
    Assoc(b.scheme + "://", Authority(b) + pf, cut);
  }

  lemma TrimmedPathFails(b: Parts)
    requires CleanParts(b) && b.fragment == "" && b.query == map[] && b.path != [] && !EndsSolid(Print(b))
    ensures ParseTrimmed(TrimBlanksRight(Print(b))).1.path != b.path
  {
    var init, last := LastSegment(b);
    var cut := TrimBlanksRight(last);
    TrimmedPathText(b, init, last);
    PrintPathAfter(init, cut);
    PrintPathFreeOf(init, '?');
    PrintPathFreeOf(init, '#');
    ParseFront(b, PrintPath(init) + "/" + cut, "");
    PathOfAfter(b, init, cut);
    assert |Push(init, cut)| == |b.path| ==> Push(init, cut)[|init|] == cut;
  }

  /**
    For a clean builder the round trip holds exactly when Survives does - there is a segment, no '?'
    of the fragment passes for the query's, and no blank is printed last - or by the rare chance that
    DotsRepair describes.
   */
  lemma RoundTripExactly(before: Parts, b: Parts)
    requires CleanParts(b)
    ensures Parse(before, Print(b)) == (Accepted, Normalized(b)) <==> Survives(b) || DotsRepair(b)
  {
    PrintStart(b);
    if Survives(b) {
      RoundTrip(before, b);
    } else if !NoStrayQuestionMark(b) {
      StrayRoundTrip(b);
    } else if b.path == [] {
      EmptyPathFails(b);
    } else if b.fragment != "" {
      TrimmedFragmentFails(b);
    } else if b.query != map[] {
      TrimmedQueryFails(b);
    } else {
      TrimmedPathFails(b);
    }
  }
}
