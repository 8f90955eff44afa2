/**
  Hosts with a slash, which Parse makes of text with a ':' in the path alone: the part behind the slash
  and the port are read as segments in front of the path.
 */
module UrlSlashHost {
  import opened Text
  import opened PathSegments
  import opened QueryMap
  import opened UrlModel
  import opened UrlScanning
  import opened UrlTheorems
  import opened UrlParsed

  /** A last piece with ':' stays on the stack whatever is pushed before it, and lies on top. */
  lemma {:induction false} ColonPieceStays(path: Path, h: string, port: string)
    requires '/' !in port && port != ""
    ensures var a := AddSegments(path, h + ":" + port);
      a != [] && a[|a| - 1] != "" && a[|a| - 1][|a[|a| - 1]| - 1] == port[|port| - 1]
    decreases |h|
  {
    var i := Find(h, '/');
    if i == |h| {
      FindNone(h, '/');
      var piece := h + ":" + port;
      assert piece[i] == ':' && piece[|piece| - 1] == port[|port| - 1];
      AddSegmentsOfPiece(path, piece);
    } else {
      var rest := h[i + 1..] + ":" + port;
      assert h + ":" + port == h[..i] + "/" + rest;
      AddSegmentsConcat(path, h[..i], rest);
      ColonPieceStays(AddSegments(path, h[..i]), h[i + 1..], port);
    }
  }

  lemma AddPrinted(text: string, path: Path)
    requires Normal(path) && FreeOf(path, '/')
    ensures AddSegments([], text + PrintPath(path)) == AddSegments([], text) + path
  {
    if path == [] {
      assert text + PrintPath(path) == text;
    } else {
      PrintPathIsJoin(path);
      assert text + PrintPath(path) == text + "/" + Join(path, '/');
      AddSegmentsConcat([], text, Join(path, '/'));
      assert forall i :: 0 <= i < |path| ==> path[i] in path;
      TokensOfJoin(path, '/');
      PushAllOfNormal(AddSegments([], text), path);
    }
  }

  function AfterSlash(host: string): string {
    var i := Find(host, '/');
    if i == |host| then "" else host[i + 1..]
  }

  function HostEnd(b: Parts): string {
    AfterSlash(b.host) + ":" + Decimal(EffectivePort(b))
  }

  /** The segments that are read in front of the path. */
  function Buried(b: Parts): Path {
    AddSegments([], HostEnd(b))
  }

  lemma BuriedIsNotEmpty(b: Parts)
    ensures Buried(b) != [] && EndsSolid(Buried(b)[|Buried(b)| - 1])
  {
    DecimalIsPlain(EffectivePort(b));
    ColonPieceStays([], AfterSlash(b.host), Decimal(EffectivePort(b)));
  }

  lemma SplitHost(host: string, port: string)
    requires '/' in host
    ensures var h0 := host[..Find(host, '/')];
      '/' !in h0 && host + ":" + port == h0 + "/" + (AfterSlash(host) + ":" + port)
  {
    var h0, h1 := host[..Find(host, '/')] + "/", AfterSlash(host);
    FindNone(host, '/');
    assert host == h0 + h1;
    Assoc(h0, h1, ":");
    Assoc(h0, h1 + ":", port);
  }

  lemma PathBehindHost(b: Parts, more: string)
    requires '/' in b.host && ':' !in b.host
    ensures PathOf(Authority(b) + more) == AddSegments([], HostEnd(b) + more)
  {
    var h0 := b.host[..Find(b.host, '/')];
    SplitHost(b.host, Decimal(EffectivePort(b)));
    Assoc(h0 + "/", HostEnd(b), more);
    Assoc(h0, "/", HostEnd(b) + more);
    PathAfter(h0, HostEnd(b) + more);
  }

  lemma SlashAuthority(b: Parts, more: string)
    requires Legible(b) && '/' in b.host && (more == "" || !IsDigit(more[0]))
    ensures HostOf(Authority(b) + more) == b.host && PortOf(b.scheme, Authority(b) + more) == EffectivePort(b)
  {
    var port := Decimal(EffectivePort(b));
    var hp, i := Authority(b) + more, Find(b.host, '/');
    FindNone(b.host, '/');
    assert hp == b.host + ":" + (port + more);
    ColonAfter(b.host, port + more);
    assert hp[..i] == b.host[..i];
    FindIs(hp, '/', i);
    assert hp[|b.host| + 1..] == port + more;
    DecimalIsPlain(EffectivePort(b));
    AtoiOfDecimal(EffectivePort(b), more);
  }

  /** What is read off host and port, more text for the path, and a tail. */
  lemma SlashReads(b: Parts, more: string, tail: string)
    requires Legible(b) && '/' in b.host && (more == "" || !IsDigit(more[0])) && '?' !in more && '#' !in more
    requires tail == "" || tail[0] == '?' || (tail[0] == '#' && '?' !in tail)
    ensures ParseTrimmed(b.scheme + "://" + (Authority(b) + more) + tail)
         == (Accepted, Parts(b.scheme, b.host, EffectivePort(b), AddSegments([], HostEnd(b) + more),
                             ReadQuery(QueryText(tail)), FragmentText(tail)))
  {
    var hp := Authority(b) + more;
    var front := b.scheme + "://" + hp;
    LowerOfScheme(b.scheme);
    DecimalIsPlain(EffectivePort(b));
    assert '?' !in hp && '#' !in hp && hp != "";
    Scan(b.scheme, "://", hp, tail);
    FrontFreeOf(b.scheme, hp, '?');
    FrontFreeOf(b.scheme, hp, '#');
    ScanQuery(front, tail);
    ScanFragment(front, tail);
    SlashAuthority(b, more);
    PathBehindHost(b, more);
  }

  lemma PathStart(path: Path)
    ensures PrintPath(path) == "" || PrintPath(path)[0] == '/'
  {
  }

  /** Read as it was printed, the path has grown by the segments in front. */
  lemma SlashGrows(b: Parts)
    requires Legible(b) && '/' in b.host && NoStrayQuestionMark(b)
    ensures var r := ParseTrimmed(Print(b));
      r.0 == Accepted && r.1.path == Buried(b) + b.path && |r.1.path| > |b.path|
  {
    TailStart(b);
    PathStart(b.path);
    PrintPathFreeOf(b.path, '?');
    PrintPathFreeOf(b.path, '#');
    SlashReads(b, PrintPath(b.path), Tail(b));
    AddPrinted(HostEnd(b), b.path);
    BuriedIsNotEmpty(b);
  }

  /** The path ends in a piece that is pushed last. */
  lemma AddPiece(text: string, init: Path, piece: string)
    requires Normal(init) && FreeOf(init, '/') && '/' !in piece
    ensures AddSegments([], text + (PrintPath(init) + "/" + piece)) == Push(AddSegments([], text) + init, piece)
  {
    assert text + (PrintPath(init) + "/" + piece) == (text + PrintPath(init)) + "/" + piece;
    AddSegmentsConcat([], text + PrintPath(init), piece);
    AddPrinted(text, init);
    AddSegmentsOfPiece(AddSegments([], text) + init, piece);
  }

  // ---------------------------------------------------------------- round after round

  /** A slash in the host, no stray '?' and no blank printed last. */
  ghost predicate Grows(b: Parts) {
    Legible(b) && '/' in b.host && NoStrayQuestionMark(b) && EndsSolid(Print(b))
  }

  function Lengthened(b: Parts): Parts {
    Normalized(b).(path := Buried(b) + b.path)
  }

  lemma BuriedIsLegible(b: Parts)
    requires Legible(b)
    ensures Normal(Buried(b)) && FreeOf(Buried(b), '/') && FreeOf(Buried(b), '?') && FreeOf(Buried(b), '#')
  {
    DecimalIsPlain(EffectivePort(b));
    assert forall x <- AfterSlash(b.host) :: x in b.host;
    AddSegmentsFromEmpty(HostEnd(b));
  }

  lemma SameBuried(b: Parts)
    requires IsScheme(b.scheme)
    ensures EffectivePort(Lengthened(b)) == EffectivePort(b) && Buried(Lengthened(b)) == Buried(b)
    ensures Normalized(Lengthened(b)) == Lengthened(b)
  {
  }

  lemma LengthenedIsLegible(b: Parts)
    requires Legible(b)
    ensures Legible(Lengthened(b))
  {
    BuriedIsLegible(b);
    assert forall s <- Buried(b) + b.path :: s in Buried(b) || s in b.path;
  }

  lemma LengthenedPrint(b: Parts)
    requires IsScheme(b.scheme)
    ensures Print(Lengthened(b))
         == b.scheme + "://" + (Authority(b) + (PrintPath(Buried(b)) + PrintPath(b.path))) + Tail(b)
  {
    SameBuried(b);
    PrintPathAppend(Buried(b), b.path);
  }

  lemma PrintedPathEnds(path: Path)
    requires path != [] && EndsSolid(path[|path| - 1])
    ensures EndsSolid(PrintPath(path))
  {
    var init, last := Pop(path), path[|path| - 1];
    assert path == init + [last];
    PrintPathPush(init, last);
    EndsSolidAfter(PrintPath(init) + "/", last);
  }

  lemma EndsOfFront(a: string, p: string)
    requires p != ""
    ensures EndsSolid(a + p) <==> EndsSolid(p)
  {
    assert (a + p)[|a + p| - 1] == p[|p| - 1];
  }

  lemma LengthenedEndsSolid(b: Parts)
    requires IsScheme(b.scheme) && EndsSolid(Print(b))
    ensures EndsSolid(Print(Lengthened(b)))
  {
    var head, s, p := b.scheme + "://", PrintPath(Buried(b)), PrintPath(b.path);
    LengthenedPrint(b);
    if Tail(b) != "" {
      EndsOfFront(Front(b), Tail(b));
      EndsOfFront(head + (Authority(b) + (s + p)), Tail(b));
    } else {
      BuriedIsNotEmpty(b);
      PrintedPathEnds(Buried(b));
      assert Print(b) == head + (Authority(b) + p) && Print(Lengthened(b)) == head + (Authority(b) + (s + p));
      if p == "" {
        assert s + p == s;
      } else {
        EndsOfFront(Authority(b), p);
        EndsOfFront(head, Authority(b) + p);
        EndsOfFront(s, p);
      }
      EndsOfFront(Authority(b), s + p);
      EndsOfFront(head, Authority(b) + (s + p));
    }
  }

  /** One round of printing and parsing. */
  lemma OneRound(before: Parts, b: Parts)
    requires Grows(b)
    ensures Parse(before, Print(b)) == (Accepted, Lengthened(b)) && Grows(Lengthened(b))
  {
    PrintStart(b);
    SolidStays(Print(b));
    TailStart(b);
    PathStart(b.path);
    PrintPathFreeOf(b.path, '?');
    PrintPathFreeOf(b.path, '#');
    SlashReads(b, PrintPath(b.path), Tail(b));
    AddPrinted(HostEnd(b), b.path);
    TailOfParts(b.query, b.fragment);
    LengthenedIsLegible(b);
    LengthenedEndsSolid(b);
  }

  function Copies(s: Path, k: nat): Path {
    if k == 0 then [] else s + Copies(s, k - 1)
  }

  /** What k rounds of printing and parsing make of the fields. */
  ghost function Rounds(before: Parts, b: Parts, k: nat): Parts {
    if k == 0 then b else Parse(before, Print(Rounds(before, b, k - 1))).1
  }

  function LengthenedBy(b: Parts, k: nat): Parts {
    Normalized(b).(path := Copies(Buried(b), k) + b.path)
  }

  lemma NotLengthened(b: Parts)
    ensures LengthenedBy(b, 0) == Normalized(b)
  {
    assert Copies(Buried(b), 0) + b.path == b.path;
  }

  lemma LengthenedAgain(b: Parts, k: nat, r: Parts)
    requires IsScheme(b.scheme) && Normalized(r) == LengthenedBy(b, k)
    ensures Normalized(Lengthened(r)) == LengthenedBy(b, k + 1)
  {
    SameBuried(b);
    var s := Buried(b);
    assert Buried(r) == s && r.path == Copies(s, k) + b.path;
    assert s + (Copies(s, k) + b.path) == Copies(s, k + 1) + b.path;
    SameBuried(r);
  }

  lemma OneMoreRound(before: Parts, b: Parts, k: nat, r: Parts)
    requires Grows(r) && r == Rounds(before, b, k)
    ensures Rounds(before, b, k + 1) == Lengthened(r) && Grows(Lengthened(r))
  {
    OneRound(before, r);
  }

  /** After k rounds the path has k copies of the added segments in front, and the rest is as it was. */
  ghost predicate RoundsAre(before: Parts, b: Parts, k: nat) {
    Grows(Rounds(before, b, k)) && Normalized(Rounds(before, b, k)) == LengthenedBy(b, k)
  }

  lemma RoundsBase(before: Parts, b: Parts)
    requires Grows(b)
    ensures RoundsAre(before, b, 0)
  {
    NotLengthened(b);
  }

  lemma RoundsNext(before: Parts, b: Parts, k: nat)
    requires Grows(b) && RoundsAre(before, b, k)
    ensures RoundsAre(before, b, k + 1)
  {
    var r := Rounds(before, b, k);
    OneMoreRound(before, b, k, r);
    LengthenedAgain(b, k, r);
  }

  /** Where no '?' is stray and no blank is printed last, this is so of every number of rounds. */
  lemma RoundsGrow(before: Parts, b: Parts, k: nat)
    requires Grows(b)
    ensures RoundsAre(before, b, k)
  {
    RoundsBase(before, b);
    var i := 0;
    while i < k
      invariant i <= k && RoundsAre(before, b, i)
    {
      RoundsNext(before, b, i);
      i := i + 1;
    }
  }

  // ---------------------------------------------------------------- a blank printed last in the path

  /** n pieces that go to and fro between two names. */
  function ToAndFro(a: string, b: string, n: nat): Path
    decreases n
  {
    if n == 0 then [] else [a] + ToAndFro(b, a, n - 1)
  }

  /** A list comes back behind two pieces exactly when it repeats them. */
  lemma {:induction false} RepeatsTwo(a: string, b: string, path: Path)
    ensures path <= [a, b] + path <==> path == ToAndFro(a, b, |path|)
    decreases |path|
  {
    if path != [] {
      var rest := path[1..];
      RepeatsTwo(b, a, rest);
      assert path == [path[0]] + rest;
      if path[0] == a {
        assert [a, b] + path == [a] + ([b, a] + rest);
        SamePrefix(a, rest, [b, a] + rest);
      } else {
        assert ([a, b] + path)[0] == a && ToAndFro(a, b, |path|)[0] == a;
      }
    }
  }

  lemma SamePrefix(a: string, x: Path, y: Path)
    ensures [a] + x <= [a] + y <==> x <= y
    ensures [a] + x == [a] + y <==> x == y
  {
    assert ([a] + x)[1..] == x && ([a] + y)[1..] == y;
  }

  lemma {:induction false} RepeatsOne(a: string, path: Path)
    requires path != [] && path <= [a] + path
    ensures path[|path| - 1] == a
    decreases |path|
  {
    var rest := path[1..];
    assert path == [a] + rest;
    if rest != [] {
      SamePrefix(a, rest, path);
      RepeatsOne(a, rest);
    }
  }

  /** The last segment is ".." and blanks, and the path goes to and fro between two added segments. */
  predicate TrimsBack(buried: Path, path: Path)
    requires path != []
  {
    |buried| == 2 && TrimBlanksRight(path[|path| - 1]) == ".." && path == ToAndFro(buried[0], buried[1], |path|)
  }

  /** What trimming leaves of the last segment brings the path back. */
  lemma TrimsBackExactly(buried: Path, path: Path)
    requires path != [] && buried != [] && EndsSolid(buried[|buried| - 1]) && !EndsSolid(path[|path| - 1])
    ensures Push(Pop(buried + path), TrimBlanksRight(path[|path| - 1])) == path <==> TrimsBack(buried, path)
  {
    var n, m, all := |path|, |buried|, buried + path;
    var cut := TrimBlanksRight(path[n - 1]);
    assert Pop(all) == all[..m + n - 1];
    if cut == ".." {
      assert Push(Pop(all), cut) == all[..m + n - 2];
      if m == 2 {
        assert buried == [buried[0], buried[1]];
        RepeatsTwo(buried[0], buried[1], path);
        assert path <= all <==> all[..n] == path;
      }
    } else if (cut == "" || cut == ".") && m == 1 && all[..n] == path {
      assert buried == [buried[0]];
      RepeatsOne(buried[0], path);
    }
  }

  lemma SlashTrimmed(b: Parts)
    requires Legible(b) && '/' in b.host && b.query == map[] && b.fragment == "" && b.path != []
    requires !EndsSolid(Print(b))
    ensures ParseTrimmed(TrimBlanksRight(Print(b)))
         == (Accepted, Parts(b.scheme, b.host, EffectivePort(b),
                             Push(Pop(Buried(b) + b.path), TrimBlanksRight(b.path[|b.path| - 1])), map[], ""))
  {
    var init, last := LastSegment(b);
    TrimmedPathText(b, init, last);
    SlashReadsPiece(b, init, TrimBlanksRight(last));
    assert Pop(Buried(b) + b.path) == Buried(b) + init;
  }

  lemma SlashReadsPiece(b: Parts, init: Path, piece: string)
    requires Legible(b) && '/' in b.host && '/' !in piece && '?' !in piece && '#' !in piece
    requires Normal(init) && FreeOf(init, '/') && FreeOf(init, '?') && FreeOf(init, '#')
    ensures ParseTrimmed(b.scheme + "://" + (Authority(b) + (PrintPath(init) + "/" + piece)) + "")
         == (Accepted, Parts(b.scheme, b.host, EffectivePort(b), Push(Buried(b) + init, piece), map[], ""))
  {
    PathStart(init);
    PrintPathFreeOf(init, '?');
    PrintPathFreeOf(init, '#');
    SlashReads(b, PrintPath(init) + "/" + piece, "");
    FindNone("", '?');
    AddPiece(HostEnd(b), init, piece);
  }

  // ---------------------------------------------------------------- a stray '?'

  lemma AddColonPiece(path: Path, piece: string)
    requires '/' !in piece && ':' in piece
    ensures AddSegments(path, piece) == path + [piece]
  {
    AddSegmentsOfPiece(path, piece);
  }

  /** A longer last piece takes the place of the shorter one. */
  lemma {:induction false} ColonPieceGrows(path: Path, h: string, port: string, more: string)
    requires '/' !in port && '/' !in more
    ensures var a, g := AddSegments(path, h + ":" + port), AddSegments(path, h + ":" + port + more);
      a != [] && g != [] && Pop(g) == Pop(a)
    decreases |h|
  {
    var i := Find(h, '/');
    if i == |h| {
      FindNone(h, '/');
      var piece := h + ":" + port;
      assert piece[i] == ':' && (piece + more)[i] == ':';
      AddColonPiece(path, piece);
      AddColonPiece(path, piece + more);
    } else {
      var rest := h[i + 1..] + ":" + port;
      assert h + ":" + port == h[..i] + "/" + rest;
      assert h + ":" + port + more == h[..i] + "/" + (rest + more);
      AddSegmentsConcat(path, h[..i], rest);
      AddSegmentsConcat(path, h[..i], rest + more);
      ColonPieceGrows(AddSegments(path, h[..i]), h[i + 1..], port, more);
    }
  }

  /** The last piece joined by a fragment's first one. */
  lemma SlashGrown(b: Parts, p0: string)
    requires Legible(b) && '/' !in p0
    ensures var grown := AddSegments([], HostEnd(b) + (PrintPath(b.path) + "#" + p0));
      grown != [] && Pop(grown) == Pop(Buried(b) + b.path)
  {
    if b.path == [] {
      DecimalIsPlain(EffectivePort(b));
      ColonPieceGrows([], AfterSlash(b.host), Decimal(EffectivePort(b)), "#" + p0);
      assert PrintPath(b.path) + "#" + p0 == "#" + p0 && Buried(b) + b.path == Buried(b);
    } else {
      var init, last := LastSegment(b);
      HashPiece(HostEnd(b), init, last, p0);
      assert Pop(Buried(b) + b.path) == Buried(b) + init;
    }
  }

  lemma HashPiece(text: string, init: Path, last: string, p0: string)
    requires Normal(init) && FreeOf(init, '/') && '/' !in last && '/' !in p0
    ensures var grown := AddSegments([], text + (PrintPath(init) + "/" + last + "#" + p0));
      grown != [] && Pop(grown) == AddSegments([], text) + init
  {
    var piece := last + "#" + p0;
    assert piece[|last|] == '#';
    assert PrintPath(init) + "/" + last + "#" + p0 == PrintPath(init) + "/" + piece;
    AddPiece(text, init, piece);
  }

  lemma AddMore(text: string, more: string)
    requires more == "" || more[0] == '/'
    ensures AddSegments([], text + more)
         == if more == "" then AddSegments([], text) else AddSegments(AddSegments([], text), more[1..])
  {
    if more == "" {
      AppendsNothing(text, more);
    } else {
      assert text + more == text + "/" + more[1..];
      AddSegmentsConcat([], text, more[1..]);
    }
  }

  lemma SlashStrayPath(b: Parts, p0: string, more: string)
    requires Legible(b) && '/' in b.host && '/' !in p0 && (more == "" || more[0] == '/')
    ensures var grown := AddSegments([], HostEnd(b) + (PrintPath(b.path) + "#" + p0));
      PathOf(StrayHostPath(b, p0 + more)) == if more == "" then grown else AddSegments(grown, more[1..])
  {
    var text := PrintPath(b.path) + "#" + p0;
    Assoc(PrintPath(b.path) + "#", p0, more);
    PathBehindHost(b, text + more);
    Assoc(HostEnd(b), text, more);
    AddMore(HostEnd(b) + text, more);
  }

  lemma WalkGrown(grown: Path, path: Path, m: Move)
    requires |grown| > |path|
    ensures Walk(grown, m) == path <==> m.up > 0 && Walk(Pop(grown), m.(up := m.up - 1)) == path
  {
    if m.up == 0 {
      assert |Walk(grown, m)| >= |grown|;
    } else {
      assert Climb(grown, m.up) == Climb(Pop(grown), m.up - 1);
    }
  }

  /**
    Behind its first slash the text climbs into what the added segments and the path have in common
    from the root on, and goes down the rest of the path.
   */
  predicate ClimbsOver(b: Parts, f0: string) {
    '/' in f0 &&
    var m := MoveOf(f0[Find(f0, '/') + 1..]);
    var kept := Climb(Buried(b) + b.path, m.up);
    m.up > 0 && kept <= b.path && m.down == b.path[|kept|..]
  }

  /** That is, the walk from where the longer path lost its last piece ends at the path. */
  lemma ClimbsOverIsWalk(all: Path, path: Path, m: Move)
    requires all != [] && m.up > 0
    ensures Walk(Pop(all), m.(up := m.up - 1)) == path
       <==> var kept := Climb(all, m.up); kept <= path && m.down == path[|kept|..]
  {
    var kept := Climb(all, m.up);
    assert Climb(Pop(all), m.up - 1) == kept;
    if kept + m.down == path {
      assert path[|kept|..] == m.down;
    }
  }

  lemma ClimbsOverText(b: Parts, grown: Path, f0: string, rest: string)
    requires grown != [] && Pop(grown) == Pop(Buried(b) + b.path) && |grown| > |b.path|
    requires '/' in f0 && rest == f0[Find(f0, '/') + 1..] && |grown| == |Buried(b) + b.path|
    ensures AddSegments(grown, rest) == b.path <==> ClimbsOver(b, f0)
  {
    var m := MoveOf(rest);
    AddSegmentsIsWalk(grown, rest);
    WalkGrown(grown, b.path, m);
    if m.up > 0 {
      ClimbsOverIsWalk(Buried(b) + b.path, b.path, m);
    }
  }

  lemma SlashStrayExactly(b: Parts, f0: string)
    requires Legible(b) && '/' in b.host
    ensures PathOf(StrayHostPath(b, f0)) == b.path <==> ClimbsOver(b, f0)
  {
    var p0, more := SplitAtSlash(f0);
    var grown := AddSegments([], HostEnd(b) + (PrintPath(b.path) + "#" + p0));
    SlashStrayPath(b, p0, more);
    SlashGrown(b, p0);
    BuriedIsNotEmpty(b);
    assert |grown| == |Buried(b) + b.path| > |b.path|;
    FindAfter(p0, more, '/');
    FindNone(f0, '/');
    if more != "" {
      assert more[1..] == f0[Find(f0, '/') + 1..];
      ClimbsOverText(b, grown, f0, more[1..]);
    }
  }

  // ---------------------------------------------------------------- together

  /**
    The rare chances of a host with a slash, both without a query: the last segment ends in blanks, of
    which trimming leaves a ".." that brings the path back; or the fragment has a stray '?', in front of
    which it climbs back, and behind which it names no parameter.
   */
  ghost predicate SlashRepair(b: Parts) {
    b.query == map[] &&
    if b.fragment == "" then
      b.path != [] && !EndsSolid(Print(b)) && TrimsBack(Buried(b), b.path)
    else
      '?' in b.fragment && EndsSolid(Print(b)) &&
      var k := Find(b.fragment, '?');
      ClimbsOver(b, b.fragment[..k]) && NamesNothing(b.fragment[k + 1..])
  }

  lemma SlashStray(b: Parts)
    requires Legible(b) && '/' in b.host && !NoStrayQuestionMark(b)
    ensures ParseTrimmed(TrimBlanksRight(Print(b))) == (Accepted, Normalized(b)) <==> SlashRepair(b)
  {
    var f0, f1 := SplitStray(b);
    ParseStrayText(b, f0, f1);
    StrayEnd(b, f0, f1);
    assert StrayHostPath(b, f0) == Authority(b) + (PrintPath(b.path) + "#" + f0);
    PathStart(b.path);
    SlashAuthority(b, PrintPath(b.path) + "#" + f0);
    SlashStrayExactly(b, f0);
    ReadsNothing(f1);
  }

  lemma SolidWithoutPath(b: Parts)
    requires b.query == map[] && b.fragment == "" && b.path == []
    ensures EndsSolid(Print(b))
  {
    AuthorityEndsSolid(b);
    EndsSolidAfter(b.scheme + "://", Authority(b));
    assert Print(b) == b.scheme + "://" + Authority(b);
  }

  lemma EndOfPathPrint(b: Parts)
    requires b.query == map[] && b.fragment == "" && b.path != [] && !EndsSolid(Print(b))
    ensures !EndsSolid(b.path[|b.path| - 1])
  {
    var init, last := Pop(b.path), b.path[|b.path| - 1];
    assert b.path == init + [last];
    PrintPathPush(init, last);
    PrintWithoutTail(b, PrintPath(init) + "/", last);
    EndsSolidAfter(b.scheme + "://" + (Authority(b) + (PrintPath(init) + "/")), last);
  }

  lemma SlashTrimmedPath(b: Parts)
    requires Legible(b) && '/' in b.host && b.query == map[] && b.fragment == "" && !EndsSolid(Print(b))
    requires b.path != []
    ensures ParseTrimmed(TrimBlanksRight(Print(b))) == (Accepted, Normalized(b))
       <==> Push(Pop(Buried(b) + b.path), TrimBlanksRight(b.path[|b.path| - 1])) == b.path
  {
    SlashTrimmed(b);
    var path := Push(Pop(Buried(b) + b.path), TrimBlanksRight(b.path[|b.path| - 1]));
    SamePath(b, path);
  }

  lemma SamePath(b: Parts, path: Path)
    requires b.query == map[] && b.fragment == ""
    ensures (Accepted, Parts(b.scheme, b.host, EffectivePort(b), path, map[], "")) == (Accepted, Normalized(b))
       <==> path == b.path
  {
  }

  lemma TrimsBackInPrint(b: Parts)
    requires b.query == map[] && b.fragment == "" && b.path != [] && !EndsSolid(Print(b))
    ensures Push(Pop(Buried(b) + b.path), TrimBlanksRight(b.path[|b.path| - 1])) == b.path
       <==> TrimsBack(Buried(b), b.path)
  {
    BuriedIsNotEmpty(b);
    EndOfPathPrint(b);
    TrimsBackExactly(Buried(b), b.path);
  }

  lemma SlashTrimsBack(b: Parts)
    requires Legible(b) && '/' in b.host && b.query == map[] && b.fragment == "" && !EndsSolid(Print(b))
    requires b.path != []
    ensures ParseTrimmed(TrimBlanksRight(Print(b))) == (Accepted, Normalized(b)) <==> TrimsBack(Buried(b), b.path)
  {
    SlashTrimmedPath(b);
    TrimsBackInPrint(b);
  }

  lemma SlashTrimmedExactly(b: Parts)
    requires Legible(b) && '/' in b.host && b.query == map[] && b.fragment == "" && !EndsSolid(Print(b))
    ensures ParseTrimmed(TrimBlanksRight(Print(b))) == (Accepted, Normalized(b)) <==> SlashRepair(b)
  {
    if b.path == [] {
      SolidWithoutPath(b);
    } else {
      SlashTrimsBack(b);
    }
  }

  lemma NoRepair(b: Parts)
    requires NoStrayQuestionMark(b) && (EndsSolid(Print(b)) || b.fragment != "" || b.query != map[])
    ensures !SlashRepair(b)
  {
  }

  lemma SlashOrdinary(b: Parts)
    requires Legible(b) && '/' in b.host && NoStrayQuestionMark(b)
    requires EndsSolid(Print(b)) || b.fragment != "" || b.query != map[]
    ensures ParseTrimmed(TrimBlanksRight(Print(b))) != (Accepted, Normalized(b))
  {
    if EndsSolid(Print(b)) {
      SlashOfSolid(b);
    } else if b.fragment != "" {
      TrimmedOrdinaryFragment(b);
    } else {
      TrimmedQueryFails(b);
    }
  }

  lemma SlashOfSolid(b: Parts)
    requires Legible(b) && '/' in b.host && NoStrayQuestionMark(b) && EndsSolid(Print(b))
    ensures ParseTrimmed(TrimBlanksRight(Print(b))).1.path != b.path
  {
    SolidStays(Print(b));
    SlashGrows(b);
  }

  /** With a slash in the host the printed form is canonical by those chances alone. */
  lemma SlashExactly(before: Parts, b: Parts)
    requires Legible(b) && '/' in b.host
    ensures IsCanonical(before, b) <==> SlashRepair(b)
  {
    PrintStart(b);
    if !NoStrayQuestionMark(b) {
      SlashStray(b);
    } else if EndsSolid(Print(b)) || b.fragment != "" || b.query != map[] {
      SlashOrdinary(b);
      NoRepair(b);
    } else {
      SlashTrimmedExactly(b);
    }
  }
}
