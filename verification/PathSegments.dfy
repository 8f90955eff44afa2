/**
  The path part of HttpUrl::Builder: a list of segments worked as a stack, and its relation to
  the remove_dot_segments algorithm of section 5.2.4 of RFC 3986.
 */
module PathSegments {
  import opened Text

  type Path = seq<string>

  function Pop(path: Path): Path {
    if path == [] then [] else path[..|path| - 1]
  }

  function Push(path: Path, segment: string): Path {
    if segment == "" || segment == "." then path
    else if segment == ".." then Pop(path)
    else path + [segment]
  }

  function PushAll(path: Path, segments: seq<string>): Path
    decreases |segments|
  {
    if segments == [] then path else PushAll(Push(path, segments[0]), segments[1..])
  }

  function AddSegments(path: Path, text: string): Path {
    PushAll(path, Tokens(text, '/'))
  }

  /** What ToString writes for the path. */
  function PrintPath(path: Path): string {
    if path == [] then "" else "/" + path[0] + PrintPath(path[1..])
  }

  predicate IsName(segment: string) {
    segment != "" && segment != "." && segment != ".."
  }

  /** The invariant of the segment list. */
  ghost predicate Normal(path: Path) {
    forall s <- path :: IsName(s)
  }

  ghost predicate FreeOf(path: Path, c: char) {
    forall s <- path :: c !in s
  }

  // ---------------------------------------------------------------- the stack machine

  lemma {:induction false} PushAllAppend(path: Path, a: seq<string>, b: seq<string>)
    ensures PushAll(path, a + b) == PushAll(PushAll(path, a), b)
    decreases |a|
  {
    if a == [] {
      assert a + b == b;
    } else {
      assert (a + b)[0] == a[0] && (a + b)[1..] == a[1..] + b;
      PushAllAppend(Push(path, a[0]), a[1..], b);
    }
  }

  /** Pushing never leaves an empty, "." or ".." segment, and invents no segment. */
  lemma {:induction false} PushAllKeepsNormal(path: Path, segments: seq<string>)
    requires Normal(path)
    ensures Normal(PushAll(path, segments))
    ensures forall s <- PushAll(path, segments) :: s in path || s in segments
    decreases |segments|
  {
    if segments != [] {
      PushAllKeepsNormal(Push(path, segments[0]), segments[1..]);
    }
  }

  lemma {:induction false} PushAllOfNormal(path: Path, segments: seq<string>)
    requires Normal(segments)
    ensures PushAll(path, segments) == path + segments
    decreases |segments|
  {
    if segments == [] {
      assert path + segments == path;
    } else {
      assert segments[0] in segments;
      PushAllOfNormal(path + [segments[0]], segments[1..]);
      assert path + [segments[0]] + segments[1..] == path + segments;
    }
  }

  /** Adding "a/b" is adding a and then b, whatever slashes and dots a and b hold. */
  lemma {:induction false} AddSegmentsConcat(path: Path, a: string, b: string)
    ensures AddSegments(path, a + "/" + b) == AddSegments(AddSegments(path, a), b)
    decreases |a|
  {
    var i := Find(a, '/');
    if i == |a| {
      FindNone(a, '/');
      TokensStep(a, b, '/');
      AddSegmentsOfPiece(path, a);
      PushAllAppend(path, [a], Tokens(b, '/'));
      assert PushAll(path, [a]) == PushAll(Push(path, a), [a][1..]);
    } else {
      var a' := a[i + 1..];
      assert a + "/" + b == a[..i] + ['/'] + (a' + "/" + b);
      TokensStep(a[..i], a' + "/" + b, '/');
      AddSegmentsConcat(Push(path, a[..i]), a', b);
    }
  }

  lemma AddSegmentsOfPiece(path: Path, text: string)
    requires '/' !in text
    ensures AddSegments(path, text) == Push(path, text)
  {
    TokensOfPiece(text, '/');
    assert PushAll(path, [text]) == PushAll(Push(path, text), [text][1..]);
  }

  /** Every list the machine builds from nothing is normal and its segments hold no slash. */
  lemma AddSegmentsFromEmpty(text: string)
    ensures Normal(AddSegments([], text)) && FreeOf(AddSegments([], text), '/')
    ensures forall s <- AddSegments([], text), x <- s :: x in text
  {
    TokensAreClean(text, '/');
    PushAllKeepsNormal([], Tokens(text, '/'));
  }

  lemma AddSegmentsOfJoin(path: Path)
    requires Normal(path) && FreeOf(path, '/')
    ensures AddSegments([], Join(path, '/')) == path
  {
    assert forall i :: 0 <= i < |path| ==> path[i] in path;
    TokensOfJoin(path, '/');
    PushAllOfNormal([], path);
  }

  /** Re-adding a built path to an empty list rebuilds the list. */
  lemma AddSegmentsIdempotent(text: string)
    ensures var path := AddSegments([], text); AddSegments([], Join(path, '/')) == path
  {
    AddSegmentsFromEmpty(text);
    AddSegmentsOfJoin(AddSegments([], text));
  }

  lemma {:induction false} PrintPathIsJoin(path: Path)
    requires path != []
    ensures PrintPath(path) == "/" + Join(path, '/')
  {
    if |path| > 1 {
      PrintPathIsJoin(path[1..]);
    }
  }

  lemma {:induction false} PrintPathAppend(a: Path, b: Path)
    ensures PrintPath(a + b) == PrintPath(a) + PrintPath(b)
  {
    if a == [] {
      assert a + b == b;
    } else {
      assert (a + b)[0] == a[0] && (a + b)[1..] == a[1..] + b;
      PrintPathAppend(a[1..], b);
    }
  }

  lemma {:induction false} PrintPathFreeOf(path: Path, c: char)
    requires FreeOf(path, c) && c != '/'
    ensures c !in PrintPath(path)
  {
    if path != [] {
      assert path[0] in path;
      PrintPathFreeOf(path[1..], c);
    }
  }

  lemma {:induction false} PrintPathHas(path: Path, i: nat, c: char)
    requires i < |path| && c in path[i]
    ensures c in PrintPath(path)
  {
    if i > 0 {
      PrintPathHas(path[1..], i - 1, c);
    }
  }

  // ---------------------------------------------------------------- what a text does to any stack

  /** Some levels up, then some names down. */
  datatype Move = Move(up: nat, down: Path)

  const STAY := Move(0, [])

  function Climb(path: Path, up: nat): Path {
    if up <= |path| then path[..|path| - up] else []
  }

  function Walk(path: Path, m: Move): Path {
    Climb(path, m.up) + m.down
  }

  function Follow(m: Move, segment: string): Move {
    if segment == "" || segment == "." then m
    else if segment != ".." then m.(down := m.down + [segment])
    else if m.down == [] then m.(up := m.up + 1)
    else m.(down := Pop(m.down))
  }

  function FollowAll(m: Move, segments: seq<string>): Move
    decreases |segments|
  {
    if segments == [] then m else FollowAll(Follow(m, segments[0]), segments[1..])
  }

  function MoveOf(text: string): Move {
    FollowAll(STAY, Tokens(text, '/'))
  }

  lemma WalkOne(path: Path, m: Move, segment: string)
    ensures Push(Walk(path, m), segment) == Walk(path, Follow(m, segment))
  {
    if segment == ".." && m.down == [] {
      assert Walk(path, m) == Climb(path, m.up);
    }
  }

  lemma {:induction false} WalkAll(path: Path, m: Move, segments: seq<string>)
    ensures PushAll(Walk(path, m), segments) == Walk(path, FollowAll(m, segments))
    decreases |segments|
  {
    if segments != [] {
      WalkOne(path, m, segments[0]);
      WalkAll(path, Follow(m, segments[0]), segments[1..]);
    }
  }

  lemma PushAllIsWalk(path: Path, segments: seq<string>)
    ensures PushAll(path, segments) == Walk(path, FollowAll(STAY, segments))
  {
    assert Walk(path, STAY) == path;
    WalkAll(path, STAY, segments);
  }

  /** A text does the same to every stack: it climbs some levels, at most to the root, and adds some names. */
  lemma AddSegmentsIsWalk(path: Path, text: string)
    ensures AddSegments(path, text) == Walk(path, MoveOf(text))
  {
    PushAllIsWalk(path, Tokens(text, '/'));
  }

  /** A move ends in the same place from a shorter and a longer stack just when it climbs to the root. */
  lemma WalksMeet(p: Path, q: Path, m: Move)
    requires |p| < |q|
    ensures Walk(p, m) == Walk(q, m) <==> |q| <= m.up
  {
    assert |Walk(p, m)| == |Climb(p, m.up)| + |m.down| && |Walk(q, m)| == |Climb(q, m.up)| + |m.down|;
  }

  // ---------------------------------------------------------------- RFC 3986, section 5.2.4

  /** Removes the last segment and its preceding "/", if any, from the output buffer. */
  function DropLastSegment(output: string): string {
    if output == "" then ""
    else if output[|output| - 1] == '/' then output[..|output| - 1]
    else DropLastSegment(output[..|output| - 1])
  }

  /** One pass of rules 2A to 2E over the input and output buffers. */
  function DotStep(input: string, output: string): (r: (string, string))
    requires input != ""
    ensures |r.0| < |input|
  {
    if "../" <= input then (input[3..], output)
    else if "./" <= input then (input[2..], output)
    else if "/./" <= input then (input[2..], output)
    else if input == "/." then ("/", output)
    else if "/../" <= input then (input[3..], DropLastSegment(output))
    else if input == "/.." then ("/", DropLastSegment(output))
    else if input == "." || input == ".." then ("", output)
    else
      var n := if input[0] == '/' then 1 + Find(input[1..], '/') else Find(input, '/');
      (input[n..], output + input[..n])
  }

  function RemoveDotSegments(input: string, output: string): string
    decreases |input|
  {
    if input == "" then output else
      var (i, o) := DotStep(input, output);
      RemoveDotSegments(i, o)
  }

  /** No segment but possibly the last is empty. */
  ghost predicate NoEmptySegment(text: string) {
    (text != "" ==> text[0] != '/') &&
    forall i :: 0 <= i < |text| - 1 && text[i] == '/' ==> text[i + 1] != '/'
  }

  /** The pieces that a "/" follows, and the piece behind the last "/". */
  function Inner(text: string): seq<string>
    decreases |text|
  {
    var i := Find(text, '/');
    if i == |text| then [] else [text[..i]] + Inner(text[i + 1..])
  }

  function LastPiece(text: string): string
    decreases |text|
  {
    var i := Find(text, '/');
    if i == |text| then text else LastPiece(text[i + 1..])
  }

  lemma {:induction false} DropLastOfPiece(output: string, name: string)
    requires '/' !in name
    ensures DropLastSegment(output + "/" + name) == output
    decreases |name|
  {
    var s := output + "/" + name;
    if name == "" {
      assert s[..|s| - 1] == output;
    } else {
      assert name[|name| - 1] in name;
      assert s[..|s| - 1] == output + "/" + name[..|name| - 1];
      DropLastOfPiece(output, name[..|name| - 1]);
    }
  }

  lemma DropLastIsPop(path: Path)
    requires FreeOf(path, '/')
    ensures DropLastSegment(PrintPath(path)) == PrintPath(Pop(path))
  {
    if path != [] {
      var last := path[|path| - 1];
      assert path == Pop(path) + [last] && last in path;
      PrintPathAppend(Pop(path), [last]);
      assert PrintPath([last]) == "/" + last;
      assert PrintPath(path) == PrintPath(Pop(path)) + "/" + last;
      DropLastOfPiece(PrintPath(Pop(path)), last);
    }
  }

  function Slash(last: string): string {
    if IsName(last) then "" else "/"
  }

  /** Rules A and D never see input that begins with a slash; B and C look for a second slash. */
  lemma DotRules(input: string)
    requires input != "" && input[0] == '/'
    ensures !("../" <= input) && !("./" <= input) && input != "." && input != ".."
    ensures "/./" <= input ==> input[1] == '.' && input[2] == '/'
    ensures "/../" <= input ==> input[1] == '.' && input[2] == '.' && input[3] == '/'
    ensures input == "/." <==> |input| == 2 && input[1] == '.'
    ensures input == "/.." <==> |input| == 3 && input[1] == '.' && input[2] == '.'
  {
  }

  lemma RemoveDotSegmentsAtSlash(output: string)
    ensures RemoveDotSegments("/", output) == output + "/"
  {
    DotRules("/");
    assert "/"[1..] == "" && "/"[..1] == "/";
    assert DotStep("/", output) == ("", output + "/");
  }

  lemma RuleB(rest: string, output: string)
    ensures DotStep("/./" + rest, output) == ("/" + rest, output)
  {
    var input := "/./" + rest;
    DotRules(input);
    assert input[..3] == "/./" && input[2..] == "/" + rest;
  }

  lemma RuleC(rest: string, output: string)
    ensures DotStep("/../" + rest, output) == ("/" + rest, DropLastSegment(output))
  {
    var input := "/../" + rest;
    DotRules(input);
    assert input[..4] == "/../" && input[3..] == "/" + rest;
  }

  predicate IsDots(segment: string) {
    segment == "." || segment == ".."
  }

  lemma NoDotSegmentAhead(segment: string, tail: string)
    requires '/' !in segment && !IsDots(segment)
    requires tail == "" || tail[0] == '/'
    ensures var input := "/" + segment + tail;
      !("/./" <= input) && !("/../" <= input) && input != "/." && input != "/.."
  {
    var input, n := "/" + segment + tail, 1 + |segment|;
    DotRules(input);
    assert forall k :: 1 <= k < n ==> input[k] == segment[k - 1] && segment[k - 1] in segment;
    assert segment == "." <==> n == 2 && segment[0] == '.';
    assert segment == ".." <==> n == 3 && segment[0] == '.' && segment[1] == '.';
  }

  lemma RuleE(segment: string, tail: string, output: string)
    requires '/' !in segment && !IsDots(segment)
    requires tail == "" || tail[0] == '/'
    ensures DotStep("/" + segment + tail, output) == (tail, output + "/" + segment)
  {
    var input, n := "/" + segment + tail, 1 + |segment|;
    NoDotSegmentAhead(segment, tail);
    DotRules(input);
    assert Find(input[1..], '/') == |segment| by {
      assert input[1..] == segment + tail;
      FindAfter(segment, tail, '/');
    }
    assert input[n..] == tail && output + input[..n] == output + "/" + segment by {
      assert input[..n] == "/" + segment;
    }
  }

  lemma PrintPathPush(path: Path, segment: string)
    ensures PrintPath(path + [segment]) == PrintPath(path) + "/" + segment
  {
    PrintPathAppend(path, [segment]);
    assert PrintPath([segment]) == "/" + segment + "";
  }

  /** The stack of the RFC's algorithm, which keeps empty segments. */
  function Keep(path: Path, segment: string): Path {
    if segment == "." then path
    else if segment == ".." then Pop(path)
    else path + [segment]
  }

  function KeepAll(path: Path, segments: seq<string>): Path
    decreases |segments|
  {
    if segments == [] then path else KeepAll(Keep(path, segments[0]), segments[1..])
  }

  lemma RemoveDotSegmentsLast(path: Path, text: string)
    requires FreeOf(path, '/') && '/' !in text
    ensures RemoveDotSegments("/" + text, PrintPath(path)) == PrintPath(Push(path, text)) + Slash(text)
  {
    if IsName(text) {
      assert "/" + text + "" == "/" + text;
      RuleE(text, "", PrintPath(path));
      PrintPathPush(path, text);
    } else {
      DropLastIsPop(path);
      RemoveDotSegmentsAtSlash(PrintPath(path));
      RemoveDotSegmentsAtSlash(PrintPath(Pop(path)));
      DotRules("/" + text);
      assert text == "" ==> "/" + text == "/";
      assert text == "." ==> "/" + text == "/.";
      assert text == ".." ==> "/" + text == "/..";
    }
  }

  lemma RemoveDotSegmentsStep(path: Path, segment: string, rest: string)
    requires FreeOf(path, '/') && '/' !in segment
    ensures RemoveDotSegments("/" + segment + "/" + rest, PrintPath(path))
         == RemoveDotSegments("/" + rest, PrintPath(Keep(path, segment)))
  {
    assert "/" + segment + "/" + rest == "/" + segment + ("/" + rest);
    if segment == "." {
      assert "/" + segment + "/" + rest == "/./" + rest;
      RuleB(rest, PrintPath(path));
    } else if segment == ".." {
      assert "/" + segment + "/" + rest == "/../" + rest;
      RuleC(rest, PrintPath(path));
      DropLastIsPop(path);
    } else {
      RuleE(segment, "/" + rest, PrintPath(path));
      PrintPathPush(path, segment);
    }
  }

  /** On every text remove_dot_segments of "/" + text is a stack that keeps empty segments. */
  lemma {:induction false} RemoveDotSegmentsIsKeepingStack(path: Path, text: string)
    requires FreeOf(path, '/')
    ensures RemoveDotSegments("/" + text, PrintPath(path))
         == PrintPath(Push(KeepAll(path, Inner(text)), LastPiece(text))) + Slash(LastPiece(text))
    ensures FreeOf(Push(KeepAll(path, Inner(text)), LastPiece(text)), '/')
    decreases |text|
  {
    var i := Find(text, '/');
    if i == |text| {
      FindNone(text, '/');
      RemoveDotSegmentsLast(path, text);
    } else {
      var segment, rest := text[..i], text[i + 1..];
      assert "/" + text == "/" + segment + "/" + rest;
      RemoveDotSegmentsStep(path, segment, rest);
      RemoveDotSegmentsIsKeepingStack(Keep(path, segment), rest);
    }
  }

  /** The builder's stack on the same pieces. */
  lemma {:induction false} AddSegmentsInPieces(path: Path, text: string)
    ensures AddSegments(path, text) == Push(PushAll(path, Inner(text)), LastPiece(text))
    decreases |text|
  {
    var i := Find(text, '/');
    if i == |text| {
      FindNone(text, '/');
      AddSegmentsOfPiece(path, text);
    } else {
      var segment, rest := text[..i], text[i + 1..];
      assert text == segment + "/" + rest;
      AddSegmentsConcat(path, segment, rest);
      AddSegmentsOfPiece(path, segment);
      AddSegmentsInPieces(Push(path, segment), rest);
      assert Inner(text)[0] == segment && Inner(text)[1..] == Inner(rest);
    }
  }

  lemma PushOne(path: Path, segment: string)
    ensures PushAll(path, [segment]) == Push(path, segment)
  {
    assert [segment][1..] == [];
  }

  /** The position of the last empty segment, -1 if there is none. */
  function LastEmpty(segments: seq<string>): (k: int)
    ensures -1 <= k < |segments| && "" !in segments[k + 1..]
    ensures k >= 0 ==> segments[k] == ""
  {
    if segments == [] then -1
    else if segments[|segments| - 1] == "" then |segments| - 1
    else LastEmpty(segments[..|segments| - 1])
  }

  /**
    No empty segment lies between two slashes, or behind the last such segment the text climbs past
    everything in front of it, to the root.
   */
  predicate ClimbsOut(path: Path, inner: seq<string>, last: string) {
    var k := LastEmpty(inner);
    k < 0 || |KeepAll(path, inner[..k])| < FollowAll(STAY, inner[k + 1..] + [last]).up
  }

  lemma {:induction false} KeepAllAppend(path: Path, a: seq<string>, b: seq<string>)
    ensures KeepAll(path, a + b) == KeepAll(KeepAll(path, a), b)
    decreases |a|
  {
    if a == [] {
      assert a + b == b;
    } else {
      assert (a + b)[0] == a[0] && (a + b)[1..] == a[1..] + b;
      KeepAllAppend(Keep(path, a[0]), a[1..], b);
    }
  }

  lemma {:induction false} NothingToDrop(path: Path, segments: seq<string>)
    requires "" !in segments
    ensures KeepAll(path, segments) == PushAll(path, segments)
    decreases |segments|
  {
    if segments != [] {
      assert segments[0] in segments && forall s <- segments[1..] :: s in segments;
      NothingToDrop(Push(path, segments[0]), segments[1..]);
    }
  }

  /** The stack that keeps empty segments is never the shorter one. */
  lemma {:induction false} DroppingIsShorter(p: Path, q: Path, segments: seq<string>)
    requires |p| <= |q|
    ensures |PushAll(p, segments)| <= |KeepAll(q, segments)|
    decreases |segments|
  {
    if segments != [] {
      DroppingIsShorter(Push(p, segments[0]), Keep(q, segments[0]), segments[1..]);
    }
  }

  lemma SplitAtEmpty(path: Path, inner: seq<string>, k: nat)
    requires k < |inner| && inner[k] == "" && "" !in inner[k + 1..]
    ensures KeepAll(path, inner) == PushAll(KeepAll(path, inner[..k]) + [""], inner[k + 1..])
    ensures PushAll(path, inner) == PushAll(PushAll(path, inner[..k]), inner[k + 1..])
  {
    var before, after := inner[..k], inner[k + 1..];
    assert inner == before + ([""] + after);
    assert ([""] + after)[1..] == after;
    KeepAllAppend(path, before, [""] + after);
    PushAllAppend(path, before, [""] + after);
    NothingToDrop(KeepAll(path, before) + [""], after);
  }

  lemma RestIsWalk(path: Path, after: seq<string>, last: string)
    ensures Push(PushAll(path, after), last) == Walk(path, FollowAll(STAY, after + [last]))
  {
    PushAllAppend(path, after, [last]);
    PushOne(PushAll(path, after), last);
    PushAllIsWalk(path, after + [last]);
  }

  lemma StacksMeetBehind(path: Path, before: seq<string>, after: seq<string>, last: string)
    ensures (Push(PushAll(KeepAll(path, before) + [""], after), last)
             == Push(PushAll(PushAll(path, before), after), last))
       <==> |KeepAll(path, before)| < FollowAll(STAY, after + [last]).up
  {
    var p, q := PushAll(path, before), KeepAll(path, before) + [""];
    DroppingIsShorter(path, path, before);
    RestIsWalk(p, after, last);
    RestIsWalk(q, after, last);
    WalksMeet(p, q, FollowAll(STAY, after + [last]));
  }

  lemma StacksMeetAt(path: Path, inner: seq<string>, k: nat, last: string)
    requires k < |inner| && inner[k] == "" && "" !in inner[k + 1..]
    ensures Push(KeepAll(path, inner), last) == Push(PushAll(path, inner), last)
       <==> |KeepAll(path, inner[..k])| < FollowAll(STAY, inner[k + 1..] + [last]).up
  {
    SplitAtEmpty(path, inner, k);
    StacksMeetBehind(path, inner[..k], inner[k + 1..], last);
  }

  lemma WithoutEmptySegments(path: Path, inner: seq<string>)
    requires LastEmpty(inner) == -1
    ensures KeepAll(path, inner) == PushAll(path, inner)
  {
    assert inner[0..] == inner;
    NothingToDrop(path, inner);
  }

  /** The two stacks end equal exactly when ClimbsOut. */
  lemma StacksMeet(path: Path, inner: seq<string>, last: string)
    ensures Push(KeepAll(path, inner), last) == Push(PushAll(path, inner), last) <==> ClimbsOut(path, inner, last)
  {
    var k := LastEmpty(inner);
    if k < 0 {
      WithoutEmptySegments(path, inner);
    } else {
      StacksMeetAt(path, inner, k, last);
    }
  }

  lemma FirstSegmentIsUnique(x: string, r: string, y: string, s: string)
    requires '/' !in x && '/' !in y && x + r == y + s
    requires (r == "" || r[0] == '/') && (s == "" || s[0] == '/')
    ensures x == y && r == s
  {
    FindAfter(x, r, '/');
    FindAfter(y, s, '/');
    assert x == (x + r)[..|x|] && y == (y + s)[..|y|];
    assert r == (x + r)[|x|..] && s == (y + s)[|y|..];
  }

  /** Lists without slashes are told apart by their printed form. */
  lemma {:induction false} PrintPathIsInjective(a: Path, b: Path)
    requires FreeOf(a, '/') && FreeOf(b, '/') && PrintPath(a) == PrintPath(b)
    ensures a == b
  {
    if a != [] && b != [] {
      var r, s := PrintPath(a[1..]), PrintPath(b[1..]);
      assert a[0] in a && b[0] in b;
      assert (forall x <- a[1..] :: x in a) && forall x <- b[1..] :: x in b;
      assert a[0] + r == PrintPath(a)[1..] == PrintPath(b)[1..] == b[0] + s;
      FirstSegmentIsUnique(a[0], r, b[0], s);
      PrintPathIsInjective(a[1..], b[1..]);
      assert a == [a[0]] + a[1..] && b == [b[0]] + b[1..];
    }
  }

  lemma SameEnd(a: string, b: string, end: string)
    ensures a + end == b + end <==> a == b
  {
    if a + end == b + end {
      assert a == (a + end)[..|a|] && b == (b + end)[..|a|];
    }
  }

  /**
    The builder's stack computes remove_dot_segments of "/" + text, up to the trailing slash that the
    algorithm keeps and the segment list cannot hold, exactly when ClimbsOut.
   */
  lemma StackIsRemoveDotSegmentsExactly(path: Path, text: string)
    requires FreeOf(path, '/')
    ensures (RemoveDotSegments("/" + text, PrintPath(path))
             == PrintPath(AddSegments(path, text)) + Slash(LastPiece(text)))
       <==> ClimbsOut(path, Inner(text), LastPiece(text))
  {
    var kept, last := Push(KeepAll(path, Inner(text)), LastPiece(text)), LastPiece(text);
    RemoveDotSegmentsIsKeepingStack(path, text);
    AddSegmentsKeepsFree(path, text);
    AddSegmentsInPieces(path, text);
    StacksMeet(path, Inner(text), last);
    if PrintPath(kept) == PrintPath(AddSegments(path, text)) {
      PrintPathIsInjective(kept, AddSegments(path, text));
    }
    SameEnd(PrintPath(kept), PrintPath(AddSegments(path, text)), Slash(last));
  }

  lemma {:induction false} PushAllKeepsFree(path: Path, segments: seq<string>, c: char)
    requires FreeOf(path, c) && FreeOf(segments, c)
    ensures FreeOf(PushAll(path, segments), c)
    decreases |segments|
  {
    if segments != [] {
      assert segments[0] in segments && forall s <- segments[1..] :: s in segments;
      PushAllKeepsFree(Push(path, segments[0]), segments[1..], c);
    }
  }

  lemma AddSegmentsKeepsFree(path: Path, text: string)
    requires FreeOf(path, '/')
    ensures FreeOf(AddSegments(path, text), '/')
  {
    TokensAreClean(text, '/');
    PushAllKeepsFree(path, Tokens(text, '/'), '/');
  }

  lemma {:induction false} InnerOfNoEmptySegment(text: string)
    requires NoEmptySegment(text)
    ensures "" !in Inner(text)
    decreases |text|
  {
    var i := Find(text, '/');
    if i < |text| {
      InnerOfNoEmptySegment(text[i + 1..]);
    }
  }

  /** In particular on every text without empty segments inside. */
  lemma StackIsRemoveDotSegments(path: Path, text: string)
    requires FreeOf(path, '/') && NoEmptySegment(text)
    ensures RemoveDotSegments("/" + text, PrintPath(path))
         == PrintPath(AddSegments(path, text)) + Slash(LastPiece(text))
  {
    InnerOfNoEmptySegment(text);
    StackIsRemoveDotSegmentsExactly(path, text);
  }

  /** And on no text whose last piece is a name directly behind an empty segment. */
  lemma EmptySegmentsDiffer(path: Path, text: string)
    requires FreeOf(path, '/') && IsName(LastPiece(text))
    requires var inner := Inner(text); inner != [] && inner[|inner| - 1] == ""
    ensures RemoveDotSegments("/" + text, PrintPath(path))
         != PrintPath(AddSegments(path, text)) + Slash(LastPiece(text))
  {
    var inner, last := Inner(text), LastPiece(text);
    StackIsRemoveDotSegmentsExactly(path, text);
    assert inner[|inner|..] + [last] == [last] && [last][1..] == [];
    assert FollowAll(STAY, [last]) == Follow(STAY, last);
  }
}
