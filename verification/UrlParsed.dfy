/**
  Texts as users write them: which of them Parse throws on, what it leaves behind otherwise, and which
  delimiters in the fields are never read back.
 */
module UrlParsed {
  import opened Text
  import opened PathSegments
  import opened QueryMap
  import opened UrlModel
  import opened UrlScanning
  import opened UrlTheorems

  // ---------------------------------------------------------------- texts that throw

  /** A scheme word with nothing behind it but ":" and one more character, or less. */
  predicate IsStub(t: string) {
    exists k | 0 <= k <= |t| ::
      IsScheme(Lower(t[..k])) && |t| < k + 3 && (k == |t| || t[k] == ':')
  }

  lemma StubIs(t: string, k: nat)
    requires k <= |t| && IsScheme(Lower(t[..k])) && (k == |t| || t[k] == ':')
    ensures k == Find(t, ':') && |Lower(t[..k])| == k
  {
    WordIsPlain(t[..k]);
    FindIs(t, ':', k);
  }

  /** Parse throws exactly on texts that are long enough only by the blanks around such a stub. */
  lemma ThrowsExactly(before: Parts, url: string)
    ensures Parse(before, url).0 == OutOfRange <==> |url| > 7 && IsStub(TrimBlanks(url))
    ensures Parse(before, url).0 == OutOfRange ==>
      Parse(before, url).1 == CLEARED.(scheme := "http") || Parse(before, url).1 == CLEARED.(scheme := "https")
  {
    var t := TrimBlanks(url);
    var k := Find(t, ':');
    if IsStub(t) {
      var j: nat :| j <= |t| && IsScheme(Lower(t[..j])) && |t| < j + 3 && (j == |t| || t[j] == ':');
      StubIs(t, j);
    }
    if |url| > 7 && IsScheme(Lower(t[..k])) {
      StubIs(t, k);
    }
  }

  lemma {:induction false} TrimSpaces(blanks: string)
    requires forall i :: 0 <= i < |blanks| ==> blanks[i] == ' '
    ensures TrimRight(blanks, ' ') == ""
    decreases |blanks|
  {
    if blanks != "" {
      TrimSpaces(blanks[..|blanks| - 1]);
    }
  }

  /** In particular on a bare scheme word followed by enough spaces. */
  lemma BareSchemeThrows(before: Parts, word: string, blanks: string)
    requires IsScheme(Lower(word)) && (forall i :: 0 <= i < |blanks| ==> blanks[i] == ' ') && |word + blanks| > 7
    ensures Parse(before, word + blanks) == (OutOfRange, CLEARED.(scheme := Lower(word)))
  {
    WordIsPlain(word);
    assert word[0] in word && word[|word| - 1] in word;
    TrimBlanksOfSolidStart(word + blanks);
    TrimBlanksRightKeeps(word, blanks);
    TrimSpaces(blanks);
    assert TrimBlanks(word + blanks) == word + "" == word;
    FindNone(word, ':');
    assert word[..|word|] == word;
  }

  // ---------------------------------------------------------------- blanks

  predicate NoBlank(s: string) {
    forall x <- s :: !IsBlank(x)
  }

  lemma EndsSolidAfter(a: string, b: string)
    ensures EndsSolid(b) ==> EndsSolid(a + b)
    ensures NoBlank(b) && b != "" ==> EndsSolid(b)
  {
    if b != "" {
      assert (a + b)[|a + b| - 1] == b[|b| - 1];
      assert b[|b| - 1] in b;
    }
  }

  // ---------------------------------------------------------------- what Parse leaves behind

  /** What holds of the fields after every successful Parse. */
  ghost predicate Parsed(b: Parts) {
    IsScheme(b.scheme) && ':' !in b.host && INT32_MIN <= b.port <= INT32_MAX &&
    Normal(b.path) && FreeOf(b.path, '/') && Readable(b.query)
  }

  ghost predicate FrontFree(b: Parts, c: char) {
    c !in b.host && FreeOf(b.path, c)
  }

  lemma HostOfIs(hp: string)
    ensures ':' !in HostOf(hp) && HostOf(hp) <= hp
  {
    FindNone(hp, ':');
  }

  lemma PathTextOf(hp: string) returns (text: string)
    ensures PathOf(hp) == AddSegments([], text) && forall x <- text :: x in hp
  {
    var slash := Find(hp, '/');
    text := if slash < |hp| then hp[slash + 1..] else hp;
  }

  lemma AssembledIsParsed(scheme: string, hp: string, t: string)
    requires IsScheme(scheme)
    ensures Parsed(Assemble(scheme, hp, t))
  {
    var text := PathTextOf(hp);
    HostOfIs(hp);
    AddSegmentsFromEmpty(text);
    ReadQueryIsReadable(QueryText(t));
  }

  lemma AssembledFree(scheme: string, hp: string, t: string, c: char)
    ensures c !in hp ==> FrontFree(Assemble(scheme, hp, t), c)
    ensures c !in QueryText(t) ==> QueryFreeOf(Assemble(scheme, hp, t).query, c)
  {
    if c !in hp {
      var text := PathTextOf(hp);
      HostOfIs(hp);
      PrefixFreeOf(HostOf(hp), hp, c);
      AddSegmentsFromEmpty(text);
    }
    if c !in QueryText(t) {
      ReadQueryFreeOf(QueryText(t), c);
    }
  }

  lemma AcceptedIsParsed(before: Parts, url: string)
    requires Parse(before, url).0 == Accepted
    ensures Parsed(Parse(before, url).1)
  {
    var t := TrimBlanks(url);
    var scheme := Lower(t[..Find(t, ':')]);
    assert ParseTrimmed(t) == ParseBody(scheme, t);
    AssembledIsParsed(scheme, HostPath(t, |scheme| + 3), t);
  }

  /** Of the fields Parse leaves, those are legible that hold no '?' or '#' in front of the fragment. */
  lemma LegibleIsFree(b: Parts)
    requires Parsed(b)
    ensures Legible(b) <==> FrontFree(b, '?') && FrontFree(b, '#') && QueryFreeOf(b.query, '#')
  {
    CleanIsReadable(b.query);
  }

  // ---------------------------------------------------------------- what canonical means

  lemma PrintNormalized(b: Parts)
    ensures Print(Normalized(b)) == Print(b)
  {
    assert EffectivePort(Normalized(b)) == EffectivePort(b);
    assert Authority(Normalized(b)) == Authority(b);
  }

  /** Parsing the printed form gives the same parts, so that printing again gives the same text. */
  ghost predicate IsCanonical(before: Parts, b: Parts) {
    Parse(before, Print(b)) == (Accepted, Normalized(b))
  }

  // ---------------------------------------------------------------- delimiters that are read differently

  /** The printed text behind the scheme as it is read: trimmed, and never short of the authority. */
  ghost function ReadText(b: Parts): string {
    Authority(b) + TrimBlanksRight(PrintPath(b.path) + Tail(b))
  }

  lemma TrimmedPrint(b: Parts)
    ensures TrimBlanksRight(Print(b)) == b.scheme + "://" + ReadText(b)
  {
    var head, more := b.scheme + "://", PrintPath(b.path) + Tail(b);
    AuthorityEndsSolid(b);
    EndsSolidAfter(head, Authority(b));
    assert Print(b) == head + Authority(b) + more by {
      Assoc(head, Authority(b), PrintPath(b.path));
      Assoc(head + Authority(b), PrintPath(b.path), Tail(b));
    }
    TrimBlanksRightKeeps(head + Authority(b), more);
    Assoc(head, Authority(b), TrimBlanksRight(more));
  }

  lemma PlainHead(scheme: string)
    requires IsScheme(scheme)
    ensures '?' !in scheme + "://" && '#' !in scheme + "://" && |scheme + "://"| == |scheme| + 3
  {
  }

  lemma ParseBehindScheme(scheme: string, rest: string)
    requires IsScheme(scheme)
    ensures ParseTrimmed(scheme + "://" + rest) == ParseBody(scheme, scheme + "://" + rest)
  {
    LowerOfScheme(scheme);
    ScanScheme(scheme, "://", rest);
  }

  lemma PrintedIsRead(before: Parts, b: Parts)
    requires IsScheme(b.scheme)
    ensures Parse(before, Print(b)) == ParseBody(b.scheme, b.scheme + "://" + ReadText(b))
  {
    PrintStart(b);
    TrimmedPrint(b);
    ParseBehindScheme(b.scheme, ReadText(b));
  }

  /** What is read back, field by field. */
  lemma ReadBackIsAssembled(before: Parts, b: Parts)
    requires IsScheme(b.scheme) && Parse(before, Print(b)).0 == Accepted
    ensures var t := b.scheme + "://" + ReadText(b);
      Parse(before, Print(b)).1 == Assemble(b.scheme, HostPath(t, |b.scheme| + 3), t)
  {
    PrintedIsRead(before, b);
  }

  /** The printed form is read back as it was, the port aside. */
  ghost predicate ComesBack(before: Parts, b: Parts) {
    var (outcome, r) := Parse(before, Print(b));
    outcome == Accepted && r.(port := b.port) == b
  }

  lemma CanonicalComesBack(before: Parts, b: Parts)
    ensures IsCanonical(before, b) ==> ComesBack(before, b)
  {
  }

  lemma FrontIsPrinted(b: Parts, c: char)
    requires !FrontFree(b, c)
    ensures c in Authority(b) || c in PrintPath(b.path)
  {
    if c in b.host {
      assert c in HostText(b.host);
    } else {
      var s :| s in b.path && c in s;
      var i: nat :| i < |b.path| && b.path[i] == s;
      PrintPathHas(b.path, i, c);
    }
  }

  lemma DelimiterIsKept(b: Parts, c: char)
    requires c in Authority(b) || c in PrintPath(b.path) + Tail(b)
    requires !IsBlank(c)
    ensures c in ReadText(b)
  {
    if c !in Authority(b) {
      TrimKeepsSolid(PrintPath(b.path) + Tail(b), c);
    }
  }

  lemma CutAtQuestionMark(head: string, rest: string)
    requires '?' !in head && '?' in rest
    ensures '?' !in HostPath(head + rest, |head|)
  {
    FindAfter(head, rest, '?');
    FindNone(rest, '?');
    assert (head + rest)[|head|..|head| + Find(rest, '?')] == rest[..Find(rest, '?')];
  }

  lemma QuestionMarkIsCut(b: Parts)
    requires IsScheme(b.scheme) && !FrontFree(b, '?')
    ensures var t := b.scheme + "://" + ReadText(b);
      |b.scheme| + 3 <= |t| && '?' !in HostPath(t, |b.scheme| + 3)
  {
    PlainHead(b.scheme);
    FrontIsPrinted(b, '?');
    DelimiterIsKept(b, '?');
    CutAtQuestionMark(b.scheme + "://", ReadText(b));
  }

  /** No '?' comes back in host or path. */
  lemma QuestionMarkFails(before: Parts, b: Parts)
    requires IsScheme(b.scheme) && !FrontFree(b, '?')
    ensures !ComesBack(before, b)
  {
    QuestionMarkIsCut(b);
    if ComesBack(before, b) {
      var t := b.scheme + "://" + ReadText(b);
      ReadBackIsAssembled(before, b);
      AssembledFree(b.scheme, HostPath(t, |b.scheme| + 3), t, '?');
    }
  }

  /** The text in front of the fragment. */
  ghost function BeforeFragment(b: Parts): string {
    Front(b) + QueryPart(b.query)
  }

  lemma HashIsPrinted(b: Parts)
    requires Parsed(b) && !(FrontFree(b, '#') && QueryFreeOf(b.query, '#'))
    ensures '#' in BeforeFragment(b) && ('#' in Authority(b) || '#' in PrintPath(b.path) + Tail(b))
  {
    if !FrontFree(b, '#') {
      FrontIsPrinted(b, '#');
    } else {
      var n, v :| Has(b.query, n, v) && ('#' in n || '#' in v);
      PrintQueryHas(b.query, n, v, '#');
    }
  }

  /** A '#' in front of the fragment adds text to it, more than trimming can make up for. */
  lemma FragmentGrows(front: string, fragment: string)
    requires '#' in front
    ensures FragmentText(front + ("#" + TrimBlanksRight(fragment))) != fragment
  {
    var f, y := Find(front, '#'), TrimBlanksRight(fragment);
    var t, added := front + ("#" + y), front[f + 1..] + "#";
    FindNone(front, '#');
    assert t[..f] == front[..f];
    FindIs(t, '#', f);
    FragmentTextIs(t, f);
    assert t[f + 1..|t|] == added + y;
    TrimmedNeverSame(added, fragment);
  }

  lemma TrimmedFragment(b: Parts)
    requires b.fragment != ""
    ensures TrimBlanksRight(Print(b)) == BeforeFragment(b) + ("#" + TrimBlanksRight(b.fragment))
  {
    var front := BeforeFragment(b);
    Assoc(Front(b), QueryPart(b.query), FragmentPart(b.fragment));
    Assoc(front, "#", b.fragment);
    EndsSolidAfter(front, "#");
    TrimBlanksRightKeeps(front + "#", b.fragment);
    Assoc(front, "#", TrimBlanksRight(b.fragment));
  }

  lemma NoHashInHostPath(head: string, rest: string)
    requires '#' !in head && '?' !in head && Find(rest, '#') == |rest| - 1
    ensures '#' !in HostPath(head + rest, |head|)
  {
    var f, q := Find(rest, '#'), Find(rest, '?');
    FindAfter(head, rest, '#');
    FindAfter(head, rest, '?');
    var end := if q < |rest| then q else f;
    SliceAfter(head, rest, 0, end);
    PrefixFreeOf(rest[..end], rest[..f], '#');
  }

  lemma NoHashInQuery(rest: string)
    requires Find(rest, '#') == |rest| - 1
    ensures '#' !in QueryText(rest)
  {
    var f, q := Find(rest, '#'), Find(rest, '?');
    if q < |rest| {
      QueryTextIs(rest, q, f);
      assert forall i :: q + 1 <= i < f ==> rest[i] == rest[..f][i];
    }
  }

  lemma NothingBehindHash(head: string, rest: string)
    requires '#' in rest && '#' !in head && '?' !in head && FragmentText(head + rest) == ""
    ensures '#' !in HostPath(head + rest, |head|) && '#' !in QueryText(head + rest)
  {
    FindNone(rest, '#');
    ScanFragment(head, rest);
    ScanQuery(head, rest);
    FragmentTextIs(rest, Find(rest, '#'));
    NoHashInHostPath(head, rest);
    NoHashInQuery(rest);
  }

  lemma HashWithoutFragment(before: Parts, b: Parts)
    requires Parsed(b) && !(FrontFree(b, '#') && QueryFreeOf(b.query, '#')) && b.fragment == ""
    ensures !ComesBack(before, b)
  {
    var head, t := b.scheme + "://", b.scheme + "://" + ReadText(b);
    PlainHead(b.scheme);
    if FragmentText(t) == "" {
      HashIsPrinted(b);
      DelimiterIsKept(b, '#');
      NothingBehindHash(head, ReadText(b));
      AssembledFree(b.scheme, HostPath(t, |head|), t, '#');
    }
    if ComesBack(before, b) {
      ReadBackIsAssembled(before, b);
    }
  }

  /** A '#' in front of the fragment lengthens the fragment, or is lost where there is no fragment. */
  lemma HashFails(before: Parts, b: Parts)
    requires Parsed(b) && !(FrontFree(b, '#') && QueryFreeOf(b.query, '#'))
    ensures !ComesBack(before, b)
  {
    if b.fragment == "" {
      HashWithoutFragment(before, b);
    } else {
      HashIsPrinted(b);
      TrimmedPrint(b);
      TrimmedFragment(b);
      FragmentGrows(BeforeFragment(b), b.fragment);
      if ComesBack(before, b) {
        ReadBackIsAssembled(before, b);
      }
    }
  }
}
