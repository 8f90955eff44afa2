/**
  The pieces of std::string, std::set iteration and the C library that the URL code leans on:
  first-occurrence search, trimming, tokenising, decimal numbers and the lexicographic order.
 */
module Text {

  // ---------------------------------------------------------------- searching

  /** Position of the first c in s; |s| plays the part of std::string::npos. */
  function Find(s: string, c: char): (i: nat)
    ensures i <= |s|
    ensures c !in s[..i]
    ensures i < |s| ==> s[i] == c
  {
    if s == "" || s[0] == c then 0 else 1 + Find(s[1..], c)
  }

  /** The same search from a position on. */
  function FindFrom(s: string, c: char, start: nat): (i: nat)
    requires start <= |s|
    ensures start <= i <= |s|
    ensures c !in s[start..i]
    ensures i < |s| ==> s[i] == c
  {
    assert s[start..][..Find(s[start..], c)] == s[start..start + Find(s[start..], c)];
    start + Find(s[start..], c)
  }

  lemma {:induction false} FindIs(s: string, c: char, i: nat)
    requires i <= |s| && c !in s[..i]
    requires i < |s| ==> s[i] == c
    ensures Find(s, c) == i
  {
    if i > 0 {
      assert s[..i][0] == s[0] && s[..i][1..] == s[1..][..i - 1];
      FindIs(s[1..], c, i - 1);
    }
  }

  lemma FindAfter(a: string, b: string, c: char)
    requires c !in a
    ensures Find(a + b, c) == |a| + Find(b, c)
  {
    var i := |a| + Find(b, c);
    assert (a + b)[..i] == a + b[..Find(b, c)];
    FindIs(a + b, c, i);
  }

  lemma FindNone(s: string, c: char)
    ensures Find(s, c) == |s| <==> c !in s
  {
    assert s[..|s|] == s;
    if Find(s, c) < |s| {
      assert s[Find(s, c)] == c;
    } else {
      assert c !in s[..|s|];
    }
  }

  lemma PrefixFreeOf(a: string, b: string, c: char)
    requires a <= b && c !in b
    ensures c !in a
  {
    assert forall i :: 0 <= i < |a| ==> a[i] == b[i];
  }

  lemma SliceSplit(s: string, i: nat, j: nat, k: nat)
    requires i <= j <= k <= |s|
    ensures s[i..k] == s[i..j] + s[j..k]
    ensures |s[j..k]| == k - j
  {
  }

  lemma AppendsNothing(a: string, b: string)
    ensures a + b == a <==> b == ""
  {
    assert |a + b| == |a| + |b|;
    assert a + "" == a;
  }

  lemma SliceAfter(a: string, b: string, i: nat, j: nat)
    requires i <= j <= |b|
    ensures (a + b)[|a| + i..|a| + j] == b[i..j]
  {
  }

  // ---------------------------------------------------------------- trimming

  const FORM_FEED: char := '\U{0C}'
  const VERTICAL_TAB: char := '\U{0B}'

  /** The characters that Parse strips from both ends. */
  predicate IsBlank(c: char) {
    c == ' ' || c == '\t' || c == '\n' || c == FORM_FEED || c == '\r'
  }

  function TrimLeft(s: string, c: char): string {
    if s != "" && s[0] == c then TrimLeft(s[1..], c) else s
  }

  function TrimRight(s: string, c: char): string {
    if s != "" && s[|s| - 1] == c then TrimRight(s[..|s| - 1], c) else s
  }

  function TrimBlanksLeft(s: string): string {
    TrimLeft(TrimLeft(TrimLeft(TrimLeft(TrimLeft(s, ' '), '\t'), '\n'), FORM_FEED), '\r')
  }

  function TrimBlanksRight(s: string): string {
    TrimRight(TrimRight(TrimRight(TrimRight(TrimRight(s, ' '), '\t'), '\n'), FORM_FEED), '\r')
  }

  /** One pass per blank, in a fixed order: a mixture of blanks may survive in part. */
  function TrimBlanks(s: string): string {
    TrimBlanksRight(TrimBlanksLeft(s))
  }

  predicate EndsSolid(s: string) {
    s != "" && !IsBlank(s[|s| - 1])
  }

  lemma {:induction false} TrimRightKeeps(a: string, y: string, c: char)
    requires a != "" && a[|a| - 1] != c
    ensures TrimRight(a + y, c) == a + TrimRight(y, c)
    decreases |y|
  {
    if y == "" {
      assert a + y == a;
    } else {
      assert (a + y)[..|a + y| - 1] == a + y[..|y| - 1];
      if y[|y| - 1] == c {
        TrimRightKeeps(a, y[..|y| - 1], c);
      }
    }
  }

  /** Trimming never reaches past a character that is not blank. */
  lemma TrimBlanksRightKeeps(a: string, y: string)
    requires EndsSolid(a)
    ensures TrimBlanksRight(a + y) == a + TrimBlanksRight(y)
  {
    var y1 := TrimRight(y, ' ');
    var y2 := TrimRight(y1, '\t');
    var y3 := TrimRight(y2, '\n');
    var y4 := TrimRight(y3, FORM_FEED);
    TrimRightKeeps(a, y, ' ');
    TrimRightKeeps(a, y1, '\t');
    TrimRightKeeps(a, y2, '\n');
    TrimRightKeeps(a, y3, FORM_FEED);
    TrimRightKeeps(a, y4, '\r');
  }

  lemma {:induction false} TrimRightShrinks(s: string, c: char)
    ensures TrimRight(s, c) <= s
    ensures s != "" && s[|s| - 1] == c ==> |TrimRight(s, c)| < |s|
    decreases |s|
  {
    if s != "" && s[|s| - 1] == c {
      TrimRightShrinks(s[..|s| - 1], c);
    }
  }

  /** The right trim keeps a prefix, and it keeps all of s exactly when s does not end in a blank. */
  lemma TrimBlanksRightPrefix(s: string)
    ensures TrimBlanksRight(s) <= s
    ensures |TrimBlanksRight(s)| == |s| <==> s == "" || EndsSolid(s)
  {
    var s1 := TrimRight(s, ' ');
    var s2 := TrimRight(s1, '\t');
    var s3 := TrimRight(s2, '\n');
    var s4 := TrimRight(s3, FORM_FEED);
    TrimRightShrinks(s, ' ');
    TrimRightShrinks(s1, '\t');
    TrimRightShrinks(s2, '\n');
    TrimRightShrinks(s3, FORM_FEED);
    TrimRightShrinks(s4, '\r');
  }

  lemma SolidStays(s: string)
    requires EndsSolid(s)
    ensures TrimBlanksRight(s) == s
  {
    TrimBlanksRightPrefix(s);
  }

  lemma {:induction false} TrimRightCuts(s: string, c: char, i: nat)
    requires |TrimRight(s, c)| <= i < |s|
    ensures s[i] == c
    decreases |s|
  {
    if s[|s| - 1] == c && i < |s| - 1 {
      TrimRightCuts(s[..|s| - 1], c, i);
    }
  }

  /** Only blanks are trimmed off. */
  lemma TrimBlanksRightCuts(s: string, i: nat)
    requires |TrimBlanksRight(s)| <= i < |s|
    ensures IsBlank(s[i])
  {
    var s1 := TrimRight(s, ' ');
    var s2 := TrimRight(s1, '\t');
    var s3 := TrimRight(s2, '\n');
    var s4 := TrimRight(s3, FORM_FEED);
    TrimRightShrinks(s, ' ');
    TrimRightShrinks(s1, '\t');
    TrimRightShrinks(s2, '\n');
    TrimRightShrinks(s3, FORM_FEED);
    if |s1| <= i {
      TrimRightCuts(s, ' ', i);
    } else if |s2| <= i {
      TrimRightCuts(s1, '\t', i);
    } else if |s3| <= i {
      TrimRightCuts(s2, '\n', i);
    } else if |s4| <= i {
      TrimRightCuts(s3, FORM_FEED, i);
    } else {
      TrimRightCuts(s4, '\r', i);
    }
  }

  lemma TrimKeepsSolid(s: string, c: char)
    requires c in s && !IsBlank(c)
    ensures c in TrimBlanksRight(s)
  {
    var i: nat :| i < |s| && s[i] == c;
    TrimBlanksRightPrefix(s);
    if |TrimBlanksRight(s)| <= i {
      TrimBlanksRightCuts(s, i);
    }
    assert TrimBlanksRight(s)[i] == c;
  }

  lemma {:induction false} MarkRecurs(front: string, s: string, i: nat)
    requires front != "" && i < |s| && !IsBlank(s[i]) && front + TrimBlanksRight(s) == s
    ensures false
    decreases |s| - i
  {
    var y := TrimBlanksRight(s);
    if |y| <= i {
      TrimBlanksRightCuts(s, i);
    } else {
      TrimBlanksRightPrefix(s);
      assert s[|front| + i] == y[i] == s[i];
      MarkRecurs(front, s, |front| + i);
    }
  }

  /** Text cannot grow in front by what it loses behind: a solid character would recur in what was trimmed. */
  lemma TrimmedNeverSame(front: string, s: string)
    requires EndsSolid(front)
    ensures front + TrimBlanksRight(s) != s
  {
    if front + TrimBlanksRight(s) == s {
      assert s[|front| - 1] == front[|front| - 1];
      MarkRecurs(front, s, |front| - 1);
    }
  }

  lemma {:induction false} TrimLeftShrinks(s: string, c: char)
    ensures |TrimLeft(s, c)| <= |s|
  {
    if s != "" && s[0] == c {
      TrimLeftShrinks(s[1..], c);
    }
  }

  lemma TrimBlanksShrinks(s: string)
    ensures |TrimBlanks(s)| <= |s|
  {
    var s1 := TrimLeft(s, ' ');
    var s2 := TrimLeft(s1, '\t');
    var s3 := TrimLeft(s2, '\n');
    var s4 := TrimLeft(s3, FORM_FEED);
    TrimLeftShrinks(s, ' ');
    TrimLeftShrinks(s1, '\t');
    TrimLeftShrinks(s2, '\n');
    TrimLeftShrinks(s3, FORM_FEED);
    TrimLeftShrinks(s4, '\r');
    TrimBlanksRightPrefix(TrimBlanksLeft(s));
  }

  predicate AllAre(run: string, c: char) {
    forall i :: 0 <= i < |run| ==> run[i] == c
  }

  predicate StartsOtherwise(s: string, c: char) {
    s == "" || s[0] != c
  }

  predicate EndsOtherwise(s: string, c: char) {
    s == "" || s[|s| - 1] != c
  }

  lemma {:induction false} TrimLeftRun(run: string, rest: string, c: char)
    requires AllAre(run, c) && StartsOtherwise(rest, c)
    ensures TrimLeft(run + rest, c) == rest
  {
    if run == "" {
      assert run + rest == rest;
    } else {
      assert (run + rest)[1..] == run[1..] + rest;
      TrimLeftRun(run[1..], rest, c);
    }
  }

  lemma {:induction false} TrimRightRun(rest: string, run: string, c: char)
    requires AllAre(run, c) && EndsOtherwise(rest, c)
    ensures TrimRight(rest + run, c) == rest
    decreases |run|
  {
    if run == "" {
      assert rest + run == rest;
    } else {
      assert (rest + run)[..|rest + run| - 1] == rest + run[..|run| - 1];
      TrimRightRun(rest, run[..|run| - 1], c);
    }
  }

  /** From the left go one run of spaces, then one of tabs, newlines, form feeds and carriage returns. */
  lemma TrimmedOnTheLeft(spaces: string, tabs: string, lines: string, feeds: string, returns': string, core: string)
    requires AllAre(spaces, ' ') && AllAre(tabs, '\t') && AllAre(lines, '\n') && AllAre(feeds, '\U{0C}')
    requires AllAre(returns', '\r') && StartsOtherwise(core, '\r') && StartsOtherwise(returns' + core, '\U{0C}')
    requires StartsOtherwise(feeds + (returns' + core), '\n')
    requires StartsOtherwise(lines + (feeds + (returns' + core)), '\t')
    requires StartsOtherwise(tabs + (lines + (feeds + (returns' + core))), ' ')
    ensures TrimBlanksLeft(spaces + (tabs + (lines + (feeds + (returns' + core))))) == core
  {
    TrimLeftRun(spaces, tabs + (lines + (feeds + (returns' + core))), ' ');
    TrimLeftRun(tabs, lines + (feeds + (returns' + core)), '\t');
    TrimLeftRun(lines, feeds + (returns' + core), '\n');
    TrimLeftRun(feeds, returns' + core, '\U{0C}');
    TrimLeftRun(returns', core, '\r');
  }

  /** The same from the right, the spaces at the very end first. */
  lemma TrimmedOnTheRight(core: string, returns': string, feeds: string, lines: string, tabs: string, spaces: string)
    requires AllAre(spaces, ' ') && AllAre(tabs, '\t') && AllAre(lines, '\n') && AllAre(feeds, '\U{0C}')
    requires AllAre(returns', '\r') && EndsOtherwise(core, '\r') && EndsOtherwise(core + returns', '\U{0C}')
    requires EndsOtherwise(core + returns' + feeds, '\n') && EndsOtherwise(core + returns' + feeds + lines, '\t')
    requires EndsOtherwise(core + returns' + feeds + lines + tabs, ' ')
    ensures TrimBlanksRight(core + returns' + feeds + lines + tabs + spaces) == core
  {
    TrimRightRun(core + returns' + feeds + lines + tabs, spaces, ' ');
    TrimRightRun(core + returns' + feeds + lines, tabs, '\t');
    TrimRightRun(core + returns' + feeds, lines, '\n');
    TrimRightRun(core + returns', feeds, '\U{0C}');
    TrimRightRun(core, returns', '\r');
  }

  lemma {:induction false} TrimLeftStays(s: string, c: char)
    ensures |TrimLeft(s, c)| == |s| <==> StartsOtherwise(s, c)
    ensures |TrimLeft(s, c)| <= |s|
    ensures StartsOtherwise(s, c) ==> TrimLeft(s, c) == s
  {
    if s != "" && s[0] == c {
      TrimLeftStays(s[1..], c);
    }
  }

  lemma TrimBlanksLeftStays(s: string)
    ensures |TrimBlanksLeft(s)| <= |s|
    ensures |TrimBlanksLeft(s)| == |s| <==> s == "" || !IsBlank(s[0])
    ensures s == "" || !IsBlank(s[0]) ==> TrimBlanksLeft(s) == s
  {
    var s1 := TrimLeft(s, ' ');
    var s2 := TrimLeft(s1, '\t');
    var s3 := TrimLeft(s2, '\n');
    var s4 := TrimLeft(s3, FORM_FEED);
    TrimLeftStays(s, ' ');
    TrimLeftStays(s1, '\t');
    TrimLeftStays(s2, '\n');
    TrimLeftStays(s3, FORM_FEED);
    TrimLeftStays(s4, '\r');
  }

  /** Text stays as it is exactly when it neither starts nor ends with one of the five blanks. */
  lemma UntrimmedExactly(s: string)
    ensures TrimBlanks(s) == s <==>
      s == "" || (s[0] !in [' ', '\t', '\n', '\r', '\U{0C}'] && s[|s| - 1] !in [' ', '\t', '\n', '\r', '\U{0C}'])
  {
    TrimBlanksLeftStays(s);
    TrimBlanksRightPrefix(TrimBlanksLeft(s));
  }

  /** Trimming text that ends in a blank cuts the part after any solid character before it. */
  lemma TrimCuts(front: string, y: string)
    requires EndsSolid(front) && !EndsSolid(front + y)
    ensures TrimBlanksRight(front + y) == front + TrimBlanksRight(y)
    ensures TrimBlanksRight(y) < y
  {
    TrimBlanksRightKeeps(front, y);
    TrimBlanksRightPrefix(y);
    assert front + "" == front;
  }

  lemma Assoc(a: string, b: string, c: string)
    ensures a + (b + c) == a + b + c
  {
  }

  /** Text that begins with a solid character is only trimmed on the right. */
  lemma TrimBlanksOfSolidStart(s: string)
    requires s != "" && !IsBlank(s[0])
    ensures TrimBlanks(s) == TrimBlanksRight(s)
  {
  }

  // ---------------------------------------------------------------- tokens

  /**
    std::sregex_token_iterator with index -1 and a one-character expression: the pieces between
    the separators, where a last piece that is empty is not delivered.
   */
  function Tokens(s: string, c: char): seq<string>
    decreases |s|
  {
    var i := Find(s, c);
    if i == |s| then
      if s == "" then [] else [s]
    else
      [s[..i]] + Tokens(s[i + 1..], c)
  }

  function Join(pieces: seq<string>, c: char): string {
    if pieces == [] then ""
    else if |pieces| == 1 then pieces[0]
    else pieces[0] + [c] + Join(pieces[1..], c)
  }

  /** Pieces that a separator can carry: not empty and free of the separator. */
  ghost predicate Separable(pieces: seq<string>, c: char) {
    forall i :: 0 <= i < |pieces| ==> pieces[i] != "" && c !in pieces[i]
  }

  lemma TokensStep(a: string, b: string, c: char)
    requires c !in a
    ensures Tokens(a + [c] + b, c) == [a] + Tokens(b, c)
  {
    var s := a + [c] + b;
    assert s[..|a|] == a && s[|a| + 1..] == b;
    FindIs(s, c, |a|);
  }

  lemma TokensOfPiece(a: string, c: char)
    requires c !in a
    ensures Tokens(a, c) == if a == "" then [] else [a]
  {
    FindNone(a, c);
  }

  /** Tokenising undoes joining. */
  lemma {:induction false} TokensOfJoin(pieces: seq<string>, c: char)
    requires Separable(pieces, c)
    ensures Tokens(Join(pieces, c), c) == pieces
  {
    if pieces == [] {
    } else if |pieces| == 1 {
      TokensOfPiece(pieces[0], c);
    } else {
      var first, rest := pieces[0], Join(pieces[1..], c);
      TokensOfJoin(pieces[1..], c);
      TokensStep(first, rest, c);
      assert Join(pieces, c) == first + [c] + rest;
      assert [first] + pieces[1..] == pieces;
    }
  }

  lemma {:induction false} JoinAppend(a: seq<string>, b: seq<string>, c: char)
    requires a != [] && b != []
    ensures Join(a + b, c) == Join(a, c) + [c] + Join(b, c)
  {
    if |a| == 1 {
      assert (a + b)[1..] == b;
    } else {
      JoinAppend(a[1..], b, c);
      assert (a + b)[1..] == a[1..] + b;
    }
  }

  /** Every token is free of the separator and consists of characters of s. */
  lemma {:induction false} TokensAreClean(s: string, c: char)
    ensures forall t <- Tokens(s, c) :: c !in t && forall x <- t :: x in s
    decreases |s|
  {
    var i := Find(s, c);
    if i < |s| {
      TokensAreClean(s[i + 1..], c);
    } else {
      FindNone(s, c);
    }
  }

  // ---------------------------------------------------------------- numbers

  predicate IsDigit(c: char) {
    '0' <= c <= '9'
  }

  /** Decimal digits as operator<< prints them. */
  function Digits(n: nat): (s: string)
    ensures s != "" && forall c <- s :: IsDigit(c)
  {
    var d := [('0' as int + n % 10) as char];
    if n < 10 then d else Digits(n / 10) + d
  }

  /** A number prints with as few digits as it has: no zero in front of another digit. */
  lemma {:induction false} NoLeadingZero(n: nat)
    ensures n > 0 ==> Digits(n)[0] != '0'
    ensures n < 10 ==> |Digits(n)| == 1
  {
    if n >= 10 {
      NoLeadingZero(n / 10);
      assert Digits(n)[0] == Digits(n / 10)[0];
    }
  }

  function Decimal(n: int): string {
    if n < 0 then "-" + Digits(-n) else Digits(n)
  }

  function ReadDigits(s: string, acc: nat): int {
    if s != "" && IsDigit(s[0]) then ReadDigits(s[1..], 10 * acc + (s[0] as int - '0' as int)) else acc
  }

  predicate IsSpace(c: char) {
    IsBlank(c) || c == VERTICAL_TAB
  }

  function SkipSpaces(s: string): string {
    if s != "" && IsSpace(s[0]) then SkipSpaces(s[1..]) else s
  }

  const INT32_MIN: int := -0x8000_0000
  const INT32_MAX: int := 0x7FFF_FFFF

  /** strtol on a 64-bit long: it saturates. */
  function Strtol(s: string): int {
    var t := SkipSpaces(s);
    var v: int := if t != "" && t[0] == '-' then -ReadDigits(t[1..], 0)
             else if t != "" && t[0] == '+' then ReadDigits(t[1..], 0)
             else ReadDigits(t, 0);
    if v < -0x8000_0000_0000_0000 then -0x8000_0000_0000_0000
    else if v > 0x7FFF_FFFF_FFFF_FFFF then 0x7FFF_FFFF_FFFF_FFFF
    else v
  }

  /** std::atoi: strtol cut down to 32 bits. */
  function Atoi(s: string): (n: int)
    ensures INT32_MIN <= n <= INT32_MAX
  {
    var v := Strtol(s) % 0x1_0000_0000;
    if v <= INT32_MAX then v else v - 0x1_0000_0000
  }

  lemma {:induction false} ReadDigitsOfDigits(n: nat, rest: string)
    ensures ReadDigits(Digits(n) + rest, 0) == ReadDigits(rest, n)
  {
    var d := [('0' as int + n % 10) as char];
    assert (d + rest)[1..] == rest;
    if n >= 10 {
      assert Digits(n) + rest == Digits(n / 10) + (d + rest);
      ReadDigitsOfDigits(n / 10, d + rest);
      assert ReadDigits(d + rest, n / 10) == ReadDigits(rest, n);
    }
  }

  lemma StrtolOfDigits(m: nat, rest: string)
    requires m <= INT32_MAX && (rest == "" || !IsDigit(rest[0]))
    ensures Strtol(Digits(m) + rest) == m
  {
    var s := Digits(m) + rest;
    ReadDigitsOfDigits(m, rest);
    assert Digits(m)[0] in Digits(m);
    assert s[0] == Digits(m)[0];
    assert SkipSpaces(s) == s;
  }

  lemma StrtolOfMinus(m: nat, rest: string)
    requires m <= 0x8000_0000 && (rest == "" || !IsDigit(rest[0]))
    ensures Strtol("-" + Digits(m) + rest) == -(m as int)
  {
    var s := "-" + Digits(m) + rest;
    ReadDigitsOfDigits(m, rest);
    assert s[0] == '-' && s[1..] == Digits(m) + rest;
    assert SkipSpaces(s) == s;
  }

  lemma CutOfInt(v: int)
    requires INT32_MIN <= v <= INT32_MAX
    ensures v % 0x1_0000_0000 == if v < 0 then v + 0x1_0000_0000 else v
  {
    if v < 0 {
      assert v == -1 * 0x1_0000_0000 + (v + 0x1_0000_0000);
    }
  }

  lemma StrtolOfDecimal(n: int, rest: string)
    requires INT32_MIN <= n <= INT32_MAX
    requires rest == "" || !IsDigit(rest[0])
    ensures Strtol(Decimal(n) + rest) == n
  {
    if n < 0 {
      StrtolOfMinus(-n, rest);
    } else {
      StrtolOfDigits(n, rest);
    }
  }

  /** atoi undoes the printing of every 32-bit number, whatever follows its digits. */
  lemma AtoiOfDecimal(n: int, rest: string)
    requires INT32_MIN <= n <= INT32_MAX
    requires rest == "" || !IsDigit(rest[0])
    ensures Atoi(Decimal(n) + rest) == n
  {
    StrtolOfDecimal(n, rest);
    CutOfInt(n);
  }

  lemma {:induction false} SkipsSpaces(spaces: string, rest: string)
    requires forall i :: 0 <= i < |spaces| ==> spaces[i] in [' ', '\t', '\n', '\r', '\U{0B}', '\U{0C}']
    requires rest == "" || rest[0] !in [' ', '\t', '\n', '\r', '\U{0B}', '\U{0C}']
    ensures SkipSpaces(spaces + rest) == rest
  {
    if spaces == "" {
      assert spaces + rest == rest;
    } else {
      assert (spaces + rest)[1..] == spaces[1..] + rest;
      SkipsSpaces(spaces[1..], rest);
    }
  }

  lemma {:induction false} ReadZeros(zeros: string, rest: string)
    requires AllAre(zeros, '0')
    ensures ReadDigits(zeros + rest, 0) == ReadDigits(rest, 0)
  {
    if zeros == "" {
      assert zeros + rest == rest;
    } else {
      assert (zeros + rest)[1..] == zeros[1..] + rest;
      ReadZeros(zeros[1..], rest);
    }
  }

  /** A value as a 64-bit long, the rest cut off at its bounds, and then as a 32-bit int. */
  function LongToInt(v: int): int {
    var long := if v < -0x8000_0000_0000_0000 then -0x8000_0000_0000_0000
                else if v > 0x7FFF_FFFF_FFFF_FFFF then 0x7FFF_FFFF_FFFF_FFFF else v;
    (long + 0x8000_0000) % 0x1_0000_0000 - 0x8000_0000
  }

  lemma LowHalf(v: int)
    ensures (v + 0x8000_0000) % 0x1_0000_0000 - 0x8000_0000
         == if v % 0x1_0000_0000 <= 0x7FFF_FFFF then v % 0x1_0000_0000 else v % 0x1_0000_0000 - 0x1_0000_0000
  {
    var q, r := v / 0x1_0000_0000, v % 0x1_0000_0000;
    assert v == q * 0x1_0000_0000 + r;
    if r <= 0x7FFF_FFFF {
      assert v + 0x8000_0000 == q * 0x1_0000_0000 + (r + 0x8000_0000);
    } else {
      assert v + 0x8000_0000 == (q + 1) * 0x1_0000_0000 + (r - 0x8000_0000);
    }
  }

  lemma StrtolOfSigned(sign: string, digits: string)
    requires sign in ["", "+", "-"] && digits != "" && IsDigit(digits[0])
    ensures var v := (if sign == "-" then -1 else 1) * ReadDigits(digits, 0);
      Strtol(sign + digits) == if v < -0x8000_0000_0000_0000 then -0x8000_0000_0000_0000
                               else if v > 0x7FFF_FFFF_FFFF_FFFF then 0x7FFF_FFFF_FFFF_FFFF else v
  {
    var s := sign + digits;
    if sign == "" {
      assert s == digits;
    } else {
      assert s[0] == sign[0] && s[1..] == digits;
    }
    assert SkipSpaces(s) == s;
  }

  lemma SignedDigits(sign: string, digits: string)
    requires sign in ["", "+", "-"] && digits != "" && IsDigit(digits[0])
    ensures Atoi(sign + digits) == LongToInt((if sign == "-" then -1 else 1) * ReadDigits(digits, 0))
  {
    StrtolOfSigned(sign, digits);
    LowHalf(Strtol(sign + digits));
  }

  lemma AtoiSkipsSpaces(spaces: string, rest: string)
    requires forall i :: 0 <= i < |spaces| ==> spaces[i] in [' ', '\t', '\n', '\r', '\U{0B}', '\U{0C}']
    requires rest == "" || rest[0] !in [' ', '\t', '\n', '\r', '\U{0B}', '\U{0C}']
    ensures Atoi(spaces + rest) == Atoi(rest)
  {
    SkipsSpaces(spaces, rest);
    assert "" + rest == rest;
    SkipsSpaces("", rest);
  }

  /** What atoi reads of blanks, a sign, leading zeros and a number, with anything behind the digits. */
  lemma AtoiExactly(spaces: string, sign: string, zeros: string, n: nat, rest: string)
    requires forall i :: 0 <= i < |spaces| ==> spaces[i] in [' ', '\t', '\n', '\r', '\U{0B}', '\U{0C}']
    requires sign in ["", "+", "-"] && AllAre(zeros, '0') && (rest == "" || !('0' <= rest[0] <= '9'))
    ensures Atoi(spaces + (sign + (zeros + (Digits(n) + rest)))) == LongToInt((if sign == "-" then -1 else 1) * n)
  {
    var digits := zeros + (Digits(n) + rest);
    ReadZeros(zeros, Digits(n) + rest);
    ReadDigitsOfDigits(n, rest);
    assert Digits(n)[0] in Digits(n);
    assert IsDigit(digits[0]);
    SignedDigits(sign, digits);
    AtoiSkipsSpaces(spaces, sign + digits);
  }

  /** Without a digit behind blanks and a sign it reads 0. */
  lemma AtoiOfNoNumber(spaces: string, sign: string, rest: string)
    requires forall i :: 0 <= i < |spaces| ==> spaces[i] in [' ', '\t', '\n', '\r', '\U{0B}', '\U{0C}']
    requires sign in ["", "+", "-"] && (rest == "" || !('0' <= rest[0] <= '9'))
    requires sign == "" ==> rest == "" || rest[0] !in [' ', '\t', '\n', '\r', '\U{0B}', '\U{0C}', '+', '-']
    ensures Atoi(spaces + (sign + rest)) == 0
  {
    var s := sign + rest;
    assert sign == "" ==> s == rest;
    assert sign != "" ==> s[0] == sign[0] && s[1..] == rest;
    AtoiSkipsSpaces(spaces, s);
    assert SkipSpaces(s) == s;
  }

  lemma DecimalIsPlain(n: int)
    ensures Decimal(n) != "" && !IsBlank(Decimal(n)[|Decimal(n)| - 1])
    ensures forall c <- Decimal(n) :: IsDigit(c) || c == '-'
  {
    var d := Digits(if n < 0 then -n else n);
    assert d[|d| - 1] in d;
  }

  // ---------------------------------------------------------------- order

  /** operator< on std::string. */
  predicate Before(a: string, b: string) {
    b != "" && (a == "" || a[0] < b[0] || (a[0] == b[0] && Before(a[1..], b[1..])))
  }

  /** Where two strings first differ, the first has the smaller character. */
  ghost predicate DiffersLower(a: string, b: string) {
    exists k :: 0 <= k < |a| && k < |b| && a[..k] == b[..k] && a[k] < b[k]
  }

  lemma DiffersLowerBehind(a: string, b: string)
    requires a != "" && b != "" && a[0] == b[0]
    ensures DiffersLower(a, b) <==> DiffersLower(a[1..], b[1..])
  {
    var a', b' := a[1..], b[1..];
    if DiffersLower(a, b) {
      var k :| 0 <= k < |a| && k < |b| && a[..k] == b[..k] && a[k] < b[k];
      assert a'[..k - 1] == a[..k][1..] && b'[..k - 1] == b[..k][1..] && a'[k - 1] < b'[k - 1];
    }
    if DiffersLower(a', b') {
      var k :| 0 <= k < |a'| && k < |b'| && a'[..k] == b'[..k] && a'[k] < b'[k];
      assert a[..k + 1] == [a[0]] + a'[..k] && b[..k + 1] == [b[0]] + b'[..k] && a[k + 1] < b[k + 1];
    }
  }

  lemma PrefixBehind(a: string, b: string)
    requires a != "" && b != "" && a[0] == b[0]
    ensures a < b <==> a[1..] < b[1..]
  {
    assert a == [a[0]] + a[1..] && b == [a[0]] + b[1..];
  }

  lemma DiffersAtOnce(a: string, b: string)
    requires a != "" && b != "" && a[0] != b[0]
    ensures !(a < b) && (DiffersLower(a, b) <==> a[0] < b[0])
  {
    forall k | 0 < k < |a| && k < |b| ensures a[..k] != b[..k] {
      assert a[..k][0] == a[0] && b[..k][0] == b[0];
    }
    assert a[..0] == b[..0];
  }

  lemma {:induction false} BeforeByDifference(a: string, b: string)
    ensures Before(a, b) <==> a < b || DiffersLower(a, b)
  {
    if a != "" && b != "" {
      if a[0] == b[0] {
        BeforeByDifference(a[1..], b[1..]);
        DiffersLowerBehind(a, b);
        PrefixBehind(a, b);
      } else {
        DiffersAtOnce(a, b);
      }
    }
  }

  /** It is a proper prefix, or has the smaller character where the two first differ. */
  lemma BeforeExactly(a: string, b: string)
    ensures Before(a, b)
       <==> a < b || exists k :: 0 <= k < |a| && k < |b| && a[..k] == b[..k] && a[k] < b[k]
  {
    BeforeByDifference(a, b);
  }

  lemma {:induction false} BeforeTotal(a: string, b: string)
    ensures Before(a, b) || a == b || Before(b, a)
    ensures !(Before(a, b) && Before(b, a)) && !Before(a, a)
  {
    if a != "" {
      BeforeTotal(a[1..], a[1..]);
      if b != "" {
        BeforeTotal(a[1..], b[1..]);
        assert a[0] == b[0] && a[1..] == b[1..] ==> a == [a[0]] + a[1..] == b;
      }
    }
  }

  lemma {:induction false} BeforeTransitive(a: string, b: string, c: string)
    requires Before(a, b) && Before(b, c)
    ensures Before(a, c)
  {
    if a != "" && a[0] == b[0] == c[0] {
      BeforeTransitive(a[1..], b[1..], c[1..]);
    }
  }

  predicate IsLeast(m: string, s: set<string>) {
    m in s && forall x :: x in s ==> x == m || Before(m, x)
  }

  lemma {:induction false} LeastExists(s: set<string>)
    requires s != {}
    ensures exists m :: IsLeast(m, s)
  {
    var x :| x in s;
    var rest := s - {x};
    if rest == {} {
      assert s == {x} + rest;
      assert IsLeast(x, s);
    } else {
      LeastExists(rest);
      var m :| IsLeast(m, rest);
      BeforeTotal(x, m);
      if Before(m, x) {
        assert IsLeast(m, s);
      } else {
        forall y | y in rest && y != m ensures Before(x, y) {
          BeforeTransitive(x, m, y);
        }
        assert IsLeast(x, s);
      }
    }
  }

  lemma LeastIsUnique(m: string, m': string, s: set<string>)
    requires IsLeast(m, s) && IsLeast(m', s)
    ensures m == m'
  {
    BeforeTotal(m, m');
  }

  /** The order in which a std::set, or the keys of a std::map, are visited. */
  ghost function Ascending(s: set<string>): (r: seq<string>)
    ensures forall x :: x in r <==> x in s
    ensures |r| == |s|
  {
    if s == {} then [] else
      LeastExists(s);
      var m :| IsLeast(m, s);
      [m] + Ascending(s - {m})
  }

  lemma AscendingStep(s: set<string>, m: string)
    requires IsLeast(m, s)
    ensures Ascending(s) == [m] + Ascending(s - {m})
  {
    forall m' | IsLeast(m', s) ensures m' == m {
      LeastIsUnique(m, m', s);
    }
  }

  lemma AscendingHead(s: set<string>)
    requires s != {}
    ensures IsLeast(Ascending(s)[0], s)
    ensures Ascending(s)[1..] == Ascending(s - {Ascending(s)[0]})
  {
    LeastExists(s);
    var m :| IsLeast(m, s);
    AscendingStep(s, m);
  }

  lemma {:induction false} AscendingInOrder(s: set<string>, i: nat, j: nat)
    requires i < j < |s|
    ensures Before(Ascending(s)[i], Ascending(s)[j])
  {
    var all := Ascending(s);
    AscendingHead(s);
    if i == 0 {
      var m := all[j];
      assert m == all[1..][j - 1] && m in all[1..];
    } else {
      AscendingInOrder(s - {all[0]}, i - 1, j - 1);
    }
  }

  /** The visit is in strictly ascending order, character by character. */
  lemma AscendingIsSorted(s: set<string>, i: nat, j: nat)
    requires i < j < |s|
    ensures var a, b := Ascending(s)[i], Ascending(s)[j];
      a < b || exists k :: 0 <= k < |a| && k < |b| && a[..k] == b[..k] && a[k] < b[k]
  {
    AscendingInOrder(s, i, j);
    BeforeExactly(Ascending(s)[i], Ascending(s)[j]);
  }

  lemma AscendingLast(s: set<string>) returns (before: seq<string>, last: string)
    requires s != {}
    ensures Ascending(s) == before + [last] && last !in before && last in s
  {
    var all := Ascending(s);
    var k := |all| - 1;
    before, last := all[..k], all[k];
    assert last in all;
    forall i | 0 <= i < k ensures before[i] != last {
      AscendingInOrder(s, i, k);
      BeforeTotal(last, last);
    }
  }
}
