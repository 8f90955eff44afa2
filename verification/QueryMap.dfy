/**
  The query part of HttpUrl::Builder: names mapped to sets of values, read from and printed as
  name=value pairs between "&".
 */
module QueryMap {
  import opened Text

  type Query = map<string, set<string>>

  /** The invariant of the map: no empty name and no name without a value. */
  ghost predicate Valid(m: Query) {
    forall n <- m :: n != "" && m[n] != {}
  }

  ghost predicate Has(m: Query, name: string, value: string) {
    name in m && value in m[name]
  }

  function ValuesOf(m: Query, name: string): set<string> {
    if name in m then m[name] else {}
  }

  // ---------------------------------------------------------------- operations

  function Add(m: Query, name: string, value: string): Query {
    if name == "" then m
    else m[name := ValuesOf(m, name) + {value}]
  }

  function Remove(m: Query, name: string, value: string): Query {
    if name == "" || name !in m then m
    else if m[name] - {value} == {} then m - {name}
    else m[name := m[name] - {value}]
  }

  function RemoveName(m: Query, name: string): Query {
    if name == "" then m else m - {name}
  }

  lemma AddHas(m: Query, name: string, value: string)
    requires Valid(m)
    ensures Valid(Add(m, name, value))
    ensures forall n, v :: Has(Add(m, name, value), n, v) <==> Has(m, n, v) || (name != "" && n == name && v == value)
  {
  }

  lemma RemoveHas(m: Query, name: string, value: string)
    requires Valid(m)
    ensures Valid(Remove(m, name, value))
    ensures forall n, v :: Has(Remove(m, name, value), n, v) <==> Has(m, n, v) && !(n == name && v == value)
    ensures Valid(RemoveName(m, name))
    ensures forall n, v :: Has(RemoveName(m, name), n, v) <==> Has(m, n, v) && n != name
  {
    if name in m {
      assert forall x :: x in m[name] - {value} <==> x in m[name] && x != value;
    }
  }

  /** An empty name changes nothing, in any map. */
  lemma EmptyNameIsIgnored(m: Query, value: string)
    ensures Add(m, "", value) == m && Remove(m, "", value) == m && RemoveName(m, "") == m
  {
  }

  /** Valid maps are determined by the pairs they hold. */
  lemma SamePairsSameMap(a: Query, b: Query)
    requires Valid(a) && Valid(b)
    requires forall n, v :: Has(a, n, v) <==> Has(b, n, v)
    ensures a == b
  {
    forall n ensures n in a <==> n in b {
      if n in a {
        var v :| v in a[n];
        assert Has(a, n, v);
      }
      if n in b {
        var v :| v in b[n];
        assert Has(b, n, v);
      }
    }
    forall n | n in a ensures a[n] == b[n] {
      forall v ensures v in a[n] <==> v in b[n] {
        assert Has(a, n, v) <==> Has(b, n, v);
      }
    }
  }

  /** Removing a pair undoes adding it, provided it was not there before. */
  lemma RemoveUndoesAdd(m: Query, name: string, value: string)
    requires Valid(m) && !Has(m, name, value)
    ensures Remove(Add(m, name, value), name, value) == m
  {
    AddHas(m, name, value);
    RemoveHas(Add(m, name, value), name, value);
    SamePairsSameMap(Remove(Add(m, name, value), name, value), m);
  }

  // ---------------------------------------------------------------- reading

  function NameOf(token: string): string {
    token[..Find(token, '=')]
  }

  function ValueOf(token: string): string {
    var p := Find(token, '=');
    if p == |token| then "" else token[p + 1..]
  }

  function AddAll(m: Query, tokens: seq<string>): Query
    decreases |tokens|
  {
    if tokens == [] then m
    else AddAll(Add(m, NameOf(tokens[0]), ValueOf(tokens[0])), tokens[1..])
  }

  ghost predicate Carries(tokens: seq<string>, name: string, value: string) {
    name != "" && exists t <- tokens :: NameOf(t) == name && ValueOf(t) == value
  }

  /** Reading tokens adds exactly the pairs they carry under a non-empty name. */
  lemma {:induction false} AddAllHas(m: Query, tokens: seq<string>)
    requires Valid(m)
    ensures Valid(AddAll(m, tokens))
    ensures forall n, v :: Has(AddAll(m, tokens), n, v) <==> Has(m, n, v) || Carries(tokens, n, v)
    decreases |tokens|
  {
    if tokens != [] {
      var t := tokens[0];
      var m' := Add(m, NameOf(t), ValueOf(t));
      AddHas(m, NameOf(t), ValueOf(t));
      AddAllHas(m', tokens[1..]);
      forall n, v
        ensures Carries(tokens, n, v)
           <==> Carries(tokens[1..], n, v) || (n != "" && n == NameOf(t) && v == ValueOf(t))
      {
        assert forall x :: x in tokens <==> x == t || x in tokens[1..];
      }
    }
  }

  lemma {:induction false} AddAllAppend(m: Query, a: seq<string>, b: seq<string>)
    ensures AddAll(m, a + b) == AddAll(AddAll(m, a), b)
    decreases |a|
  {
    if a == [] {
      assert a + b == b;
    } else {
      assert (a + b)[0] == a[0] && (a + b)[1..] == a[1..] + b;
      AddAllAppend(Add(m, NameOf(a[0]), ValueOf(a[0])), a[1..], b);
    }
  }

  function ReadQuery(text: string): Query {
    AddAll(map[], Tokens(text, '&'))
  }

  /** Order, repetition and empty pieces between "&" do not matter. */
  lemma ReadQueryIsSetLike(a: string, b: string)
    requires forall n, v :: Carries(Tokens(a, '&'), n, v) <==> Carries(Tokens(b, '&'), n, v)
    ensures ReadQuery(a) == ReadQuery(b)
  {
    AddAllHas(map[], Tokens(a, '&'));
    AddAllHas(map[], Tokens(b, '&'));
    SamePairsSameMap(ReadQuery(a), ReadQuery(b));
  }

  /** In particular two texts whose non-empty tokens are the same set read the same. */
  lemma ReadQueryOfSameTokens(a: string, b: string)
    requires forall t :: t != "" ==> (t in Tokens(a, '&') <==> t in Tokens(b, '&'))
    ensures ReadQuery(a) == ReadQuery(b)
  {
    forall n, v ensures Carries(Tokens(a, '&'), n, v) <==> Carries(Tokens(b, '&'), n, v) {
      assert NameOf("") == "";
    }
    ReadQueryIsSetLike(a, b);
  }

  /** Every piece between "&" is empty or starts with "=". */
  predicate NamesNothing(text: string) {
    forall t <- Tokens(text, '&') :: t == "" || t[0] == '='
  }

  /** Exactly those texts give no parameter. */
  lemma ReadsNothing(text: string)
    ensures ReadQuery(text) == map[] <==> NamesNothing(text)
  {
    var m, ts := ReadQuery(text), Tokens(text, '&');
    AddAllHas(map[], ts);
    forall t | t in ts ensures Has(m, NameOf(t), ValueOf(t)) <==> t != "" && t[0] != '=' {
      assert NameOf(t) == "" <==> t == "" || t[0] == '=';
    }
    if NamesNothing(text) {
      SamePairsSameMap(m, map[]);
    }
  }

  // ---------------------------------------------------------------- printing

  /** The inner loop of ToString: an "&" after every value but the last. */
  function PrintValues(name: string, values: seq<string>): string {
    if values == [] then ""
    else name + "=" + values[0] + (if |values| > 1 then "&" else "") + PrintValues(name, values[1..])
  }

  /** One round of the inner loop moves the next value from the list to the text. */
  lemma PrintValuesStep(before: string, name: string, value: string, rest: seq<string>, after: string)
    requires after == before + name + "=" + value + (if rest != [] then "&" else "")
    ensures after + PrintValues(name, rest) == before + PrintValues(name, [value] + rest)
  {
    assert ([value] + rest)[1..] == rest;
    var sep := if rest != [] then "&" else "";
    assert PrintValues(name, [value] + rest) == name + "=" + value + sep + PrintValues(name, rest);
  }

  /** A name and its values, in the order in which they are visited. */
  type Entry = (string, seq<string>)

  ghost function EntryOf(m: Query, name: string): Entry {
    (name, Ascending(ValuesOf(m, name)))
  }

  ghost function NamesOf(m: Query): (names: seq<string>)
    ensures |names| == |m|
    ensures forall i :: 0 <= i < |names| ==> names[i] in m
  {
    var names := Ascending(m.Keys);
    assert |m.Keys| == |m| && forall i :: 0 <= i < |names| ==> names[i] in names;
    names
  }

  ghost function EntriesOf(m: Query): (entries: seq<Entry>)
    ensures |entries| == |m|
  {
    var names := NamesOf(m);
    seq(|names|, i requires 0 <= i < |names| => EntryOf(m, names[i]))
  }

  /**
    One round of the outer loop: a name without values is printed bare and is neither counted nor
    followed by an "&"; another name is followed by one while the count is below the size of the map.
   */
  function PrintEntry(entry: Entry, index: nat, size: nat): string {
    if entry.1 == [] then entry.0
    else PrintValues(entry.0, entry.1) + (if index + 1 < size then "&" else "")
  }

  function PrintEntries(entries: seq<Entry>, index: nat, size: nat): string {
    if entries == [] then "" else
      PrintEntry(entries[0], index, size)
      + PrintEntries(entries[1..], if entries[0].1 == [] then index else index + 1, size)
  }

  ghost function PrintQuery(m: Query): string {
    PrintEntries(EntriesOf(m), 0, |m|)
  }

  /** The least of the names still to be visited is the next entry's. */
  lemma NextName(m: Query, remaining: set<string>, i: nat, name: string)
    requires i <= |m| && Ascending(remaining) == NamesOf(m)[i..] && IsLeast(name, remaining)
    ensures i < |m| && name in m && EntriesOf(m)[i] == EntryOf(m, name)
    ensures Ascending(remaining - {name}) == NamesOf(m)[i + 1..]
  {
    var names := NamesOf(m);
    AscendingStep(remaining, name);
    assert names[i] == names[i..][0] == name && names[i + 1..] == names[i..][1..];
  }

  /** One round of the outer loop moves the next entry from the list to the text. */
  lemma PrintEntriesStep(before: string, entries: seq<Entry>, i: nat, index: nat, size: nat)
    requires i < |entries|
    ensures before + PrintEntry(entries[i], index, size)
            + PrintEntries(entries[i + 1..], if entries[i].1 == [] then index else index + 1, size)
         == before + PrintEntries(entries[i..], index, size)
  {
    assert entries[i..][0] == entries[i] && entries[i..][1..] == entries[i + 1..];
    Assoc(before, PrintEntry(entries[i], index, size),
          PrintEntries(entries[i + 1..], if entries[i].1 == [] then index else index + 1, size));
  }

  function Param(name: string, value: string): string {
    name + "=" + value
  }

  function ParamsOf(name: string, values: seq<string>): seq<string> {
    seq(|values|, i requires 0 <= i < |values| => Param(name, values[i]))
  }

  /** The pairs in the order in which they are printed. */
  function Params(entries: seq<Entry>): seq<string> {
    if entries == [] then [] else ParamsOf(entries[0].0, entries[0].1) + Params(entries[1..])
  }

  lemma {:induction false} PrintValuesIsJoin(name: string, values: seq<string>)
    requires values != []
    ensures PrintValues(name, values) == Join(ParamsOf(name, values), '&')
  {
    var ps := ParamsOf(name, values);
    if |values| == 1 {
      assert ps == [Param(name, values[0])];
    } else {
      PrintValuesIsJoin(name, values[1..]);
      assert ps[1..] == ParamsOf(name, values[1..]);
    }
  }

  ghost predicate HaveValues(entries: seq<Entry>) {
    forall i :: 0 <= i < |entries| ==> entries[i].1 != []
  }

  lemma JoinEntry(entry: string, ps: seq<string>, sep: string, rest: seq<string>)
    requires |ps| > 0 && entry == Join(ps, '&') + sep
    requires sep == if |rest| > 0 then "&" else ""
    ensures entry + Join(rest, '&') == Join(ps + rest, '&')
  {
    if rest == [] {
      assert ps + rest == ps;
    } else {
      JoinAppend(ps, rest, '&');
    }
  }

  lemma {:induction false} PrintEntriesIsJoin(entries: seq<Entry>, index: nat, size: nat)
    requires HaveValues(entries) && index + |entries| == size
    ensures PrintEntries(entries, index, size) == Join(Params(entries), '&')
    ensures |Params(entries)| == 0 <==> |entries| == 0
  {
    if entries != [] {
      var (name, values) := entries[0];
      PrintValuesIsJoin(name, values);
      PrintEntriesIsJoin(entries[1..], index + 1, size);
      JoinEntry(PrintEntry(entries[0], index, size), ParamsOf(name, values),
                if index + 1 < size then "&" else "", Params(entries[1..]));
    }
  }

  lemma EntriesHaveValues(m: Query)
    requires Valid(m)
    ensures HaveValues(EntriesOf(m))
  {
    var names := NamesOf(m);
    forall i | 0 <= i < |m| ensures EntriesOf(m)[i].1 != [] {
      assert EntriesOf(m)[i] == EntryOf(m, names[i]);
    }
  }

  /** The separators come out right: a valid map prints as its pairs joined by "&". */
  lemma PrintQueryIsJoin(m: Query)
    requires Valid(m)
    ensures PrintQuery(m) == Join(Params(EntriesOf(m)), '&')
    ensures m != map[] ==> Params(EntriesOf(m)) != []
  {
    EntriesHaveValues(m);
    PrintEntriesIsJoin(EntriesOf(m), 0, |m|);
    assert |m| == 0 <==> m == map[];
  }

  lemma {:induction false} ParamsSound(entries: seq<Entry>, p: string) returns (i: nat, j: nat)
    requires p in Params(entries)
    ensures i < |entries| && j < |entries[i].1| && p == Param(entries[i].0, entries[i].1[j])
  {
    var ps := ParamsOf(entries[0].0, entries[0].1);
    if p in ps {
      i := 0;
      j :| 0 <= j < |ps| && p == ps[j];
    } else {
      i, j := ParamsSound(entries[1..], p);
      i := i + 1;
    }
  }

  lemma {:induction false} ParamsComplete(entries: seq<Entry>, i: nat, j: nat)
    requires i < |entries| && j < |entries[i].1|
    ensures Param(entries[i].0, entries[i].1[j]) in Params(entries)
  {
    if i == 0 {
      assert ParamsOf(entries[0].0, entries[0].1)[j] == Param(entries[i].0, entries[i].1[j]);
    } else {
      ParamsComplete(entries[1..], i - 1, j);
    }
  }

  lemma {:induction false} ParamsAppend(a: seq<Entry>, b: seq<Entry>)
    ensures Params(a + b) == Params(a) + Params(b)
  {
    if a == [] {
      assert a + b == b;
    } else {
      assert (a + b)[0] == a[0] && (a + b)[1..] == a[1..] + b;
      ParamsAppend(a[1..], b);
    }
  }

  /** The pairs printed are pairs held, and every pair held is printed. */
  lemma PrintedIsHeld(m: Query, p: string) returns (name: string, value: string)
    requires p in Params(EntriesOf(m))
    ensures Has(m, name, value) && p == Param(name, value)
  {
    var es, names := EntriesOf(m), NamesOf(m);
    var i, j := ParamsSound(es, p);
    assert es[i] == EntryOf(m, names[i]);
    name, value := es[i].0, es[i].1[j];
    assert value in es[i].1;
  }

  lemma HeldIsPrinted(m: Query, name: string, value: string)
    requires Has(m, name, value)
    ensures Param(name, value) in Params(EntriesOf(m))
  {
    var es, names, values := EntriesOf(m), Ascending(m.Keys), Ascending(ValuesOf(m, name));
    assert name in names && value in values;
    var i: nat :| i < |names| && names[i] == name;
    var j: nat :| j < |values| && values[j] == value;
    assert es[i] == EntryOf(m, name);
    ParamsComplete(es, i, j);
  }

  // ---------------------------------------------------------------- print, then read

  /** What every query that was read has: the pieces hold no separator. */
  ghost predicate Readable(m: Query) {
    Valid(m) && forall n, v :: Has(m, n, v) ==> '=' !in n && '&' !in n && '&' !in v
  }

  ghost predicate QueryFreeOf(m: Query, c: char) {
    forall n, v :: Has(m, n, v) ==> c !in n && c !in v
  }

  /** What encoding guarantees: names and values hold no delimiter of their place. */
  ghost predicate Clean(m: Query) {
    Valid(m) &&
    (forall n <- m :: '=' !in n && '&' !in n && '#' !in n) &&
    forall n <- m, v <- m[n] :: '&' !in v && '#' !in v
  }

  lemma CleanIsReadable(m: Query)
    ensures Clean(m) <==> Readable(m) && QueryFreeOf(m, '#')
  {
    if Clean(m) {
      forall n, v | Has(m, n, v) ensures '=' !in n && '&' !in n && '&' !in v && '#' !in n && '#' !in v {
        CleanPair(m, n, v);
      }
    } else if Readable(m) && QueryFreeOf(m, '#') {
      forall n | n in m ensures '=' !in n && '&' !in n && '#' !in n {
        var v :| v in m[n];
        assert Has(m, n, v);
      }
      forall n, v | n in m && v in m[n] ensures '&' !in v && '#' !in v {
        assert Has(m, n, v);
      }
    }
  }

  lemma ParamParts(name: string, value: string)
    requires '=' !in name
    ensures NameOf(Param(name, value)) == name && ValueOf(Param(name, value)) == value
  {
    assert Param(name, value) == name + ("=" + value);
    FindAfter(name, "=" + value, '=');
  }

  ghost predicate FreeOfAll(pieces: seq<string>, c: char) {
    forall i :: 0 <= i < |pieces| ==> c !in pieces[i]
  }

  lemma ParamFreeOf(name: string, value: string, c: char)
    requires c != '=' && c !in name && c !in value
    ensures c !in Param(name, value)
  {
  }

  lemma CleanPair(m: Query, name: string, value: string)
    requires Clean(m) && Has(m, name, value)
    ensures name != "" && '=' !in name && '&' !in name && '#' !in name
    ensures '&' !in value && '#' !in value
  {
  }

  lemma CleanParam(m: Query, p: string)
    requires Clean(m) && p in Params(EntriesOf(m))
    ensures p != "" && '&' !in p && '#' !in p && Has(m, NameOf(p), ValueOf(p))
  {
    var n, v := PrintedIsHeld(m, p);
    CleanPair(m, n, v);
    ParamParts(n, v);
    ParamFreeOf(n, v, '&');
    ParamFreeOf(n, v, '#');
  }

  /** The pairs of a clean map survive a separator. */
  lemma CleanParams(m: Query)
    requires Clean(m)
    ensures Separable(Params(EntriesOf(m)), '&')
    ensures FreeOfAll(Params(EntriesOf(m)), '#')
  {
    var ps := Params(EntriesOf(m));
    forall i | 0 <= i < |ps| ensures ps[i] != "" && '&' !in ps[i] && '#' !in ps[i] {
      CleanParam(m, ps[i]);
    }
  }

  /** The pairs printed are the pairs held. */
  lemma ParamsCarry(m: Query, name: string, value: string)
    requires Clean(m)
    ensures Carries(Params(EntriesOf(m)), name, value) <==> Has(m, name, value)
  {
    if Has(m, name, value) {
      HeldIsPrinted(m, name, value);
      ParamParts(name, value);
    } else {
      forall p | p in Params(EntriesOf(m)) ensures !(NameOf(p) == name && ValueOf(p) == value) {
        CleanParam(m, p);
      }
    }
  }

  /** Reading undoes printing. */
  lemma ReadOfPrint(m: Query)
    requires Clean(m)
    ensures ReadQuery(PrintQuery(m)) == m
  {
    var ps := Params(EntriesOf(m));
    CleanParams(m);
    PrintQueryIsJoin(m);
    TokensOfJoin(ps, '&');
    AddAllHas(map[], ps);
    forall n, v ensures Has(AddAll(map[], ps), n, v) <==> Has(m, n, v) {
      ParamsCarry(m, n, v);
    }
    SamePairsSameMap(AddAll(map[], ps), m);
  }

  lemma {:induction false} JoinFreeOf(pieces: seq<string>, sep: char, c: char)
    requires c != sep && FreeOfAll(pieces, c)
    ensures c !in Join(pieces, sep)
  {
    if pieces != [] {
      JoinFreeOf(pieces[1..], sep, c);
    }
  }

  /** A character that separates nothing is printed only if some name or value holds it. */
  lemma PrintQueryFreeOf(m: Query, c: char)
    requires Valid(m) && c != '=' && c != '&'
    requires forall n, v :: Has(m, n, v) ==> c !in n && c !in v
    ensures c !in PrintQuery(m)
  {
    var ps := Params(EntriesOf(m));
    forall i | 0 <= i < |ps| ensures c !in ps[i] {
      var n, v := PrintedIsHeld(m, ps[i]);
      ParamFreeOf(n, v, c);
    }
    PrintQueryIsJoin(m);
    JoinFreeOf(ps, '&', c);
  }

  lemma PrintQueryFreeOfHash(m: Query)
    requires Clean(m)
    ensures '#' !in PrintQuery(m)
  {
    forall n, v | Has(m, n, v) ensures '#' !in n && '#' !in v {
      CleanPair(m, n, v);
    }
    PrintQueryFreeOf(m, '#');
  }

  lemma HeldIsRead(text: string, name: string, value: string) returns (token: string)
    requires Has(ReadQuery(text), name, value)
    ensures token in Tokens(text, '&') && NameOf(token) == name && ValueOf(token) == value
    ensures (forall x <- name :: x in token) && forall x <- value :: x in token
  {
    AddAllHas(map[], Tokens(text, '&'));
    token :| token in Tokens(text, '&') && NameOf(token) == name && ValueOf(token) == value;
  }

  /** Reading gives pieces without separators, made of characters of the text. */
  lemma ReadQueryIsReadable(text: string)
    ensures Readable(ReadQuery(text))
  {
    AddAllHas(map[], Tokens(text, '&'));
    TokensAreClean(text, '&');
    forall n, v | Has(ReadQuery(text), n, v) ensures '=' !in n && '&' !in n && '&' !in v {
      var t := HeldIsRead(text, n, v);
    }
  }

  lemma ReadQueryFreeOf(text: string, c: char)
    requires c !in text
    ensures QueryFreeOf(ReadQuery(text), c)
  {
    TokensAreClean(text, '&');
    forall n, v | Has(ReadQuery(text), n, v) ensures c !in n && c !in v {
      var t := HeldIsRead(text, n, v);
    }
  }

  lemma {:induction false} JoinHas(pieces: seq<string>, sep: char, i: nat, c: char)
    requires i < |pieces| && c in pieces[i]
    ensures c in Join(pieces, sep)
  {
    if i > 0 {
      JoinHas(pieces[1..], sep, i - 1, c);
    }
  }

  /** A character of a name or value is printed. */
  lemma PrintQueryHas(m: Query, name: string, value: string, c: char)
    requires Valid(m) && Has(m, name, value) && (c in name || c in value)
    ensures c in PrintQuery(m)
  {
    var ps := Params(EntriesOf(m));
    HeldIsPrinted(m, name, value);
    var i: nat :| i < |ps| && ps[i] == Param(name, value);
    PrintQueryIsJoin(m);
    JoinHas(ps, '&', i, c);
  }

  /** Entries under other names do not carry a pair, nor do other values under its name. */
  lemma OthersDoNotCarry(entries: seq<Entry>, name: string, value: string)
    requires forall i :: 0 <= i < |entries| ==> '=' !in entries[i].0
    requires forall i :: 0 <= i < |entries| ==> entries[i].0 != name || value !in entries[i].1
    ensures !Carries(Params(entries), name, value)
  {
    forall p | p in Params(entries) ensures !(NameOf(p) == name && ValueOf(p) == value) {
      var i, j := ParamsSound(entries, p);
      ParamParts(entries[i].0, entries[i].1[j]);
      assert entries[i].1[j] in entries[i].1;
    }
  }

  lemma ParamsOfLast(entries: seq<Entry>, name: string, values: seq<string>, value: string)
    ensures Params(entries + [(name, values + [value])]) == Params(entries + [(name, values)]) + [Param(name, value)]
  {
    ParamsAppend(entries, [(name, values + [value])]);
    ParamsAppend(entries, [(name, values)]);
    OneEntry(name, values + [value]);
    OneEntry(name, values);
    assert ParamsOf(name, values + [value]) == ParamsOf(name, values) + [Param(name, value)];
  }

  lemma OneEntry(name: string, values: seq<string>)
    ensures Params([(name, values)]) == ParamsOf(name, values)
  {
    assert [(name, values)][1..] == [];
  }

  lemma LastEntry(m: Query) returns (before: seq<Entry>, name: string)
    requires m != map[]
    ensures name in m && EntriesOf(m) == before + [(name, Ascending(ValuesOf(m, name)))]
    ensures forall i :: 0 <= i < |before| ==> before[i].0 in m && before[i].0 != name
  {
    assert |m.Keys| == |m| && m.Keys != {};
    var all := NamesOf(m);
    var names;
    names, name := AscendingLast(m.Keys);
    var es, k := EntriesOf(m), |names|;
    before := es[..k];
    forall i | 0 <= i < k ensures before[i].0 in m && before[i].0 != name {
      assert before[i] == EntryOf(m, all[i]);
      assert all[i] == names[i];
    }
    assert es[k] == EntryOf(m, name);
    assert es == before + [es[k]];
  }

  /** The last pair printed, split off: nothing before it carries it. */
  lemma LastParam(m: Query) returns (init: seq<string>, name: string, value: string)
    requires Clean(m) && m != map[]
    ensures Has(m, name, value) && !Carries(init, name, value)
    ensures Params(EntriesOf(m)) == init + [Param(name, value)]
  {
    var before, values;
    before, name := LastEntry(m);
    values, value := AscendingLast(ValuesOf(m, name));
    ParamsOfLast(before, name, values, value);
    init := Params(before + [(name, values)]);
    OthersDoNotCarry(before + [(name, values)], name, value);
  }

  lemma LastPrinted(m: Query) returns (init: seq<string>, name: string, value: string)
    requires Clean(m) && m != map[]
    ensures Has(m, name, value) && !Carries(init, name, value)
    ensures PrintQuery(m) == Join(init + [Param(name, value)], '&')
    ensures Separable(init + [Param(name, value)], '&')
    ensures '=' !in name && '&' !in name && '&' !in value
  {
    init, name, value := LastParam(m);
    CleanPair(m, name, value);
    assert PrintQuery(m) == Join(init + [Param(name, value)], '&') by { PrintQueryIsJoin(m); }
    assert Separable(init + [Param(name, value)], '&') by { CleanParams(m); }
  }

  lemma CutParamSeparable(init: seq<string>, name: string, value: string, cut: string)
    requires Separable(init + [Param(name, value)], '&')
    requires '&' !in name && '&' !in value && cut < value
    ensures Separable(init + [Param(name, cut)], '&')
  {
    var all, ps := init + [Param(name, value)], init + [Param(name, cut)];
    PrefixFreeOf(cut, value, '&');
    ParamFreeOf(name, cut, '&');
    forall i | 0 <= i < |ps| ensures ps[i] != "" && '&' !in ps[i] {
      if i < |init| {
        assert all[i] == init[i] == ps[i];
      }
    }
  }

  /** Reading text whose last pair lost part of its value loses that pair. */
  lemma CutTokensMiss(init: seq<string>, name: string, value: string, cut: string)
    requires Separable(init + [Param(name, cut)], '&')
    requires '=' !in name && cut != value && !Carries(init, name, value)
    ensures !Has(ReadQuery(Join(init + [Param(name, cut)], '&')), name, value)
  {
    var ps := init + [Param(name, cut)];
    TokensOfJoin(ps, '&');
    AddAllHas(map[], ps);
    ParamParts(name, cut);
    assert !Carries(ps, name, value);
  }
}
