/** Parsing what was printed: escaping is undone, and the parameters of one challenge read back
    whatever follows them. */
module ParameterRoundTrip {
  import opened Basics
  import opened Text
  import opened AuthScanners
  import opened ChallengeCodec
  import opened SchemeScan

  // ---- Escaping is one replacement per unit --------------------------------------

  function EscapeUnit(u: Unit): Text {
    if u == BACKSLASH then [BACKSLASH, BACKSLASH] else if u == QUOTE then [BACKSLASH, QUOTE] else EscapeWide(u)
  }

  lemma {:induction false} ReplaceAppend(a: Text, b: Text, f: Unit -> Text)
    ensures Replace(a + b, f) == Replace(a, f) + Replace(b, f)
    decreases |a|
  {
    if a == [] {
      assert a + b == b;
    } else {
      assert (a + b)[1..] == a[1..] + b;
      ReplaceAppend(a[1..], b, f);
    }
  }

  lemma ReplaceOne(u: Unit, f: Unit -> Text)
    ensures Replace([u], f) == f(u)
  {
    assert [u][1..] == [] && f(u) + [] == f(u);
  }

  lemma ReplaceTwo(u: Unit, v: Unit, f: Unit -> Text)
    ensures Replace([u, v], f) == f(u) + f(v)
  {
    assert [u, v] == [u] + [v];
    ReplaceAppend([u], [v], f);
    ReplaceOne(u, f);
    ReplaceOne(v, f);
  }

  lemma EscapeOneUnit(u: Unit)
    ensures Escape([u]) == EscapeUnit(u)
  {
    ReplaceOne(u, DoubleBackslash);
    ReplaceOne(u, EscapeQuote);
    ReplaceOne(u, EscapeWide);
    if u == BACKSLASH {
      ReplaceTwo(u, u, EscapeQuote);
      assert [u] + [u] == [u, u];
      ReplaceTwo(u, u, EscapeWide);
    } else if u == QUOTE {
      ReplaceTwo(BACKSLASH, u, EscapeWide);
      assert [BACKSLASH] + [u] == [BACKSLASH, u];
    }
  }

  /** The three passes never touch what an earlier one wrote. */
  lemma {:induction false} EscapeStep(t: Text)
    requires t != []
    ensures Escape(t) == EscapeUnit(t[0]) + Escape(t[1..])
  {
    hide Replace, EscapeUnit, EscapeWide;
    var u, rest := [t[0]], t[1..];
    assert t == u + rest;
    ReplaceAppend(u, rest, DoubleBackslash);
    ReplaceAppend(Replace(u, DoubleBackslash), Replace(rest, DoubleBackslash), EscapeQuote);
    ReplaceAppend(Replace(Replace(u, DoubleBackslash), EscapeQuote), Replace(Replace(rest, DoubleBackslash), EscapeQuote), EscapeWide);
    EscapeOneUnit(t[0]);
  }

  lemma EscapeNothing()
    ensures Escape([]) == []
  {
  }

  // ---- Escaped text stays quoted -------------------------------------------------

  lemma {:induction false} StaysQuotedShift(a: Text, b: Text, k: nat, escaped: bool)
    requires k <= |b|
    ensures StaysQuoted(a + b, |a| + k, escaped) == StaysQuoted(b, k, escaped)
    decreases |b| - k
  {
    if k < |b| {
      assert (a + b)[|a| + k] == b[k];
      StaysQuotedShift(a, b, k + 1, !escaped && b[k] == BACKSLASH);
    }
  }

  lemma {:induction false} StaysQuotedAppend(a: Text, b: Text, k: nat, escaped: bool)
    requires k <= |a| && StaysQuoted(a, k, escaped) && StaysQuoted(b, 0, false)
    ensures StaysQuoted(a + b, k, escaped)
    decreases |a| - k
  {
    if k == |a| {
      StaysQuotedShift(a, b, 0, false);
    } else {
      assert (a + b)[k] == a[k];
      StaysQuotedAppend(a, b, k + 1, !escaped && a[k] == BACKSLASH);
    }
  }

  lemma EscapedUnitStaysQuoted(u: Unit)
    ensures StaysQuoted(EscapeUnit(u), 0, false)
  {
    var e := EscapeUnit(u);
    if |e| == 6 {
      assert StaysQuoted(e, 6, false);
      assert StaysQuoted(e, 5, false) && StaysQuoted(e, 4, false) && StaysQuoted(e, 3, false) && StaysQuoted(e, 2, false);
      assert StaysQuoted(e, 1, true);
    } else if |e| == 2 {
      assert StaysQuoted(e, 2, false);
      assert StaysQuoted(e, 1, true);
    }
  }

  lemma {:induction false} EscapedTextStaysQuoted(t: Text)
    ensures StaysQuoted(Escape(t), 0, false)
    decreases |t|
  {
    if t == [] {
      EscapeNothing();
    } else {
      hide EscapeUnit, Escape;
      EscapeStep(t);
      EscapedUnitStaysQuoted(t[0]);
      EscapedTextStaysQuoted(t[1..]);
      StaysQuotedAppend(EscapeUnit(t[0]), Escape(t[1..]), 0, false);
    }
  }

  // ---- Escaped text reads back ---------------------------------------------------

  lemma HexDigitsAddUp(u: Unit)
    ensures u == 4096 * (u / 4096) + 256 * (u / 256 % 16) + 16 * (u / 16 % 16) + u % 16
  {
    var q := u / 16;
    assert q / 16 == u / 256 && q / 16 / 16 == u / 4096;
    assert u == 16 * q + u % 16 && q == 16 * (q / 16) + q % 16 && q / 16 == 16 * (q / 16 / 16) + q / 16 % 16;
  }

  lemma HexReadsBack(input: Text, i: nat, u: Unit)
    requires At(input, i, [HexDigit(u / 4096), HexDigit(u / 256 % 16), HexDigit(u / 16 % 16), HexDigit(u % 16)])
    ensures HexAt(input, i) && HexValue(input, i) == u
  {
    var hex := [HexDigit(u / 4096), HexDigit(u / 256 % 16), HexDigit(u / 16 % 16), HexDigit(u % 16)];
    hide HexDigit, HexDigitValue;
    assert input[i + 0] == hex[0] && input[i + 1] == hex[1] && input[i + 2] == hex[2] && input[i + 3] == hex[3];
    HexDigitsAddUp(u);
  }

  lemma UnquoteOneUnit(input: Text, i: nat, u: Unit)
    requires At(input, i, EscapeUnit(u))
    ensures Unquote(input, i) == Prepend([u], Unquote(input, i + |EscapeUnit(u)|))
  {
    var e := EscapeUnit(u);
    assert input[i + 0] == e[0];
    if u == BACKSLASH || u == QUOTE || u > 0xFF {
      assert input[i + 1] == e[1];
    }
    if u > 0xFF {
      assert e == [BACKSLASH, LOWER_U] + [HexDigit(u / 4096), HexDigit(u / 256 % 16), HexDigit(u / 16 % 16), HexDigit(u % 16)];
      AtSplit(input, i, [BACKSLASH, LOWER_U], [HexDigit(u / 4096), HexDigit(u / 256 % 16), HexDigit(u / 16 % 16), HexDigit(u % 16)]);
      HexReadsBack(input, i + 2, u);
    }
  }

  lemma AtRegroup(whole: Text, i: nat, a: Text, b: Text, c: Text)
    requires At(whole, i, a + b + c)
    ensures At(whole, i, a) && At(whole, i + |a|, b + c)
  {
    assert a + b + c == a + (b + c);
    AtSplit(whole, i, a, b + c);
  }

  lemma UnquoteEnds(input: Text, i: nat)
    requires i < |input| && input[i] == QUOTE
    ensures Unquote(input, i) == Ok(Read([], i + 1))
  {
  }

  /** Any text at all, escaped between quotes, reads back as itself. */
  lemma {:induction false} UnquoteUndoesEscape(input: Text, i: nat, t: Text)
    requires At(input, i, Escape(t) + [QUOTE])
    ensures Unquote(input, i) == Ok(Read(t, i + |Escape(t)| + 1))
    decreases |t|
  {
    hide EscapeUnit, Escape, Unquote, At;
    AtSplit(input, i, Escape(t), [QUOTE]);
    UnitAt(input, i + |Escape(t)|, QUOTE);
    if t == [] {
      EscapeNothing();
      UnquoteEnds(input, i);
    } else {
      var first, rest := EscapeUnit(t[0]), Escape(t[1..]);
      EscapeStep(t);
      AtRegroup(input, i, first, rest, [QUOTE]);
      UnquoteOneUnit(input, i, t[0]);
      UnquoteUndoesEscape(input, i + |first|, t[1..]);
      assert [t[0]] + t[1..] == t;
    }
  }

  // ---- One parameter -------------------------------------------------------------

  lemma {:induction false} SkipWhileIs(p: Unit -> bool, input: Text, i: nat, j: nat)
    requires i <= j <= |input| && (forall k :: i <= k < j ==> p(input[k])) && (j < |input| ==> !p(input[j]))
    ensures SkipWhile(p, input, i) == j
    decreases j - i
  {
    if i < j {
      SkipWhileIs(p, input, i + 1, j);
    }
  }

  /** A parameter name, in any case. */
  predicate IsKeyName(name: Text) {
    name != [] && forall u :: u in name ==> IsKeyUnit(u)
  }

  /** A parameter name as the printer writes them. */
  predicate IsOwnName(name: Text) {
    IsKeyName(name) && Lower(name) == name
  }

  lemma NameAt(input: Text, i: nat, name: Text)
    requires IsKeyName(name) && At(input, i, name)
    ensures input[i..i + |name|] == name && forall k :: i <= k < i + |name| ==> IsKeyUnit(input[k])
  {
    assert input[i..i + |name|] == name;
    forall k | i <= k < i + |name|
      ensures IsKeyUnit(input[k])
    {
      assert input[k] == name[k - i] && name[k - i] in name;
    }
  }

  lemma WrittenParameterParts(input: Text, i: nat, name: Text, body: Text)
    requires At(input, i, RenderParam(Param(name, body)))
    ensures At(input, i, name) && At(input, i + |name| + 2, body + [QUOTE])
    ensures |RenderParam(Param(name, body))| == |name| + |body| + 3
    ensures input[i + |name|] == EQUALS && input[i + |name| + 1] == QUOTE
  {
    assert RenderParam(Param(name, body)) == name + ([EQUALS, QUOTE] + (body + [QUOTE]));
    AtSplit(input, i, name, [EQUALS, QUOTE] + (body + [QUOTE]));
    AtSplit(input, i + |name|, [EQUALS, QUOTE], body + [QUOTE]);
    assert [EQUALS, QUOTE] == [EQUALS] + [QUOTE];
    AtSplit(input, i + |name|, [EQUALS], [QUOTE]);
    UnitAt(input, i + |name|, EQUALS);
    UnitAt(input, i + |name| + 1, QUOTE);
  }

  lemma ReadWrittenParameter(input: Text, p: nat, i: nat, name: Text, value: Text)
    requires IsKeyName(name) && At(input, i, RenderParam(Param(name, Escape(value))))
    requires p <= i && forall k :: p <= k < i ==> IsSeparator(input[k])
    ensures ReadParameter(input, p) == Parameter(Lower(name), value, i + |RenderParam(Param(name, Escape(value)))|)
  {
    hide Escape, Unquote, SkipWhile, At, RenderParam;
    var end := i + |name|;
    WrittenParameterParts(input, i, name, Escape(value));
    NameAt(input, i, name);
    SkipWhileIs(IsSeparator, input, p, i);
    SkipWhileIs(IsKeyUnit, input, i, end);
    SkipWhileIs(IsSpace, input, end, end);
    SkipWhileIs(IsSpace, input, end + 1, end + 1);
    UnquoteUndoesEscape(input, end + 2, value);
  }

  // ---- All parameters of a challenge ---------------------------------------------

  /** The parameters as the map they are read into. */
  function AsMap(params: seq<(Text, Text)>, read: map<Text, Text>): map<Text, Text> {
    if params == [] then read else AsMap(params[1..], read[params[0].0 := params[0].1])
  }

  /** No name is read twice. */
  predicate AllFresh(params: seq<(Text, Text)>, read: map<Text, Text>) {
    params == [] || (params[0].0 !in read && AllFresh(params[1..], read[params[0].0 := params[0].1]))
  }

  predicate AllKeyNames(params: seq<(Text, Text)>) {
    forall i :: 0 <= i < |params| ==> IsKeyName(params[i].0)
  }

  predicate AllOwnNames(params: seq<(Text, Text)>) {
    forall i :: 0 <= i < |params| ==> IsOwnName(params[i].0)
  }

  /** The parameters under the names they are read by. */
  function Lowered(params: seq<(Text, Text)>): (l: seq<(Text, Text)>)
    ensures |l| == |params| && forall i :: 0 <= i < |l| ==> l[i] == (Lower(params[i].0), params[i].1)
  {
    seq(|params|, i requires 0 <= i < |params| => (Lower(params[i].0), params[i].1))
  }

  lemma OwnNamesStay(params: seq<(Text, Text)>)
    requires AllOwnNames(params)
    ensures Lowered(params) == params && AllKeyNames(params)
  {
    forall i | 0 <= i < |params|
      ensures Lowered(params)[i] == params[i]
    {
      assert IsOwnName(params[i].0);
    }
  }

  /** No name is given twice, in whatever case. */
  predicate DistinctKeys(params: seq<(Text, Text)>) {
    forall i, j :: 0 <= i < j < |params| ==> Lower(params[i].0) != Lower(params[j].0)
  }

  lemma {:induction false} FreshIfDistinct(params: seq<(Text, Text)>, read: map<Text, Text>)
    ensures AllFresh(params, read) <==>
              (forall i :: 0 <= i < |params| ==> params[i].0 !in read)
              && (forall i, j :: 0 <= i < j < |params| ==> params[i].0 != params[j].0)
    decreases |params|
  {
    if params != [] {
      var rest, next := params[1..], read[params[0].0 := params[0].1];
      FreshIfDistinct(rest, next);
      assert forall i :: 0 < i < |params| ==> params[i] == rest[i - 1];
      if AllFresh(params, read) {
        forall i, j | 0 <= i < j < |params|
          ensures params[i].0 != params[j].0
        {
          assert params[j] == rest[j - 1] && rest[j - 1].0 !in next;
          assert i > 0 ==> rest[i - 1].0 != rest[j - 1].0;
        }
      }
    }
  }

  /** Parameters read without a clash are found under their names, and nothing else is. */
  lemma {:induction false} AsMapHolds(params: seq<(Text, Text)>, read: map<Text, Text>)
    requires AllFresh(params, read)
    ensures forall i :: 0 <= i < |params| ==> params[i].0 in AsMap(params, read) && AsMap(params, read)[params[i].0] == params[i].1
    ensures forall n :: n in read ==> n in AsMap(params, read) && AsMap(params, read)[n] == read[n]
    ensures forall n :: n in AsMap(params, read) ==> n in read || exists i :: 0 <= i < |params| && params[i].0 == n
    decreases |params|
  {
    if params != [] {
      var rest := params[1..];
      AsMapHolds(rest, read[params[0].0 := params[0].1]);
      assert forall i :: 0 < i < |params| ==> params[i] == rest[i - 1];
    }
  }

  lemma RenderFirstParam(params: seq<(Text, Text)>)
    requires params != []
    ensures var first := RenderParam(Param(params[0].0, Escape(params[0].1)));
            RenderParams(EscapedParams(params))
            == if |params| == 1 then first else first + BETWEEN + RenderParams(EscapedParams(params[1..]))
  {
    assert EscapedParams(params)[1..] == EscapedParams(params[1..]);
  }

  lemma BetweenIsSeparators(input: Text, i: nat)
    requires At(input, i, BETWEEN)
    ensures forall k :: i <= k < i + 2 ==> IsSeparator(input[k])
  {
    assert BETWEEN == [COMMA] + [SPACE];
    AtSplit(input, i, [COMMA], [SPACE]);
    UnitAt(input, i, COMMA);
    UnitAt(input, i + 1, SPACE);
  }

  /** What printed parameters read as: all of them, unless a name is repeated. */
  function Parsed(params: seq<(Text, Text)>, read: map<Text, Text>): Result<map<Text, Text>, Error> {
    if AllFresh(Lowered(params), read) then Ok(AsMap(Lowered(params), read)) else Err(DuplicateParameter)
  }

  lemma ParsedStep(params: seq<(Text, Text)>, read: map<Text, Text>)
    requires params != []
    ensures
      var key := Lower(params[0].0);
      Parsed(params, read) == if key in read then Err(DuplicateParameter) else Parsed(params[1..], read[key := params[0].1])
  {
    assert Lowered(params)[1..] == Lowered(params[1..]);
  }

  lemma {:induction false} ReadWrittenParameters(input: Text, p: nat, i: nat, params: seq<(Text, Text)>, read: map<Text, Text>)
    requires params != [] && AllKeyNames(params)
    requires At(input, i, RenderParams(EscapedParams(params)))
    requires p <= i && forall k :: p <= k < i ==> IsSeparator(input[k])
    requires ReadParameter(input, i + |RenderParams(EscapedParams(params))|) == Done
    ensures ParseParams(input, p, read) == Parsed(params, read)
    decreases |params|
  {
    hide Escape, ReadParameter, RenderParam, RenderParams, IsKeyName, At, Parsed;
    var name, value := params[0].0, params[0].1;
    var first := RenderParam(Param(name, Escape(value)));
    RenderFirstParam(params);
    ParsedStep(params, read);
    if |params| == 1 {
      ReadWrittenParameter(input, p, i, name, value);
      NothingParsed(params[1..], read[Lower(name) := value]);
    } else {
      var rest := RenderParams(EscapedParams(params[1..]));
      AtSplit(input, i, first + BETWEEN, rest);
      AtSplit(input, i, first, BETWEEN);
      ReadWrittenParameter(input, p, i, name, value);
      if Lower(name) !in read {
        BetweenIsSeparators(input, i + |first|);
        ReadWrittenParameters(input, i + |first|, i + |first| + 2, params[1..], read[Lower(name) := value]);
      }
    }
  }

  lemma NothingParsed(params: seq<(Text, Text)>, read: map<Text, Text>)
    requires params == []
    ensures Parsed(params, read) == Ok(read)
  {
  }

  /** Printed parameters, of any names and values, parse to exactly those pairs, under their lower-case
      names, if no name is repeated; and a repeated one, in whatever case, is refused. */
  lemma PrintedParametersParse(params: seq<(Text, Text)>)
    requires params != [] && AllKeyNames(params)
    ensures
      var r := ParseParams(RenderParams(EscapedParams(params)), 0, map[]);
      if DistinctKeys(params) then
        && r.Ok?
        && (forall i :: 0 <= i < |params| ==> Lower(params[i].0) in r.value && r.value[Lower(params[i].0)] == params[i].1)
        && (forall n :: n in r.value ==> exists i :: 0 <= i < |params| && Lower(params[i].0) == n)
      else r == Err(DuplicateParameter)
  {
    var input := RenderParams(EscapedParams(params));
    NothingFollows(input);
    ReadWrittenParameters(input, 0, 0, params, map[]);
    ParsedIfDistinct(params);
    hide RenderParams, EscapedParams, ParseParams, Parsed, DistinctKeys;
  }

  lemma ParsedIfDistinct(params: seq<(Text, Text)>)
    ensures
      var r := Parsed(params, map[]);
      if DistinctKeys(params) then
        && r.Ok?
        && (forall i :: 0 <= i < |params| ==> Lower(params[i].0) in r.value && r.value[Lower(params[i].0)] == params[i].1)
        && (forall n :: n in r.value ==> exists i :: 0 <= i < |params| && Lower(params[i].0) == n)
      else r == Err(DuplicateParameter)
  {
    var l := Lowered(params);
    FreshIfDistinct(l, map[]);
    if AllFresh(l, map[]) {
      AsMapHolds(l, map[]);
      forall i | 0 <= i < |params|
        ensures Lower(params[i].0) in AsMap(l, map[]) && AsMap(l, map[])[Lower(params[i].0)] == params[i].1
      {
        assert l[i] == (Lower(params[i].0), params[i].1);
      }
      forall n | n in AsMap(l, map[])
        ensures exists i :: 0 <= i < |params| && Lower(params[i].0) == n
      {
        var i :| 0 <= i < |l| && l[i].0 == n;
        assert l[i] == (Lower(params[i].0), params[i].1);
      }
    }
    hide AsMap, AllFresh;
    assert DistinctKeys(params) <==> forall i, j :: 0 <= i < j < |l| ==> l[i].0 != l[j].0;
  }

  lemma NameUnits(name: Text)
    requires IsKeyName(name)
    ensures |name| > 0 && !IsSeparator(name[0]) && !IsKeyUnit(EQUALS) && !IsSpace(EQUALS)
  {
    assert name[0] in name;
  }

  // ---- What may follow -----------------------------------------------------------

  lemma NothingFollows(input: Text)
    ensures ReadParameter(input, |input|) == Done
  {
  }

  /** Another scheme ends the parameters before it. */
  lemma AnotherSchemeEndsThem(input: Text, p: nat, i: nat, a: Auth)
    requires IsAuth(a) && At(input, i, Render(a)) && EndsAt(input, i + |Render(a)|)
    requires p <= i && forall k :: p <= k < i ==> IsSeparator(input[k])
    ensures ReadParameter(input, p) == Done
  {
    hide ReadValue, SkipWhile, RenderParams, At;
    var end := i + |a.scheme|;
    SchemeAndTail(input, i, a);
    SchemeUnits(input, i, a.scheme);
    SkipWhileIs(IsSeparator, input, p, i);
    var keyEnd := SkipWhile(IsKeyUnit, input, i);
    assert i < keyEnd <= end;
    if keyEnd < end || end == |input| || input[end] == COMMA {
      SkipWhileIs(IsSpace, input, keyEnd, keyEnd);
    } else {
      SkipWhileIs(IsSpace, input, end, end + 1);
    }
  }

  lemma SchemeUnits(input: Text, i: nat, scheme: Text)
    requires IsName(scheme) && IsKeyUnit(scheme[0]) && At(input, i, scheme)
    ensures IsKeyUnit(input[i]) && forall k :: i <= k < i + |scheme| ==> IsWordUnit(input[k]) && input[k] != EQUALS
  {
    forall k | i <= k < i + |scheme|
      ensures IsWordUnit(input[k]) && input[k] != EQUALS
    {
      assert input[i + (k - i)] == scheme[k - i] && scheme[k - i] in scheme;
    }
    assert input[i + 0] == scheme[0];
  }

  function TailOf(a: Auth): Text {
    match a
    case Bare(_) => []
    case Token68(_, token) => [SPACE] + token
    case Params(_, params) => [SPACE] + RenderParams(params)
  }

  lemma RenderIsSchemeAndTail(a: Auth)
    ensures Render(a) == a.scheme + TailOf(a)
  {
  }

  /** What follows a scheme name: the end, a comma, or a space and a unit that is not `=`. */
  lemma SchemeAndTail(input: Text, i: nat, a: Auth)
    requires IsAuth(a) && At(input, i, Render(a)) && EndsAt(input, i + |Render(a)|)
    ensures At(input, i, a.scheme)
    ensures var end := i + |a.scheme|;
            end < |input| && input[end] != COMMA
            ==> input[end] == SPACE && end + 1 < |input| && IsWordUnit(input[end + 1]) && input[end + 1] != EQUALS
  {
    hide Render, TailOf, At;
    RenderIsSchemeAndTail(a);
    AtSplit(input, i, a.scheme, TailOf(a));
    if a.Bare? {
      BareHasNoTail(a);
    } else {
      FirstOfTail(a);
      TwoUnitsAt(input, i + |a.scheme|, TailOf(a));
    }
  }

  lemma TwoUnitsAt(input: Text, i: nat, part: Text)
    requires At(input, i, part) && |part| >= 2
    ensures i + 1 < |input| && input[i] == part[0] && input[i + 1] == part[1]
  {
    assert input[i + 0] == part[0];
  }

  lemma BareHasNoTail(a: Auth)
    requires a.Bare?
    ensures TailOf(a) == []
  {
  }

  lemma FirstOfTail(a: Auth)
    requires IsAuth(a) && !a.Bare?
    ensures var tail := TailOf(a); |tail| >= 2 && tail[0] == SPACE && IsWordUnit(tail[1]) && tail[1] != EQUALS
  {
    if a.Token68? {
      assert a.token[0] in a.token;
    } else {
      FirstOfParams(a.params);
    }
  }

  lemma FirstOfParams(params: seq<Param>)
    requires params != [] && IsParam(params[0])
    ensures RenderParams(params) != [] && IsWordUnit(RenderParams(params)[0]) && RenderParams(params)[0] != EQUALS
  {
    var p := params[0];
    assert p.name[0] in p.name;
    assert RenderParam(p)[0] == p.name[0];
    assert |params| > 1 ==> (RenderParam(p) + BETWEEN + RenderParams(params[1..]))[0] == RenderParam(p)[0];
  }
}
