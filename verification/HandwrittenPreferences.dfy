/** `Accept-Payment` as clients may write it (sections 5.6.1, 5.6.3 and 12.4.2 of RFC 9110): white space
    around every mark, empty list members, any parameters, and every form of a weight. */
module HandwrittenPreferences {
  import opened Basics
  import opened Text
  import opened PaymentRanking
  import opened AcceptPayment
  import opened AcceptPaymentRoundTrip

  // ---- Weights -------------------------------------------------------------------

  /** A weight as section 12.4.2 writes it: 0 with up to three digits, or 1 with up to three zeros. */
  datatype Weight = Below(digits: seq<nat>, dot: bool) | One(zeros: nat, dot: bool)

  predicate IsWeight(w: Weight) {
    match w
    case Below(digits, dot) => |digits| <= 3 && (!dot ==> digits == []) && forall k | 0 <= k < |digits| :: digits[k] < 10
    case One(zeros, dot) => zeros <= 3 && (!dot ==> zeros == 0)
  }

  function WeightText(w: Weight): Text
    requires IsWeight(w)
  {
    match w
    case Below(digits, dot) =>
      [ZERO] + (if dot then [DOT] else []) + seq(|digits|, k requires 0 <= k < |digits| => ZERO + digits[k])
    case One(zeros, dot) =>
      [ZERO + 1] + (if dot then [DOT] else []) + seq(zeros, k requires 0 <= k < zeros => ZERO)
  }

  function DigitOf(digits: seq<nat>, k: nat): nat {
    if k < |digits| then digits[k] else 0
  }

  function Thousandths(w: Weight): nat {
    match w
    case Below(digits, _) => 100 * DigitOf(digits, 0) + 10 * DigitOf(digits, 1) + DigitOf(digits, 2)
    case One(_, _) => 1000
  }

  lemma WeightReads(w: Weight)
    requires IsWeight(w)
    ensures ParseHeaderQ(WeightText(w)) == Ok(Thousandths(w))
  {
    var t := WeightText(w);
    match w
    case Below(digits, _) =>
      assert forall k | 2 <= k < |t| :: t[k] == ZERO + digits[k - 2];
    case One(_, _) =>
      assert forall k | 2 <= k < |t| :: t[k] == ZERO;
  }

  /** The weights read are exactly these, with their value in thousandths; all else is refused. */
  lemma WeightsAreTheForms(t: Text, q: nat)
    ensures ParseHeaderQ(t) == Ok(q) <==> exists w :: IsWeight(w) && WeightText(w) == t && Thousandths(w) == q
    ensures ParseHeaderQ(t).Err? ==> ParseHeaderQ(t) == Err(InvalidQ)
  {
    if ParseHeaderQ(t) == Ok(q) {
      var w := if t[0] == ZERO
               then Below(seq(if |t| < 2 then 0 else |t| - 2, k requires 0 <= k < |t| - 2 => t[k + 2] - ZERO), |t| > 1)
               else One(if |t| < 2 then 0 else |t| - 2, |t| > 1);
      assert IsWeight(w);
      assert WeightText(w) == t;
      WeightReads(w);
    }
    if w :| IsWeight(w) && WeightText(w) == t && Thousandths(w) == q {
      WeightReads(w);
    }
  }

  // ---- White space -----------------------------------------------------------------

  lemma AllConcat(kind: Unit -> bool, a: Text, b: Text)
    requires All(kind, a) && All(kind, b)
    ensures All(kind, a + b)
  {
  }

  /** A text without white space at its ends. */
  predicate Trimmed(t: Text) {
    t != [] && !IsSpace(t[0]) && !IsSpace(t[|t| - 1])
  }

  lemma SkipSpaceIs(t: Text, i: nat, end: nat)
    requires i <= end <= |t| && (forall k | i <= k < end :: IsSpace(t[k])) && (end < |t| ==> !IsSpace(t[end]))
    ensures SkipSpace(t, i) == end
  {
  }

  lemma TrimIs(lead: Text, core: Text, trail: Text)
    requires All(IsSpace, lead) && All(IsSpace, trail) && Trimmed(core)
    ensures Trim(lead + (core + trail)) == core
  {
    var whole := lead + (core + trail);
    assert whole[|lead|] == core[0];
    SkipSpaceIs(whole, 0, |lead|);
    assert whole[|lead|..] == core + trail;
    assert (core + trail)[|core| - 1] == core[|core| - 1];
    hide IsSpace;
    TailStartIs(core + trail, IsSpace, |core|);
  }

  lemma TrimSpaces(t: Text)
    requires All(IsSpace, t)
    ensures Trim(t) == []
  {
    SkipSpaceIs(t, 0, |t|);
  }

  // ---- Joined texts -----------------------------------------------------------------

  function Joined(texts: seq<Text>, separator: Unit): Text
    requires texts != []
  {
    if |texts| == 1 then texts[0] else texts[0] + [separator] + Joined(texts[1..], separator)
  }

  predicate Lacks(t: Text, u: Unit) {
    forall k | 0 <= k < |t| :: t[k] != u
  }

  lemma {:induction false} SplitJoined(texts: seq<Text>, separator: Unit)
    requires texts != [] && forall k | 0 <= k < |texts| :: Lacks(texts[k], separator)
    ensures Split(Joined(texts, separator), separator) == texts
    decreases |texts|
  {
    hide Split;
    if |texts| == 1 {
      SplitNone(texts[0], separator);
    } else {
      SplitFirst(texts[0], separator, Joined(texts[1..], separator));
      SplitJoined(texts[1..], separator);
    }
  }

  lemma {:induction false} JoinedAll(kind: Unit -> bool, texts: seq<Text>, separator: Unit)
    requires texts != [] && kind(separator) && forall k | 0 <= k < |texts| :: All(kind, texts[k])
    ensures All(kind, Joined(texts, separator))
    decreases |texts|
  {
    if |texts| > 1 {
      JoinedAll(kind, texts[1..], separator);
    }
  }

  // ---- Parameters -------------------------------------------------------------------

  predicate IsBlank(u: Unit) { IsSpace(u) && !IsLineEnd(u) }
  predicate IsValueUnit(u: Unit) { !IsSpace(u) && u != SEMICOLON && u != COMMA }
  predicate IsTextUnit(u: Unit) { !IsLineEnd(u) && u != SEMICOLON && u != COMMA }

  /** A parameter after its semicolon, with the white space around its parts. */
  datatype Param = Param(lead: Text, name: Text, before: Text, after: Text, value: Text, trail: Text)

  function ParamCore(p: Param): Text {
    p.name + (p.before + ([EQUALS] + (p.after + p.value)))
  }

  function ParamText(p: Param): Text {
    p.lead + (ParamCore(p) + p.trail)
  }

  predicate IsParam(p: Param) {
    && All(IsBlank, p.lead) && All(IsBlank, p.before) && All(IsBlank, p.after) && All(IsBlank, p.trail)
    && p.name != [] && All(IsParameterUnit, p.name) && p.value != [] && All(IsValueUnit, p.value)
  }

  /** Where the parts of a parameter stand. */
  lemma ParamPlaces(p: Param)
    ensures
      var t, end := ParamCore(p), |p.name|;
      var equals := end + |p.before|;
      var start := equals + 1 + |p.after|;
      && |t| == start + |p.value| && t[equals] == EQUALS && t[..end] == p.name && t[start..] == p.value
      && (forall k | 0 <= k < end :: t[k] == p.name[k])
      && (forall k | end <= k < equals :: t[k] == p.before[k - end])
      && (forall k | equals < k < start :: t[k] == p.after[k - equals - 1])
      && (forall k | start <= k < |t| :: t[k] == p.value[k - start])
  {
  }

  /** What a parameter reads as, once its parts are found. */
  lemma ParameterAt(t: Text, end: nat, equals: nat, start: nat)
    requires 0 < end <= equals < start < |t| && t[equals] == EQUALS
    requires RunEnd(t, 0, IsParameterUnit) == end && SkipSpace(t, end) == equals && SkipSpace(t, equals + 1) == start
    requires forall k | start <= k < |t| :: !IsSpace(t[k])
    ensures Parameter(t) == Some((t[..end], t[start..]))
  {
    hide RunEnd, SkipSpace, IsSpace;
  }

  lemma ParamReads(p: Param)
    requires IsParam(p)
    ensures Parameter(ParamCore(p)) == Some((p.name, p.value))
    ensures Trim(ParamText(p)) == ParamCore(p) && ParamCore(p) != []
  {
    var t, end := ParamCore(p), |p.name|;
    var equals := end + |p.before|;
    var start := equals + 1 + |p.after|;
    hide ParamCore, IsSpace, IsParameterUnit, IsLineEnd, RunEnd, SkipSpace, Trim, IsParam, Parameter, Trimmed, All;
    ParamPlaces(p);
    ParamUnits(p);
    RunEndIs(t, 0, IsParameterUnit, end);
    SkipSpaceIs(t, end, equals);
    SkipSpaceIs(t, equals + 1, start);
    ParameterAt(t, end, equals, start);
    TrimIs(p.lead, t, p.trail);
  }

  /** What the scanners of a parameter see. */
  lemma ParamUnits(p: Param)
    requires IsParam(p)
    ensures
      var t, end := ParamCore(p), |p.name|;
      var equals := end + |p.before|;
      var start := equals + 1 + |p.after|;
      && 0 < end <= equals < start < |t| && t[equals] == EQUALS && !IsSpace(t[equals])
      && (forall k | 0 <= k < end :: IsParameterUnit(t[k])) && !IsParameterUnit(t[end])
      && (forall k | end <= k < equals :: IsSpace(t[k]))
      && (forall k | equals < k < start :: IsSpace(t[k]))
      && (forall k | start <= k < |t| :: !IsSpace(t[k]))
      && Trimmed(t) && All(IsSpace, p.lead) && All(IsSpace, p.trail)
  {
    ParamPlaces(p);
    hide ParamCore;
    assert IsParameterUnit(p.name[0]);
    assert p.before != [] ==> IsBlank(p.before[0]);
  }

  predicate SpellsParameter(t: Text, name: Text, before: Text, after: Text, value: Text) {
    && name != [] && All(IsParameterUnit, name) && value != [] && (forall k | 0 <= k < |value| :: !IsSpace(value[k]))
    && All(IsSpace, before) && All(IsSpace, after)
    && t == name + (before + ([EQUALS] + (after + value)))
  }

  lemma FourParts(t: Text, a: nat, b: nat, c: nat)
    requires a <= b < c <= |t|
    ensures t == t[..a] + (t[a..b] + ([t[b]] + (t[b + 1..c] + t[c..])))
  {
    assert t == t[..a] + t[a..] && t[a..] == t[a..b] + t[b..] && t[b..] == [t[b]] + t[b + 1..];
    assert t[b + 1..] == t[b + 1..c] + t[c..];
  }

  /** Nothing else is read as a parameter: a name, `=` and a value without white space. */
  lemma OnlyTheseAreParameters(t: Text)
    requires Parameter(t).Some?
    ensures
      var (name, value) := Parameter(t).value;
      exists before, after :: SpellsParameter(t, name, before, after, value)
  {
    hide Parameter, RunEnd, SkipSpace, SpellsParameter;
    var end := RunEnd(t, 0, IsParameterUnit);
    var equals := SkipSpace(t, end);
    AcceptedParameter(t);
    var start := SkipSpace(t, equals + 1);
    ParameterIsSpelled(t, end, equals, start);
    assert SpellsParameter(t, t[..end], t[end..equals], t[equals + 1..start], t[start..]);
  }

  lemma ParameterIsSpelled(t: Text, end: nat, equals: nat, start: nat)
    requires 0 < end <= equals < start < |t| && t[equals] == EQUALS
    requires RunEnd(t, 0, IsParameterUnit) == end && SkipSpace(t, end) == equals && SkipSpace(t, equals + 1) == start
    requires forall k | start <= k < |t| :: !IsSpace(t[k])
    ensures SpellsParameter(t, t[..end], t[end..equals], t[equals + 1..start], t[start..])
  {
    hide RunEnd, SkipSpace, IsSpace, IsParameterUnit;
    FourParts(t, end, equals, start);
  }

  /** Where the parts of an accepted parameter were found. */
  lemma AcceptedParameter(t: Text)
    requires Parameter(t).Some?
    ensures
      var end := RunEnd(t, 0, IsParameterUnit);
      var equals := SkipSpace(t, end);
      && 0 < end && equals < |t| && t[equals] == EQUALS
      && var start := SkipSpace(t, equals + 1);
         && start < |t| && (forall k | start <= k < |t| :: !IsSpace(t[k]))
         && Parameter(t).value == (t[..end], t[start..])
  {
    hide RunEnd, SkipSpace, IsSpace, IsParameterUnit;
  }

  /** A malformed parameter is refused, whatever stands around it. */
  lemma {:induction false} MalformedParametersAreRefused(params: seq<Text>, k: nat)
    requires k < |params| && Parameter(params[k]).None?
    ensures ReadQ(params).Err?
    decreases |params|
  {
    hide Parameter, ParseHeaderQ;
    if k < |params| - 1 {
      MalformedParametersAreRefused(params[..|params| - 1], k);
    }
  }

  lemma ParamTextUnits(p: Param)
    requires IsParam(p)
    ensures All(IsTextUnit, ParamText(p))
  {
    hide IsSpace, IsParameterUnit, IsLineEnd;
    BlankUnits();
    assert All(IsTextUnit, p.lead) && All(IsTextUnit, p.before) && All(IsTextUnit, p.after) && All(IsTextUnit, p.trail);
    assert All(IsTextUnit, p.name) && All(IsTextUnit, p.value) && All(IsTextUnit, [EQUALS]);
    hide IsTextUnit;
    AllConcat(IsTextUnit, p.after, p.value);
    AllConcat(IsTextUnit, [EQUALS], p.after + p.value);
    AllConcat(IsTextUnit, p.before, [EQUALS] + (p.after + p.value));
    AllConcat(IsTextUnit, p.name, p.before + ([EQUALS] + (p.after + p.value)));
    AllConcat(IsTextUnit, ParamCore(p), p.trail);
    AllConcat(IsTextUnit, p.lead, ParamCore(p) + p.trail);
  }

  lemma BlankUnits()
    ensures forall u | IsBlank(u) || IsParameterUnit(u) || IsValueUnit(u) || u == EQUALS :: IsTextUnit(u)
  {
  }

  /** The value of the last `q`, if there is one. */
  function LastQ(ps: seq<Param>): Option<Text> {
    if ps == [] then None
    else if ps[|ps| - 1].name == Q_NAME then Some(ps[|ps| - 1].value)
    else LastQ(ps[..|ps| - 1])
  }

  predicate AllQsValid(ps: seq<Param>) {
    forall k | 0 <= k < |ps| && ps[k].name == Q_NAME :: ParseHeaderQ(ps[k].value).Ok?
  }

  function WeightOf(ps: seq<Param>): nat {
    var q := LastQ(ps);
    if q.None? then 1000 else if ParseHeaderQ(q.value).Ok? then ParseHeaderQ(q.value).value else 0
  }

  function Cores(ps: seq<Param>): (cores: seq<Text>)
    ensures |cores| == |ps|
  {
    seq(|ps|, k requires 0 <= k < |ps| => ParamCore(ps[k]))
  }

  function ParamTexts(ps: seq<Param>): (texts: seq<Text>)
    ensures |texts| == |ps|
  {
    seq(|ps|, k requires 0 <= k < |ps| => ParamText(ps[k]))
  }

  lemma WeightStep(ps: seq<Param>)
    requires ps != []
    ensures
      var n := |ps| - 1;
      && Cores(ps) == Cores(ps[..n]) + [ParamCore(ps[n])]
      && WeightOf(ps) == (if ps[n].name != Q_NAME then WeightOf(ps[..n])
                          else if ParseHeaderQ(ps[n].value).Ok? then ParseHeaderQ(ps[n].value).value else 0)
      && (AllQsValid(ps) <==> AllQsValid(ps[..n]) && (ps[n].name == Q_NAME ==> ParseHeaderQ(ps[n].value).Ok?))
  {
    hide ParseHeaderQ, ParamCore;
  }

  lemma ReadQStep(before: seq<Text>, last: Text)
    requires Parameter(last).Some?
    ensures ReadQ(before + [last])
         == if ReadQ(before).Err? || Parameter(last).value.0 != Q_NAME then ReadQ(before)
            else ParseHeaderQ(Parameter(last).value.1)
  {
    hide Parameter, ParseHeaderQ;
    assert (before + [last])[..|before|] == before;
  }

  lemma {:induction false} WeightIsRead(ps: seq<Param>)
    requires forall k | 0 <= k < |ps| :: IsParam(ps[k])
    ensures ReadQ(Cores(ps)) == if AllQsValid(ps) then Ok(WeightOf(ps)) else Err(InvalidQ)
    decreases |ps|
  {
    if ps != [] {
      hide ParseHeaderQ, Parameter, IsParam, ParamCore, ReadQ, WeightOf, AllQsValid, Cores;
      var n := |ps| - 1;
      WeightStep(ps);
      WeightIsRead(ps[..n]);
      ParamReads(ps[n]);
      ReadQStep(Cores(ps[..n]), ParamCore(ps[n]));
      WeightsAreTheForms(ps[n].value, 0);
    }
  }

  /** The parameters after a gap, each behind its semicolon. */
  function Tail(gap: Text, ps: seq<Param>): Text {
    if ps == [] then [] else Joined([gap] + ParamTexts(ps), SEMICOLON)
  }

  lemma ParamTextsStep(ps: seq<Param>)
    requires ps != []
    ensures ParamTexts(ps) == [ParamText(ps[0])] + ParamTexts(ps[1..])
    ensures Cores(ps) == [ParamCore(ps[0])] + Cores(ps[1..])
  {
    hide ParamText, ParamCore;
  }

  lemma {:induction false} ParamsFill(ps: seq<Param>)
    requires forall k | 0 <= k < |ps| :: IsParam(ps[k])
    ensures Filled(ParamTexts(ps)) == Cores(ps)
    decreases |ps|
  {
    if ps != [] {
      hide Trim, ParamText, ParamCore, IsParam, Filled, ParamTexts, Cores;
      ParamsFill(ps[1..]);
      ParamReads(ps[0]);
      ParamTextsStep(ps);
      FilledFirst(ParamText(ps[0]), ParamTexts(ps[1..]));
    }
  }

  lemma FilledBlank(t: Text, rest: seq<Text>)
    requires All(IsSpace, t)
    ensures Filled([t] + rest) == Filled(rest)
  {
    TrimSpaces(t);
    assert ([t] + rest)[1..] == rest;
  }

  /** Splitting a tail at its semicolons gives the parameters. */
  lemma TailPieces(gap: Text, ps: seq<Param>)
    requires All(IsBlank, gap) && forall k | 0 <= k < |ps| :: IsParam(ps[k])
    ensures Pieces(Tail(gap, ps), SEMICOLON) == Cores(ps)
  {
    hide Split, Filled, IsParam, ParamText, ParamCore, Joined;
    if ps == [] {
      SplitNone([], SEMICOLON);
      var nothing: seq<Text> := [];
      FilledBlank([], nothing);
      FilledNothing();
      assert [[]] + nothing == [[]];
    } else {
      var texts := [gap] + ParamTexts(ps);
      forall k | 0 <= k < |texts|
        ensures Lacks(texts[k], SEMICOLON)
      {
        if k > 0 {
          ParamTextUnits(ps[k - 1]);
        } else {
          BlankUnits();
        }
      }
      SplitJoined(texts, SEMICOLON);
      FilledBlank(gap, ParamTexts(ps));
      ParamsFill(ps);
    }
  }

  // ---- One entry --------------------------------------------------------------------

  /** An entry with all that may stand around and within it; its last parameter ends with its value. */
  datatype Preference = Preference(
    lead: Text, name: Text, before: Text, after: Text, intent: Text, gap: Text, params: seq<Param>, trail: Text)

  function Core(w: Preference): Text {
    w.name + (w.before + ([SLASH] + (w.after + (w.intent + Tail(w.gap, w.params)))))
  }

  function PreferenceText(w: Preference): Text {
    w.lead + (Core(w) + w.trail)
  }

  predicate IsPreference(w: Preference) {
    && All(IsSpace, w.lead) && All(IsSpace, w.before) && All(IsSpace, w.after) && All(IsSpace, w.trail)
    && IsToken(w.name) && IsToken(w.intent) && All(IsBlank, w.gap)
    && (forall k | 0 <= k < |w.params| :: IsParam(w.params[k]))
    && (w.params != [] ==> w.params[|w.params| - 1].trail == [])
  }

  /** Where the parts of an entry stand. */
  lemma CorePlaces(w: Preference)
    ensures
      var t, name := Core(w), |w.name|;
      var slash := name + |w.before|;
      var start := slash + 1 + |w.after|;
      var end := start + |w.intent|;
      && |t| == end + |Tail(w.gap, w.params)| && t[slash] == SLASH
      && t[..name] == w.name && t[start..end] == w.intent && t[end..] == Tail(w.gap, w.params)
      && (forall k | 0 <= k < name :: t[k] == w.name[k])
      && (forall k | name <= k < slash :: t[k] == w.before[k - name])
      && (forall k | slash < k < start :: t[k] == w.after[k - slash - 1])
      && (forall k | start <= k < end :: t[k] == w.intent[k - start])
  {
    hide Tail;
  }

  /** Where the scanners of an entry stop. */
  lemma EntryScans(part: Text, name: nat, slash: nat, start: nat, end: nat, semicolon: nat)
    requires 0 < name <= slash < start < end <= semicolon <= |part| && part[slash] == SLASH
    requires forall k | 0 <= k < name :: IsNameUnit(part[k])
    requires forall k | name <= k < slash :: IsSpace(part[k])
    requires forall k | slash < k < start :: IsSpace(part[k])
    requires forall k | start <= k < end :: IsNameUnit(part[k])
    requires forall k | end <= k < semicolon :: IsSpace(part[k])
    requires semicolon < |part| ==> part[semicolon] == SEMICOLON
    ensures RunEnd(part, 0, IsNameUnit) == name && SkipSpace(part, name) == slash
    ensures SkipSpace(part, slash + 1) == start && RunEnd(part, start, IsNameUnit) == end
    ensures SkipSpace(part, end) == semicolon
  {
    NamesAndMarks();
    hide IsSpace, IsNameUnit, RunEnd, SkipSpace;
    RunEndIs(part, 0, IsNameUnit, name);
    SkipSpaceIs(part, name, slash);
    SkipSpaceIs(part, slash + 1, start);
    RunEndIs(part, start, IsNameUnit, end);
    SkipSpaceIs(part, end, semicolon);
  }

  lemma NamesAndMarks()
    ensures forall u | IsSpace(u) || u == SLASH || u == SEMICOLON :: !IsNameUnit(u)
    ensures !IsSpace(SLASH) && !IsSpace(SEMICOLON)
  {
  }

  /** What an entry reads as, once its parts are found. */
  lemma EntryIs(part: Text, name: nat, slash: nat, start: nat, end: nat, semicolon: nat, index: nat)
    requires 0 < name <= slash < start < end <= semicolon <= |part| && part[slash] == SLASH
    requires RunEnd(part, 0, IsNameUnit) == name && SkipSpace(part, name) == slash
    requires SkipSpace(part, slash + 1) == start && RunEnd(part, start, IsNameUnit) == end
    requires SkipSpace(part, end) == semicolon
    requires end < |part| ==> semicolon < |part| && part[semicolon] == SEMICOLON && HasParameterText(part[semicolon + 1..])
    requires IsToken(part[..name]) && IsToken(part[start..end])
    ensures
      var q := ReadQ(Pieces(part[end..], SEMICOLON));
      ParseEntry(part, index) == if q.Err? then Err(q.error) else Ok(Entry(part[..name], part[start..end], q.value, index))
  {
    hide IsToken, ReadQ, Pieces, HasParameterText, RunEnd, SkipSpace;
  }

  lemma TailBegins(gap: Text, ps: seq<Param>)
    requires ps != [] && All(IsBlank, gap) && forall k | 0 <= k < |ps| :: IsParam(ps[k])
    ensures
      var t := Tail(gap, ps);
      && |gap| < |t| && t[..|gap|] == gap && t[|gap|] == SEMICOLON && HasParameterText(t[|gap| + 1..])
  {
    hide ParamText, IsParam, IsLineEnd;
    var texts := ParamTexts(ps);
    assert ([gap] + texts)[1..] == texts;
    var rest := Joined(texts, SEMICOLON);
    assert Tail(gap, ps) == gap + [SEMICOLON] + rest;
    RestOfLine(ps);
    PlainParameterText(rest);
    assert Tail(gap, ps)[|gap| + 1..] == rest;
  }

  lemma RestOfLine(ps: seq<Param>)
    requires ps != [] && forall k | 0 <= k < |ps| :: IsParam(ps[k])
    ensures
      var rest := Joined(ParamTexts(ps), SEMICOLON);
      rest != [] && forall k | 0 <= k < |rest| :: NotLineEnd(rest[k])
  {
    hide IsParam, ParamText, IsLineEnd;
    var texts := ParamTexts(ps);
    forall k | 0 <= k < |texts|
      ensures All(NotLineEnd, texts[k])
    {
      ParamTextUnits(ps[k]);
    }
    assert NotLineEnd(SEMICOLON) by {
      SemicolonGoesOn();
    }
    JoinedAll(NotLineEnd, texts, SEMICOLON);
    ParamIsText(ps[0]);
    assert texts[0] != [];
  }

  lemma SemicolonGoesOn()
    ensures NotLineEnd(SEMICOLON)
  {
  }

  lemma ParamIsText(p: Param)
    ensures ParamText(p) != []
  {
  }

  /** An entry, however it is spaced and whatever its parameters, reads as its names and the weight of
      its last `q`, 1 without one; and is refused exactly for an invalid `q`. */
  lemma PreferenceReads(w: Preference, index: nat)
    requires IsPreference(w)
    ensures ParseEntry(Core(w), index)
         == if AllQsValid(w.params) then Ok(Entry(w.name, w.intent, WeightOf(w.params), index)) else Err(InvalidQ)
  {
    hide Core, Tail, ParseEntry, IsParam, RunEnd, SkipSpace, IsToken, HasParameterText, Pieces, ReadQ, WeightOf, AllQsValid, Cores;
    var part, name := Core(w), |w.name|;
    var slash := name + |w.before|;
    var start := slash + 1 + |w.after|;
    var end := start + |w.intent|;
    var semicolon := end + if w.params == [] then 0 else |w.gap|;
    CorePlaces(w);
    CoreUnits(w);
    EntryScans(part, name, slash, start, end, semicolon);
    EntryIs(part, name, slash, start, end, semicolon, index);
    TailPieces(w.gap, w.params);
    WeightIsRead(w.params);
  }

  /** What the scanners of an entry see. */
  lemma CoreUnits(w: Preference)
    requires IsPreference(w)
    ensures
      var part, name := Core(w), |w.name|;
      var slash := name + |w.before|;
      var start := slash + 1 + |w.after|;
      var end := start + |w.intent|;
      var semicolon := end + if w.params == [] then 0 else |w.gap|;
      && 0 < name <= slash < start < end <= semicolon <= |part|
      && (forall k | 0 <= k < name :: IsNameUnit(part[k]))
      && (forall k | name <= k < slash :: IsSpace(part[k]))
      && (forall k | slash < k < start :: IsSpace(part[k]))
      && (forall k | start <= k < end :: IsNameUnit(part[k]))
      && (forall k | end <= k < semicolon :: IsSpace(part[k]))
      && (semicolon < |part| ==> part[semicolon] == SEMICOLON)
      && (end < |part| ==> semicolon < |part| && HasParameterText(part[semicolon + 1..]))
  {
    hide Core, Tail, IsParam, IsToken, HasParameterText, IsSpace, IsLineEnd, IsNameUnit;
    CorePlaces(w);
    TokenUnits(w.name);
    TokenUnits(w.intent);
    var part := Core(w);
    var end := |part| - |Tail(w.gap, w.params)|;
    if w.params == [] {
      NoTail(w.gap);
    } else {
      var t := Tail(w.gap, w.params);
      TailBegins(w.gap, w.params);
      assert part[end..] == t;
      assert forall k | 0 <= k < |t| :: part[end + k] == t[k];
      assert forall k | 0 <= k < |w.gap| :: t[k] == w.gap[k] && IsBlank(w.gap[k]);
      assert forall k | end <= k < end + |w.gap| :: part[k] == w.gap[k - end];
      assert part[end + |w.gap| + 1..] == t[|w.gap| + 1..];
    }
  }

  lemma NoTail(gap: Text)
    ensures Tail(gap, []) == []
  {
  }

  predicate SpellsEntry(part: Text, name: Text, before: Text, after: Text, intent: Text, tail: Text) {
    && IsToken(name) && IsToken(intent) && All(IsSpace, before) && All(IsSpace, after)
    && part == name + (before + ([SLASH] + (after + (intent + tail))))
    && (tail != [] ==> SkipSpace(tail, 0) < |tail| - 1 && tail[SkipSpace(tail, 0)] == SEMICOLON)
  }

  /** Nothing else is read as an entry: two tokens with a slash between, and parameters behind a semicolon. */
  lemma OnlyTheseAreEntries(part: Text, index: nat)
    requires ParseEntry(part, index).Ok?
    ensures
      var e := ParseEntry(part, index).value;
      exists before, after, tail ::
        SpellsEntry(part, e.methodName, before, after, e.intent, tail) && Ok(e.q) == ReadQ(Pieces(tail, SEMICOLON))
  {
    hide ParseEntry, RunEnd, SkipSpace, SpellsEntry, IsToken, ReadQ, Pieces, HasParameterText;
    var name := RunEnd(part, 0, IsNameUnit);
    var slash := SkipSpace(part, name);
    AcceptedEntry(part, index, name, slash);
    var start := SkipSpace(part, slash + 1);
    var end := RunEnd(part, start, IsNameUnit);
    AcceptedEntryIs(part, index, name, start, end);
    EntryIsSpelled(part, name, slash, start, end);
    assert SpellsEntry(part, part[..name], part[name..slash], part[slash + 1..start], part[start..end], part[end..]);
  }

  /** Where the parts of an accepted entry were found. */
  lemma AcceptedEntry(part: Text, index: nat, name: nat, slash: nat)
    requires ParseEntry(part, index).Ok?
    requires name == RunEnd(part, 0, IsNameUnit) <= |part| && slash == SkipSpace(part, name)
    ensures slash < |part| && part[slash] == SLASH
    ensures
      var start := SkipSpace(part, slash + 1);
      var end := RunEnd(part, start, IsNameUnit);
      && IsToken(part[..name]) && IsToken(part[start..end])
      && (end < |part| ==>
            var semicolon := SkipSpace(part, end);
            semicolon < |part| && part[semicolon] == SEMICOLON && HasParameterText(part[semicolon + 1..]))
  {
    hide IsToken, ReadQ, Pieces, RunEnd, SkipSpace, HasParameterText, IsNameUnit, IsSpace;
  }

  /** What it reads as. */
  lemma AcceptedEntryIs(part: Text, index: nat, name: nat, start: nat, end: nat)
    requires ParseEntry(part, index).Ok?
    requires name == RunEnd(part, 0, IsNameUnit) <= |part| && SkipSpace(part, name) < |part|
    requires start == SkipSpace(part, SkipSpace(part, name) + 1) <= |part| && end == RunEnd(part, start, IsNameUnit) <= |part|
    ensures
      var e := ParseEntry(part, index).value;
      e.methodName == part[..name] && e.intent == part[start..end] && Ok(e.q) == ReadQ(Pieces(part[end..], SEMICOLON))
  {
    hide IsToken, ReadQ, Pieces, RunEnd, SkipSpace, HasParameterText, IsNameUnit, IsSpace;
  }

  lemma EntryIsSpelled(part: Text, name: nat, slash: nat, start: nat, end: nat)
    requires name <= slash < start <= end <= |part| && part[slash] == SLASH
    requires SkipSpace(part, name) == slash && SkipSpace(part, slash + 1) == start
    requires IsToken(part[..name]) && IsToken(part[start..end])
    requires end < |part| ==>
               var semicolon := SkipSpace(part, end);
               semicolon < |part| && part[semicolon] == SEMICOLON && HasParameterText(part[semicolon + 1..])
    ensures SpellsEntry(part, part[..name], part[name..slash], part[slash + 1..start], part[start..end], part[end..])
  {
    hide IsSpace, IsToken, SkipSpace;
    FourParts(part, name, slash, start);
    assert part[start..] == part[start..end] + part[end..];
    if end < |part| {
      SkipSpaceFrom(part, end);
      assert HasParameterText(part[SkipSpace(part, end) + 1..]);
    }
  }

  lemma SkipSpaceFrom(t: Text, i: nat)
    requires i <= |t|
    ensures SkipSpace(t[i..], 0) == SkipSpace(t, i) - i
  {
    hide IsSpace;
    var end := SkipSpace(t, i);
    SkipSpaceIs(t[i..], 0, end - i);
  }

  // ---- A header -----------------------------------------------------------------------

  /** A member of the list: nothing but white space, or an entry. */
  datatype Member = Blank(space: Text) | Listed(preference: Preference)

  function MemberText(m: Member): Text {
    match m
    case Blank(space) => space
    case Listed(w) => PreferenceText(w)
  }

  function MemberTexts(ms: seq<Member>): (texts: seq<Text>)
    ensures |texts| == |ms|
  {
    seq(|ms|, k requires 0 <= k < |ms| => MemberText(ms[k]))
  }

  predicate IsMember(m: Member) {
    match m
    case Blank(space) => All(IsSpace, space)
    case Listed(w) => IsPreference(w)
  }

  predicate AllMembers(ms: seq<Member>) {
    forall k | 0 <= k < |ms| :: IsMember(ms[k])
  }

  /** The entries a list stands for, numbered in order; empty members count for nothing. */
  function EntriesOf(ms: seq<Member>, index: nat): seq<Entry> {
    if ms == [] then []
    else
      match ms[0]
      case Blank(_) => EntriesOf(ms[1..], index)
      case Listed(w) => [Entry(w.name, w.intent, WeightOf(w.params), index)] + EntriesOf(ms[1..], index + 1)
  }

  function ListedCores(ms: seq<Member>): seq<Text> {
    if ms == [] then []
    else if ms[0].Blank? then ListedCores(ms[1..])
    else [Core(ms[0].preference)] + ListedCores(ms[1..])
  }

  predicate AllWeighed(ms: seq<Member>) {
    forall k | 0 <= k < |ms| && ms[k].Listed? :: AllQsValid(ms[k].preference.params)
  }

  lemma {:induction false} JoinedEnds(texts: seq<Text>, separator: Unit)
    requires texts != [] && texts[|texts| - 1] != []
    ensures
      var t, last := Joined(texts, separator), texts[|texts| - 1];
      t != [] && t[|t| - 1] == last[|last| - 1]
    decreases |texts|
  {
    if |texts| > 1 {
      JoinedEnds(texts[1..], separator);
    }
  }

  lemma LastParamEnds(p: Param)
    requires IsParam(p) && p.trail == []
    ensures var t := ParamText(p); t != [] && t[|t| - 1] == p.value[|p.value| - 1] && !IsSpace(t[|t| - 1])
  {
    assert IsValueUnit(p.value[|p.value| - 1]);
    hide IsParam;
  }

  lemma TailEnds(gap: Text, ps: seq<Param>)
    requires ps != [] && IsParam(ps[|ps| - 1]) && ps[|ps| - 1].trail == []
    ensures var t := Tail(gap, ps); t != [] && !IsSpace(t[|t| - 1])
  {
    hide IsParam, ParamText, IsSpace;
    LastParamEnds(ps[|ps| - 1]);
    JoinedEnds([gap] + ParamTexts(ps), SEMICOLON);
  }

  lemma CoreIsTrimmed(w: Preference)
    requires IsPreference(w)
    ensures Trimmed(Core(w))
  {
    hide Core, Tail, IsParam, IsToken, IsSpace;
    CorePlaces(w);
    TokenUnits(w.name);
    TokenUnits(w.intent);
    var t := Core(w);
    assert IsPlainUnit(w.name[0]) && IsPlainUnit(w.intent[|w.intent| - 1]);
    if w.params == [] {
      NoTail(w.gap);
    } else {
      TailEnds(w.gap, w.params);
      var tail := Tail(w.gap, w.params);
      assert t[|t| - |tail|..] == tail;
      assert t[|t| - 1] == tail[|tail| - 1];
    }
  }

  predicate NoComma(u: Unit) { u != COMMA }

  lemma TailHasNoComma(gap: Text, ps: seq<Param>)
    requires All(IsBlank, gap) && forall k | 0 <= k < |ps| :: IsParam(ps[k])
    ensures All(NoComma, Tail(gap, ps))
  {
    if ps != [] {
      var texts := [gap] + ParamTexts(ps);
      hide IsParam, ParamText, IsLineEnd;
      forall k | 0 <= k < |texts|
        ensures All(NoComma, texts[k])
      {
        if k > 0 {
          ParamTextUnits(ps[k - 1]);
        } else {
          BlankUnits();
        }
      }
      JoinedAll(NoComma, texts, SEMICOLON);
    }
  }

  lemma MemberHasNoComma(m: Member)
    requires IsMember(m)
    ensures All(NoComma, MemberText(m))
  {
    assert forall u | IsSpace(u) || IsPlainUnit(u) :: NoComma(u) by {
      assert !IsSpace(COMMA);
    }
    hide IsSpace, IsToken, Tail, IsParam;
    if m.Listed? {
      var w := m.preference;
      TokenUnits(w.name);
      TokenUnits(w.intent);
      TailHasNoComma(w.gap, w.params);
      assert All(NoComma, w.lead) && All(NoComma, w.before) && All(NoComma, w.after) && All(NoComma, w.trail);
      assert All(NoComma, w.name) && All(NoComma, w.intent) && All(NoComma, [SLASH]);
      hide NoComma, IsNameUnit, IsPlainUnit;
      AllConcat(NoComma, w.intent, Tail(w.gap, w.params));
      AllConcat(NoComma, w.after, w.intent + Tail(w.gap, w.params));
      AllConcat(NoComma, [SLASH], w.after + (w.intent + Tail(w.gap, w.params)));
      AllConcat(NoComma, w.before, [SLASH] + (w.after + (w.intent + Tail(w.gap, w.params))));
      AllConcat(NoComma, w.name, w.before + ([SLASH] + (w.after + (w.intent + Tail(w.gap, w.params)))));
      AllConcat(NoComma, Core(w), w.trail);
      AllConcat(NoComma, w.lead, Core(w) + w.trail);
    }
  }

  lemma MembersStep(ms: seq<Member>)
    requires ms != [] && AllMembers(ms)
    ensures MemberTexts(ms) == [MemberText(ms[0])] + MemberTexts(ms[1..])
    ensures IsMember(ms[0]) && AllMembers(ms[1..])
  {
    hide MemberText, IsMember;
  }

  lemma {:induction false} MembersFill(ms: seq<Member>)
    requires AllMembers(ms)
    ensures Filled(MemberTexts(ms)) == ListedCores(ms)
    decreases |ms|
  {
    if ms != [] {
      hide Filled, MemberTexts, AllMembers, IsPreference, Core, Trim, IsSpace, Trimmed;
      MembersStep(ms);
      MembersFill(ms[1..]);
      match ms[0]
      case Blank(space) => FilledBlank(space, MemberTexts(ms[1..]));
      case Listed(w) =>
        CoreIsTrimmed(w);
        PreferenceTrims(w);
        FilledFirst(PreferenceText(w), MemberTexts(ms[1..]));
    }
  }

  lemma PreferenceTrims(w: Preference)
    requires IsPreference(w)
    ensures Trim(PreferenceText(w)) == Core(w) && Core(w) != []
  {
    CoreIsTrimmed(w);
    hide Core, Trim, IsSpace;
    TrimIs(w.lead, Core(w), w.trail);
  }

  lemma WeighedStep(ms: seq<Member>)
    requires ms != []
    ensures AllWeighed(ms) <==> (ms[0].Listed? ==> AllQsValid(ms[0].preference.params)) && AllWeighed(ms[1..])
  {
    hide AllQsValid;
    assert forall k | 0 < k < |ms| :: ms[k] == ms[1..][k - 1];
  }

  lemma {:induction false} MembersParse(ms: seq<Member>, index: nat)
    requires AllMembers(ms)
    ensures ParseEntries(ListedCores(ms), index) == if AllWeighed(ms) then Ok(EntriesOf(ms, index)) else Err(InvalidQ)
    decreases |ms|
  {
    if ms != [] {
      hide AllMembers, IsPreference, Core, ParseEntry, AllWeighed, AllQsValid, WeightOf, MemberTexts;
      MembersStep(ms);
      WeighedStep(ms);
      match ms[0]
      case Blank(_) => MembersParse(ms[1..], index);
      case Listed(w) =>
        PreferenceReads(w, index);
        MembersParse(ms[1..], index + 1);
    }
  }

  lemma {:induction false} NothingListed(ms: seq<Member>)
    ensures ListedCores(ms) == [] <==> forall k | 0 <= k < |ms| :: ms[k].Blank?
    decreases |ms|
  {
    if ms != [] {
      NothingListed(ms[1..]);
      assert forall k | 0 < k < |ms| :: ms[k] == ms[1..][k - 1];
    }
  }

  /** A header reads as its entries in order, each with the weight of its last `q`, however it is spaced;
      it is refused exactly if it lists none or has an invalid `q`. */
  lemma HandwrittenHeaderReads(ms: seq<Member>)
    requires ms != [] && AllMembers(ms)
    ensures Parse(Joined(MemberTexts(ms), COMMA))
         == if forall k | 0 <= k < |ms| :: ms[k].Blank? then Err(EmptyHeader)
            else if AllWeighed(ms) then Ok(EntriesOf(ms, 0)) else Err(InvalidQ)
  {
    hide IsMember, MemberText, Split, Filled, ListedCores, ParseEntries, Joined, AllWeighed, EntriesOf;
    var texts := MemberTexts(ms);
    forall k | 0 <= k < |texts|
      ensures Lacks(texts[k], COMMA)
    {
      MemberHasNoComma(ms[k]);
    }
    SplitJoined(texts, COMMA);
    MembersFill(ms);
    MembersParse(ms, 0);
    NothingListed(ms);
  }
}
