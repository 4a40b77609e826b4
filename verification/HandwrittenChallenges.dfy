/** Challenges as others may write them (sections 5.6.4 and 11.2 of RFC 9110): any white space and commas
    between parameters, white space around `=`, unquoted values, and every way to write a quoted one. */
module HandwrittenChallenges {
  import opened Basics
  import opened Text
  import opened AuthScanners
  import opened ChallengeCodec
  import opened SchemeScan
  import opened ParameterRoundTrip
  import opened ChallengeRoundTrip

  // ---- Quoted text ---------------------------------------------------------------

  /** One unit of a quoted value: as it is, after a backslash, or by its number. */
  datatype Piece = Plain(u: Unit) | Slashed(u: Unit) | Wide(u: Unit, upper: bool)

  /** A hexadecimal digit in either case. */
  function DigitText(v: nat, upper: bool): (u: Unit)
    requires v < 16
    ensures IsHexDigit(u) && HexDigitValue(u) == v
  {
    if v < 10 then 0x30 + v else (if upper then 0x41 else 0x61) + (v - 10)
  }

  function HexText(u: Unit, upper: bool): Text {
    [DigitText(u / 4096, upper), DigitText(u / 256 % 16, upper), DigitText(u / 16 % 16, upper), DigitText(u % 16, upper)]
  }

  function PieceText(p: Piece): Text {
    match p
    case Plain(u) => [u]
    case Slashed(u) => [BACKSLASH, u]
    case Wide(u, upper) => [BACKSLASH, LOWER_U] + HexText(u, upper)
  }

  function PiecesText(ps: seq<Piece>): Text {
    if ps == [] then [] else PieceText(ps[0]) + PiecesText(ps[1..])
  }

  function Meaning(ps: seq<Piece>): (t: Text)
    ensures |t| == |ps|
  {
    seq(|ps|, i requires 0 <= i < |ps| => ps[i].u)
  }

  predicate FourHexDigits(t: Text) {
    |t| >= 4 && IsHexDigit(t[0]) && IsHexDigit(t[1]) && IsHexDigit(t[2]) && IsHexDigit(t[3])
  }

  /** Quotes and backslashes are escaped, and no escaped `u` reads as a number. */
  predicate WellQuoted(ps: seq<Piece>) {
    ps == [] ||
    (WellQuoted(ps[1..]) &&
     match ps[0]
     case Plain(u) => u != QUOTE && u != BACKSLASH
     case Slashed(u) => u == LOWER_U ==> !FourHexDigits(PiecesText(ps[1..]))
     case Wide(_, _) => true)
  }

  /** No hexadecimal digit follows. */
  predicate Stops(input: Text, i: nat) {
    i >= |input| || !IsHexDigit(input[i])
  }

  lemma HexTextReads(input: Text, i: nat, u: Unit, upper: bool)
    requires At(input, i, HexText(u, upper))
    ensures HexAt(input, i) && HexValue(input, i) == u
  {
    hide DigitText, HexDigitValue, IsHexDigit;
    var hex := HexText(u, upper);
    assert input[i + 0] == hex[0] && input[i + 1] == hex[1] && input[i + 2] == hex[2] && input[i + 3] == hex[3];
    HexDigitsAddUp(u);
  }

  lemma NoHexBeforeStop(input: Text, i: nat, t: Text)
    requires At(input, i, t) && Stops(input, i + |t|) && !FourHexDigits(t)
    ensures !HexAt(input, i)
  {
    assert forall k :: 0 <= k < |t| ==> input[i + k] == t[k];
  }

  lemma UnquoteOnePiece(input: Text, i: nat, p: Piece)
    requires At(input, i, PieceText(p))
    requires p.Plain? ==> p.u != QUOTE && p.u != BACKSLASH
    requires p.Slashed? && p.u == LOWER_U ==> !HexAt(input, i + 2)
    ensures Unquote(input, i) == Prepend([p.u], Unquote(input, i + |PieceText(p)|))
  {
    var t := PieceText(p);
    assert input[i + 0] == t[0];
    match p
    case Plain(_) =>
    case Slashed(_) => assert input[i + 1] == t[1];
    case Wide(u, upper) =>
      assert input[i + 1] == t[1];
      AtSplit(input, i, [BACKSLASH, LOWER_U], HexText(u, upper));
      hide HexText, HexValue;
      HexTextReads(input, i + 2, u, upper);
  }

  lemma PrependTwice(a: Text, b: Text, r: Result<Read, Error>)
    ensures Prepend(a, Prepend(b, r)) == Prepend(a + b, r)
  {
    if r.Ok? {
      assert a + (b + r.value.value) == a + b + r.value.value;
    }
  }

  lemma PrependNothing(r: Result<Read, Error>)
    ensures Prepend([], r) == r
  {
    if r.Ok? {
      assert [] + r.value.value == r.value.value;
    }
  }

  lemma PiecesStep(input: Text, i: nat, ps: seq<Piece>)
    requires ps != [] && At(input, i, PiecesText(ps))
    ensures
      var next := i + |PieceText(ps[0])|;
      && next <= |input| && i + |PiecesText(ps)| == next + |PiecesText(ps[1..])|
      && At(input, i, PieceText(ps[0])) && At(input, next, PiecesText(ps[1..]))
  {
    hide At, PieceText;
    AtSplit(input, i, PieceText(ps[0]), PiecesText(ps[1..]));
    AtFits(input, i, PieceText(ps[0]));
  }

  lemma QuotedStep(ps: seq<Piece>)
    requires ps != [] && WellQuoted(ps)
    ensures WellQuoted(ps[1..])
    ensures ps[0].Plain? ==> ps[0].u != QUOTE && ps[0].u != BACKSLASH
    ensures ps[0].Slashed? ==>
              |PieceText(ps[0])| == 2 && (ps[0].u == LOWER_U ==> !FourHexDigits(PiecesText(ps[1..])))
    ensures Meaning(ps) == [ps[0].u] + Meaning(ps[1..])
  {
    hide PiecesText, FourHexDigits, HexText;
  }

  lemma FirstPiece(input: Text, i: nat, ps: seq<Piece>)
    requires ps != [] && WellQuoted(ps) && At(input, i, PiecesText(ps)) && Stops(input, i + |PiecesText(ps)|)
    ensures i + |PieceText(ps[0])| <= |input|
    ensures Unquote(input, i) == Prepend([ps[0].u], Unquote(input, i + |PieceText(ps[0])|))
  {
    hide Unquote, Prepend, At, PieceText, PiecesText, HexAt, WellQuoted, Stops, FourHexDigits, Meaning;
    PiecesStep(input, i, ps);
    QuotedStep(ps);
    if ps[0].Slashed? && ps[0].u == LOWER_U {
      NoHexBeforeStop(input, i + 2, PiecesText(ps[1..]));
    }
    UnquoteOnePiece(input, i, ps[0]);
  }

  lemma AtFits(input: Text, i: nat, t: Text)
    requires At(input, i, t)
    ensures i + |t| <= |input|
  {
  }

  /** Whatever follows, quoted units read as what they mean. */
  lemma {:induction false} UnquotePieces(input: Text, i: nat, ps: seq<Piece>)
    requires WellQuoted(ps) && At(input, i, PiecesText(ps)) && Stops(input, i + |PiecesText(ps)|)
    ensures i + |PiecesText(ps)| <= |input|
    ensures Unquote(input, i) == Prepend(Meaning(ps), Unquote(input, i + |PiecesText(ps)|))
    decreases |ps|
  {
    hide Unquote, Prepend, At, PieceText, PiecesText, WellQuoted, Stops, Meaning;
    AtFits(input, i, PiecesText(ps));
    if ps == [] {
      NoPieces();
      PrependNothing(Unquote(input, i));
    } else {
      PiecesStep(input, i, ps);
      QuotedStep(ps);
      FirstPiece(input, i, ps);
      UnquotePieces(input, i + |PieceText(ps[0])|, ps[1..]);
      PrependTwice([ps[0].u], Meaning(ps[1..]), Unquote(input, i + |PiecesText(ps)|));
    }
  }

  lemma NoPieces()
    ensures PiecesText([]) == [] && Meaning([]) == []
  {
  }

  // ---- One parameter -------------------------------------------------------------

  /** A value: quoted, or a text up to a comma with white space after it. */
  datatype Value = Quoted(pieces: seq<Piece>) | Unquoted(text: Text, trail: Text)

  /** A parameter with all that may stand before and within it. */
  datatype Form = Form(lead: Text, name: Text, before: Text, after: Text, value: Value)

  function ValueText(v: Value): Text {
    match v
    case Quoted(pieces) => [QUOTE] + (PiecesText(pieces) + [QUOTE])
    case Unquoted(text, trail) => text + trail
  }

  function ValueOf(v: Value): Text {
    match v
    case Quoted(pieces) => Meaning(pieces)
    case Unquoted(text, _) => text
  }

  function Head(f: Form): Text {
    f.lead + (f.name + (f.before + ([EQUALS] + f.after)))
  }

  function FormText(f: Form): Text {
    Head(f) + ValueText(f.value)
  }

  predicate WellFormedHead(f: Form) {
    All(IsSeparator, f.lead) && IsKeyName(f.name) && All(IsSpace, f.before) && All(IsSpace, f.after)
  }

  predicate WellFormedValue(v: Value) {
    match v
    case Quoted(pieces) => WellQuoted(pieces)
    case Unquoted(text, trail) =>
      && All(NotComma, text) && All(IsSpace, trail)
      && if text == [] then trail == [] else !IsSpace(text[0]) && text[0] != QUOTE && !IsSpace(text[|text| - 1])
  }

  lemma RunAt(kind: Unit -> bool, input: Text, i: nat, t: Text)
    requires At(input, i, t) && All(kind, t)
    ensures forall k :: i <= k < i + |t| ==> kind(input[k])
  {
    forall k | i <= k < i + |t|
      ensures kind(input[k])
    {
      assert input[i + (k - i)] == t[k - i];
    }
  }

  lemma SkipsRun(kind: Unit -> bool, input: Text, i: nat, t: Text)
    requires At(input, i, t) && All(kind, t)
    requires i + |t| < |input| ==> !kind(input[i + |t|])
    ensures SkipWhile(kind, input, i) == i + |t|
  {
    RunAt(kind, input, i, t);
    SkipWhileIs(kind, input, i, i + |t|);
  }

  lemma AfterName(input: Text, i: nat, before: Text)
    requires At(input, i, before) && All(IsSpace, before) && i + |before| < |input| && input[i + |before|] == EQUALS
    ensures i < |input| && !IsKeyUnit(input[i])
  {
    if before != [] {
      assert input[i + 0] == before[0];
    }
  }

  /** Where the parts of a parameter stand. */
  lemma HeadParts(input: Text, p: nat, f: Form)
    requires At(input, p, Head(f))
    ensures
      var i := p + |f.lead|;
      var equals := i + |f.name| + |f.before|;
      && At(input, p, f.lead) && At(input, i, f.name) && At(input, i + |f.name|, f.before)
      && equals < |input| && input[equals] == EQUALS && At(input, equals + 1, f.after)
      && p + |Head(f)| == equals + 1 + |f.after|
  {
    hide At;
    AtSplit(input, p, f.lead, f.name + (f.before + ([EQUALS] + f.after)));
    AtSplit(input, p + |f.lead|, f.name, f.before + ([EQUALS] + f.after));
    AtSplit(input, p + |f.lead| + |f.name|, f.before, [EQUALS] + f.after);
    AtSplit(input, p + |f.lead| + |f.name| + |f.before|, [EQUALS], f.after);
    UnitAt(input, p + |f.lead| + |f.name| + |f.before|, EQUALS);
  }

  lemma HeadScans(input: Text, p: nat, f: Form)
    requires WellFormedHead(f) && At(input, p, Head(f))
    requires p + |Head(f)| < |input| ==> !IsSpace(input[p + |Head(f)|])
    ensures
      var i := p + |f.lead|;
      var end := i + |f.name|;
      var equals := end + |f.before|;
      && SkipWhile(IsSeparator, input, p) == i && i < end < |input|
      && SkipWhile(IsKeyUnit, input, i) == end && input[i..end] == f.name
      && SkipWhile(IsSpace, input, end) == equals && equals < |input| && input[equals] == EQUALS
      && SkipWhile(IsSpace, input, equals + 1) == p + |Head(f)| <= |input|
  {
    var i := p + |f.lead|;
    var end := i + |f.name|;
    var equals := end + |f.before|;
    HeadParts(input, p, f);
    NameAt(input, i, f.name);
    NameUnits(f.name);
    assert input[i + 0] == f.name[0];
    AfterName(input, end, f.before);
    assert At(input, equals + 1, f.after);
    hide Head, IsSpace, IsKeyUnit, IsSeparator, IsKeyName;
    SkipsRun(IsSeparator, input, p, f.lead);
    SkipWhileIs(IsKeyUnit, input, i, end);
    SkipsRun(IsSpace, input, end, f.before);
    SkipsRun(IsSpace, input, equals + 1, f.after);
  }

  lemma HeadReads(input: Text, p: nat, f: Form)
    requires WellFormedHead(f) && At(input, p, Head(f))
    requires p + |Head(f)| < |input| ==> !IsSpace(input[p + |Head(f)|])
    ensures p + |Head(f)| <= |input|
    ensures
      var value := ReadValue(input, p + |Head(f)|);
      ReadParameter(input, p)
      == if value.Err? then Failed(value.error) else Parameter(Lower(f.name), value.value.value, value.value.next)
  {
    hide ReadParameter, SkipWhile, ReadValue, Head, WellFormedHead, At, Lower, IsSpace;
    HeadScans(input, p, f);
    var i := p + |f.lead|;
    TurnIs(input, p, i, i + |f.name|, i + |f.name| + |f.before|, p + |Head(f)|);
  }

  lemma TurnIs(input: Text, p: nat, i: nat, end: nat, equals: nat, start: nat)
    requires p <= i < end <= equals < |input| && equals < start <= |input| && input[equals] == EQUALS
    requires SkipWhile(IsSeparator, input, p) == i && SkipWhile(IsKeyUnit, input, i) == end
    requires SkipWhile(IsSpace, input, end) == equals && SkipWhile(IsSpace, input, equals + 1) == start
    ensures
      var value := ReadValue(input, start);
      ReadParameter(input, p)
      == if value.Err? then Failed(value.error) else Parameter(Lower(input[i..end]), value.value.value, value.value.next)
  {
    hide SkipWhile, ReadValue, Lower;
  }

  lemma TrimsTrail(text: Text, trail: Text)
    requires WellFormedValue(Unquoted(text, trail))
    ensures Trim(text + trail) == text
  {
    var t := text + trail;
    if text != [] {
      SkipWhileIs(IsSpace, t, 0, 0);
      BoundaryIs(t, |t|, |text| - 1);
    }
  }

  lemma ValueReads(input: Text, i: nat, v: Value)
    requires WellFormedValue(v) && At(input, i, ValueText(v))
    requires v.Unquoted? ==> EndsAt(input, i + |ValueText(v)|)
    ensures i + |ValueText(v)| <= |input|
    ensures ReadValue(input, i) == Ok(Read(ValueOf(v), i + |ValueText(v)|))
    ensures i < |input| ==> !IsSpace(input[i])
  {
    match v
    case Quoted(pieces) => QuotedReads(input, i, pieces);
    case Unquoted(text, trail) => UnquotedReads(input, i, text, trail);
  }

  lemma QuotedReads(input: Text, i: nat, pieces: seq<Piece>)
    requires WellQuoted(pieces) && At(input, i, [QUOTE] + (PiecesText(pieces) + [QUOTE]))
    ensures i + |PiecesText(pieces)| + 2 <= |input| && input[i] == QUOTE
    ensures ReadValue(input, i) == Ok(Read(Meaning(pieces), i + |PiecesText(pieces)| + 2))
  {
    hide WellQuoted, PiecesText, Unquote, At, Stops;
    var end := i + 1 + |PiecesText(pieces)|;
    AtSplit(input, i, [QUOTE], PiecesText(pieces) + [QUOTE]);
    UnitAt(input, i, QUOTE);
    AtSplit(input, i + 1, PiecesText(pieces), [QUOTE]);
    UnitAt(input, end, QUOTE);
    QuoteStops(input, end);
    UnquotePieces(input, i + 1, pieces);
    UnquoteEnds(input, end);
    assert Meaning(pieces) + [] == Meaning(pieces);
  }

  lemma QuoteStops(input: Text, i: nat)
    requires i < |input| && (input[i] == QUOTE || input[i] == BACKSLASH)
    ensures Stops(input, i) && !IsSpace(input[i])
  {
  }

  lemma UnquotedReads(input: Text, i: nat, text: Text, trail: Text)
    requires WellFormedValue(Unquoted(text, trail)) && At(input, i, text + trail) && EndsAt(input, i + |text + trail|)
    ensures i + |text + trail| <= |input|
    ensures ReadValue(input, i) == Ok(Read(text, i + |text + trail|))
    ensures i < |input| ==> !IsSpace(input[i])
  {
    var t := text + trail;
    assert t != [] ==> t[0] == text[0] && input[i + 0] == t[0];
    assert All(NotComma, t) by {
      assert !IsSpace(COMMA);
    }
    hide IsSpace, Trim;
    SkipsRun(NotComma, input, i, t);
    assert input[i..i + |t|] == t;
    TrimsTrail(text, trail);
  }

  predicate WellFormedForm(f: Form) {
    WellFormedHead(f) && WellFormedValue(f.value)
  }

  /** A parameter, however it is written, reads as its lower-case name and what its value means. */
  lemma FormReads(input: Text, p: nat, f: Form)
    requires WellFormedForm(f) && At(input, p, FormText(f))
    requires f.value.Unquoted? ==> EndsAt(input, p + |FormText(f)|)
    ensures ReadParameter(input, p) == Parameter(Lower(f.name), ValueOf(f.value), p + |FormText(f)|)
  {
    hide At, Head, ValueText, WellFormedHead, WellFormedValue, ReadParameter, ReadValue, EndsAt, ValueOf, IsSpace;
    AtSplit(input, p, Head(f), ValueText(f.value));
    ValueReads(input, p + |Head(f)|, f.value);
    HeadReads(input, p, f);
  }

  // ---- All parameters ------------------------------------------------------------

  function FormsText(fs: seq<Form>): Text {
    if fs == [] then [] else FormText(fs[0]) + FormsText(fs[1..])
  }

  function PairsOf(fs: seq<Form>): (params: seq<(Text, Text)>)
    ensures |params| == |fs|
  {
    seq(|fs|, i requires 0 <= i < |fs| => (fs[i].name, ValueOf(fs[i].value)))
  }

  /** A comma follows every unquoted value but the last. */
  predicate WellFormedForms(fs: seq<Form>) {
    && (forall k :: 0 <= k < |fs| ==> WellFormedForm(fs[k]))
    && (forall k :: 0 <= k < |fs| - 1 && fs[k].value.Unquoted? ==> fs[k + 1].lead != [] && fs[k + 1].lead[0] == COMMA)
  }

  /** What follows the parameters ends the last value. */
  predicate LastEnds(input: Text, fs: seq<Form>, end: nat) {
    fs != [] && fs[|fs| - 1].value.Unquoted? ==> EndsAt(input, end)
  }

  lemma FormsStep(fs: seq<Form>)
    requires fs != [] && WellFormedForms(fs)
    ensures WellFormedForm(fs[0]) && WellFormedForms(fs[1..])
    ensures Lowered(PairsOf(fs)) == [(Lower(fs[0].name), ValueOf(fs[0].value))] + Lowered(PairsOf(fs[1..]))
    ensures FormsText(fs) == FormText(fs[0]) + FormsText(fs[1..])
  {
    hide WellFormedForm, Lower, ValueOf, FormText;
    var rest := fs[1..];
    assert forall k :: 0 <= k < |rest| ==> rest[k] == fs[k + 1];
    assert forall k :: 0 <= k < |rest| ==> PairsOf(rest)[k] == PairsOf(fs)[k + 1];
  }

  lemma NextLeads(input: Text, p: nat, fs: seq<Form>)
    requires |fs| > 1 && WellFormedForms(fs) && At(input, p, FormsText(fs[1..])) && fs[0].value.Unquoted?
    ensures EndsAt(input, p)
  {
    var next := fs[1];
    assert fs[1..][0] == next && next.lead != [] && next.lead[0] == COMMA by {
      assert fs[0 + 1] == fs[1];
    }
    assert FormsText(fs[1..])[0] == next.lead[0];
    assert input[p + 0] == COMMA;
  }

  /** Parsing goes through the parameters, refuses a repeated name, and goes on after them. */
  lemma {:induction false} FormsParse(input: Text, p: nat, fs: seq<Form>, read: map<Text, Text>)
    requires WellFormedForms(fs) && At(input, p, FormsText(fs)) && LastEnds(input, fs, p + |FormsText(fs)|)
    ensures
      var l := Lowered(PairsOf(fs));
      ParseParams(input, p, read)
      == if AllFresh(l, read) then ParseParams(input, p + |FormsText(fs)|, AsMap(l, read)) else Err(DuplicateParameter)
    decreases |fs|
  {
    hide At, FormText, WellFormedForms, WellFormedForm, EndsAt, ValueOf, ReadParameter, PairsOf, Lowered, Lower;
    if fs == [] {
      assert Lowered(PairsOf(fs)) == [];
    } else {
      var f, rest := fs[0], fs[1..];
      var next := p + |FormText(f)|;
      FormsStep(fs);
      AtSplit(input, p, FormText(f), FormsText(rest));
      if f.value.Unquoted? && |fs| > 1 {
        NextLeads(input, next, fs);
      }
      FormReads(input, p, f);
      var l, key := Lowered(PairsOf(fs)), Lower(f.name);
      assert l[0] == (key, ValueOf(f.value)) && l[1..] == Lowered(PairsOf(rest));
      if key !in read {
        FormsParse(input, next, rest, read[key := ValueOf(f.value)]);
      }
    }
  }

  /** Parameters in any of these forms parse to what they mean: exactly those pairs, under lower-case
      names, unless one is repeated. */
  lemma HandwrittenParametersParse(fs: seq<Form>, trail: Text)
    requires WellFormedForms(fs) && All(IsSeparator, trail)
    requires fs != [] && fs[|fs| - 1].value.Unquoted? && trail != [] ==> trail[0] == COMMA
    ensures ParseParams(FormsText(fs) + trail, 0, map[]) == Parsed(PairsOf(fs), map[])
  {
    hide FormsText, WellFormedForms, AllFresh, AsMap, Lowered, PairsOf, IsSeparator, ParseParams, SkipWhile;
    var input := FormsText(fs) + trail;
    var end := |FormsText(fs)|;
    assert At(input, 0, FormsText(fs)) && At(input, end, trail);
    FormsParse(input, 0, fs, map[]);
    SkipsRun(IsSeparator, input, end, trail);
    EndsThere(input, end, AsMap(Lowered(PairsOf(fs)), map[]));
  }

  lemma EndsThere(input: Text, p: nat, read: map<Text, Text>)
    requires p <= |input| && SkipWhile(IsSeparator, input, p) == |input|
    ensures ParseParams(input, p, read) == Ok(read)
  {
  }

  // ---- Errors --------------------------------------------------------------------

  /** A quoted value without its closing quote is refused, wherever the text ends, even within an escape. */
  lemma UnterminatedQuotesAreRefused(fs: seq<Form>, f: Form, pieces: seq<Piece>, slash: bool)
    requires WellFormedForms(fs) && WellFormedHead(f) && WellQuoted(pieces)
    requires fs != [] && fs[|fs| - 1].value.Unquoted? ==> f.lead != [] && f.lead[0] == COMMA
    requires DistinctKeys(PairsOf(fs))
    ensures
      var rest := PiecesText(pieces) + if slash then [BACKSLASH] else [];
      ParseParams(FormsText(fs) + (Head(f) + ([QUOTE] + rest)), 0, map[]) == Err(UnterminatedQuote)
  {
    hide FormsText, WellFormedForms, Head, WellFormedHead, WellQuoted, PiecesText, PairsOf, Lowered, AsMap, ParseParams,
         ReadParameter;
    var rest: Text := PiecesText(pieces) + if slash then [BACKSLASH] else [];
    var tail := Head(f) + ([QUOTE] + rest);
    var input := FormsText(fs) + tail;
    var p := |FormsText(fs)|;
    assert At(input, 0, FormsText(fs)) && At(input, p, tail);
    HeadBegins(f, [QUOTE] + rest);
    ReadsAfter(input, fs);
    OpenValue(input, p, f, pieces, slash);
    FailureEnds(input, p, AsMap(Lowered(PairsOf(fs)), map[]), UnterminatedQuote);
  }

  lemma OpenValue(input: Text, p: nat, f: Form, pieces: seq<Piece>, slash: bool)
    requires WellFormedHead(f) && WellQuoted(pieces)
    requires
      var rest: Text := PiecesText(pieces) + if slash then [BACKSLASH] else [];
      At(input, p, Head(f) + ([QUOTE] + rest)) && |input| == p + |Head(f)| + 1 + |rest|
    ensures p <= |input| && ReadParameter(input, p) == Failed(UnterminatedQuote)
  {
    hide Head, WellFormedHead, WellQuoted, PiecesText, Unquote, IsSpace, ReadParameter, At;
    var rest: Text := PiecesText(pieces) + if slash then [BACKSLASH] else [];
    var i := p + |Head(f)|;
    AtSplit(input, p, Head(f), [QUOTE] + rest);
    AtSplit(input, i, [QUOTE], rest);
    UnitAt(input, i, QUOTE);
    NeverCloses(input, i + 1, pieces, slash);
    QuoteStops(input, i);
    HeadReads(input, p, f);
  }

  lemma HeadBegins(f: Form, rest: Text)
    ensures f.lead != [] ==> Head(f) + rest != [] && (Head(f) + rest)[0] == f.lead[0]
  {
  }

  lemma FailureEnds(input: Text, p: nat, read: map<Text, Text>, error: Error)
    requires p <= |input| && ReadParameter(input, p) == Failed(error)
    ensures ParseParams(input, p, read) == Err(error)
  {
  }

  lemma NeverCloses(input: Text, i: nat, pieces: seq<Piece>, slash: bool)
    requires WellQuoted(pieces)
    requires At(input, i, PiecesText(pieces) + if slash then [BACKSLASH] else [])
    requires |input| == i + |PiecesText(pieces)| + if slash then 1 else 0
    ensures Unquote(input, i) == Err(UnterminatedQuote)
  {
    hide PiecesText, WellQuoted;
    AtSplit(input, i, PiecesText(pieces), if slash then [BACKSLASH] else []);
    if slash {
      UnitAt(input, i + |PiecesText(pieces)|, BACKSLASH);
    }
    UnquotePieces(input, i, pieces);
  }

  /** What follows parameters with distinct names decides. */
  lemma ReadsAfter(input: Text, fs: seq<Form>)
    requires WellFormedForms(fs) && At(input, 0, FormsText(fs)) && LastEnds(input, fs, |FormsText(fs)|)
    requires DistinctKeys(PairsOf(fs))
    ensures ParseParams(input, 0, map[]) == ParseParams(input, |FormsText(fs)|, AsMap(Lowered(PairsOf(fs)), map[]))
  {
    hide FormsText, WellFormedForms, At, LastEnds, AllFresh, AsMap, ParseParams, PairsOf, DistinctKeys, Lowered;
    DistinctAreFresh(PairsOf(fs));
    FormsParse(input, 0, fs, map[]);
  }

  lemma DistinctAreFresh(params: seq<(Text, Text)>)
    requires DistinctKeys(params)
    ensures AllFresh(Lowered(params), map[])
  {
    hide AllFresh, Lower;
    FreshIfDistinct(Lowered(params), map[]);
  }

  /** A parameter that does not begin with a name is refused. */
  lemma MalformedParametersAreRefused(fs: seq<Form>, lead: Text, rest: Text)
    requires WellFormedForms(fs) && All(IsSeparator, lead)
    requires rest != [] && !IsSeparator(rest[0]) && !IsKeyUnit(rest[0])
    requires fs != [] && fs[|fs| - 1].value.Unquoted? ==> lead != [] && lead[0] == COMMA
    requires DistinctKeys(PairsOf(fs))
    ensures ParseParams(FormsText(fs) + (lead + rest), 0, map[]) == Err(MalformedParameter)
  {
    var tail := lead + rest;
    var input := FormsText(fs) + tail;
    var p := |FormsText(fs)|;
    assert At(input, 0, FormsText(fs)) && At(input, p, tail);
    assert lead != [] ==> tail[0] == lead[0];
    AtSplit(input, p, lead, rest);
    assert input[p + |lead| + 0] == rest[0];
    ReadsAfter(input, fs);
    hide FormsText, WellFormedForms, PairsOf, Lowered, AsMap, At, IsSeparator, IsKeyUnit;
    SkipsRun(IsSeparator, input, p, lead);
    SkipWhileIs(IsKeyUnit, input, p + |lead|, p + |lead|);
    hide SkipWhile, ParseParams;
    FailureEnds(input, p, AsMap(Lowered(PairsOf(fs)), map[]), MalformedParameter);
  }

  // ---- A challenge ---------------------------------------------------------------

  lemma FirstStart(value: Text)
    requires StartsWithScheme(value, 0)
    ensures SchemeStarts(value) != [] && SchemeStarts(value)[0] == 0
  {
    assert Lower(value[0..|PAYMENT|])[0] == PAYMENT[0];
    assert value[0] != QUOTE;
  }

  lemma SchemeAtStart(scheme: Text, gap: Text, rest: Text)
    requires Lower(scheme) == PAYMENT && gap != [] && IsSpace(gap[0])
    ensures StartsWithScheme(scheme + gap + rest, 0)
  {
    var value := scheme + gap + rest;
    assert value[0..|PAYMENT|] == scheme;
    assert value[|PAYMENT|] == gap[0];
  }

  /** A Payment challenge in any of these forms deserializes as its parameters say; one without any is
      no challenge. */
  lemma HandwrittenChallengeReads<R>(codec: Codec<R>, scheme: Text, gap: Text, fs: seq<Form>, trail: Text)
    requires Lower(scheme) == PAYMENT && gap != [] && All(IsSpace, gap)
    requires WellFormedForms(fs) && All(IsSeparator, trail)
    requires if fs == [] then trail == [] else fs[0].lead == []
    requires fs != [] && fs[|fs| - 1].value.Unquoted? && trail != [] ==> trail[0] == COMMA
    ensures Deserialize(codec, scheme + gap + (FormsText(fs) + trail))
         == if fs == [] then Err(MissingScheme) else FromWritten(codec, Paid(scheme, PairsOf(fs)))
  {
    hide WellFormedForms, SchemeStarts, ParseParams, FromParams, Parsed, StartsWithScheme, IsSpace, FormsText, PairsOf,
         IsSeparator, SkipWhile;
    var rest := FormsText(fs) + trail;
    var value := scheme + gap + rest;
    SchemeAtStart(scheme, gap, rest);
    FirstStart(value);
    assert At(value, |scheme|, gap);
    if fs == [] {
      NoForms();
    } else {
      FirstOfForms(fs);
      assert rest[0] == FormsText(fs)[0] && value[|scheme| + |gap|] == rest[0];
    }
    SkipsRun(IsSpace, value, |scheme|, gap);
    assert value[|scheme| + |gap|..] == rest;
    HandwrittenParametersParse(fs, trail);
  }

  lemma NoForms()
    ensures FormsText([]) == []
  {
  }

  lemma FirstOfForms(fs: seq<Form>)
    requires fs != [] && WellFormedForms(fs) && fs[0].lead == []
    ensures FormsText(fs) != [] && !IsSpace(FormsText(fs)[0])
  {
    var f := fs[0];
    assert WellFormedForm(f);
    NameUnits(f.name);
    assert Head(f)[0] == f.name[0];
    assert FormText(f)[0] == Head(f)[0];
  }
}
