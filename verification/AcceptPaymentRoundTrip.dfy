/** Printed `Accept-Payment` headers read back (src/internal/AcceptPayment.ts:124-144, 291-383). */
module AcceptPaymentRoundTrip {
  import opened Basics
  import opened Text
  import opened PaymentRanking
  import opened AcceptPayment

  // ---- q-values -------------------------------------------------------------

  lemma TailStartIs(t: Text, kind: Unit -> bool, i: nat)
    requires i <= |t|
    requires forall k | i <= k < |t| :: kind(t[k])
    requires i > 0 ==> !kind(t[i - 1])
    ensures TailStart(t, kind) == i
  {
  }

  /** What is left of a fraction's digits once trailing zeros, and a fraction of nothing else, are gone. */
  function Shortened(a: Unit, b: Unit, c: Unit): Text {
    if c != ZERO then [ZERO, DOT, a, b, c]
    else if b != ZERO then [ZERO, DOT, a, b]
    else if a != ZERO then [ZERO, DOT, a]
    else [ZERO]
  }

  lemma TrimmingShortens(a: Unit, b: Unit, c: Unit)
    requires IsDigit(a) && IsDigit(b) && IsDigit(c)
    ensures TrimZeros(DropZeroFraction([ZERO, DOT, a, b, c])) == Shortened(a, b, c)
  {
    hide TailStart;
    var t := [ZERO, DOT, a, b, c];
    var zeros := if c != ZERO then 5 else if b != ZERO then 4 else if a != ZERO then 3 else 2;
    TailStartIs(t, IsZero, zeros);
    if zeros == 2 {
      assert t[..1] == [ZERO];
      TailStartIs([ZERO], IsDigit, 0);
    } else {
      TailStartIs(t, IsDigit, 2);
      assert t[..3] == [ZERO, DOT, a] && t[..4] == [ZERO, DOT, a, b];
    }
  }

  lemma FormattedDigits(q: nat)
    requires q < 1000
    ensures FormatQ(q) == Shortened(ZERO + q / 100, ZERO + q / 10 % 10, ZERO + q % 10)
  {
    hide TrimZeros, DropZeroFraction, Shortened;
    assert Fixed(q) == [ZERO, DOT, ZERO + q / 100, ZERO + q / 10 % 10, ZERO + q % 10];
    TrimmingShortens(ZERO + q / 100, ZERO + q / 10 % 10, ZERO + q % 10);
  }

  lemma ShortenedReads(a: Unit, b: Unit, c: Unit)
    requires IsDigit(a) && IsDigit(b) && IsDigit(c)
    ensures ParseHeaderQ(Shortened(a, b, c)) == Ok(100 * (a - ZERO) + 10 * (b - ZERO) + (c - ZERO))
  {
    var t := Shortened(a, b, c);
    assert forall k | 2 <= k < |t| :: t[k] == a || t[k] == b || t[k] == c;
  }

  /** `formatQ`'s trimming is undone by `parseHeaderQ`. */
  lemma FormattedQReadsBack(q: nat)
    requires q < 1000
    ensures ParseHeaderQ(FormatQ(q)) == Ok(q)
  {
    hide FormatQ, ParseHeaderQ, Shortened;
    FormattedDigits(q);
    ShortenedReads(ZERO + q / 100, ZERO + q / 10 % 10, ZERO + q % 10);
  }

  // ---- Plain text -----------------------------------------------------------

  /** Nothing the scanners of a header stop at. */
  predicate IsPlainUnit(u: Unit) { u != COMMA && !IsSpace(u) }

  predicate AllPlain(t: Text) {
    forall k | 0 <= k < |t| :: IsPlainUnit(t[k])
  }

  lemma PlainConcat(a: Text, b: Text)
    requires AllPlain(a) && AllPlain(b)
    ensures AllPlain(a + b)
  {
    hide IsPlainUnit;
  }

  lemma PlainUnits()
    ensures IsPlainUnit(SLASH) && IsPlainUnit(SEMICOLON) && IsPlainUnit(0x71) && IsPlainUnit(EQUALS)
    ensures !IsPlainUnit(COMMA) && IsSpace(SPACE)
  {
  }

  predicate IsNumberUnit(u: Unit) { IsDigit(u) || u == DOT }

  /** A printed weight: digits and a dot. */
  predicate AllNumber(t: Text) {
    forall k | 0 <= k < |t| :: IsNumberUnit(t[k])
  }

  lemma FormattedIsNumber(q: nat)
    requires q < 1000
    ensures FormatQ(q) != [] && AllNumber(FormatQ(q))
  {
    hide FormatQ;
    FormattedDigits(q);
  }

  lemma NumberIsPlain(t: Text)
    requires AllNumber(t)
    ensures AllPlain(t)
    ensures forall k | 0 <= k < |t| :: t[k] != SEMICOLON && NotLineEnd(t[k])
  {
    forall k | 0 <= k < |t| ensures IsPlainUnit(t[k]) && t[k] != SEMICOLON && NotLineEnd(t[k]) {
      assert IsNumberUnit(t[k]);
    }
  }

  // ---- Entries --------------------------------------------------------------

  predicate ValidEntry(e: Entry) {
    IsToken(e.methodName) && IsToken(e.intent) && e.q <= 1000
  }

  lemma TokenUnits(t: Text)
    requires IsToken(t)
    ensures t != [] && AllPlain(t) && forall k | 0 <= k < |t| :: IsNameUnit(t[k])
  {
    forall k | 0 <= k < |t| ensures IsPlainUnit(t[k]) && IsNameUnit(t[k]) {
      assert t[k] == STAR || IsTokenUnit(t[k]);
    }
  }

  function QText(q: nat): Text {
    if q == 1000 then [] else Q_PARAMETER + FormatQ(q)
  }

  lemma QTextIsPlain(q: nat)
    requires q <= 1000
    ensures AllPlain(QText(q))
    ensures q < 1000 ==> |QText(q)| > 3 && QText(q)[0] == SEMICOLON && QText(q)[1..] == [0x71, EQUALS] + FormatQ(q)
  {
    hide FormatQ, IsPlainUnit, IsNumberUnit;
    if q < 1000 {
      FormattedIsNumber(q);
      NumberIsPlain(FormatQ(q));
      PlainUnits();
      PlainConcat(Q_PARAMETER, FormatQ(q));
      assert QText(q)[1..] == Q_PARAMETER[1..] + FormatQ(q);
    }
  }

  lemma RenderedParts(e: Entry)
    ensures Render(e) == e.methodName + ([SLASH] + (e.intent + QText(e.q)))
  {
    hide FormatQ;
    var value := e.methodName + [SLASH] + e.intent;
    assert value == e.methodName + ([SLASH] + e.intent);
    if e.q == 1000 {
      assert e.intent + [] == e.intent;
    } else {
      Associate(e.methodName, [SLASH], e.intent, Q_PARAMETER, FormatQ(e.q));
    }
  }

  lemma Associate(a: Text, b: Text, c: Text, d: Text, e: Text)
    ensures a + b + c + d + e == a + (b + (c + (d + e)))
  {
  }

  lemma RenderedIsPlain(e: Entry)
    requires ValidEntry(e)
    ensures Render(e) != [] && AllPlain(Render(e))
  {
    hide FormatQ, IsPlainUnit, QText, Render, AllPlain;
    RenderedParts(e);
    TokenUnits(e.methodName);
    TokenUnits(e.intent);
    QTextIsPlain(e.q);
    PlainConcat(e.intent, QText(e.q));
    SlashIsPlain();
    PlainConcat([SLASH], e.intent + QText(e.q));
    PlainConcat(e.methodName, [SLASH] + (e.intent + QText(e.q)));
  }

  lemma SlashIsPlain()
    ensures AllPlain([SLASH])
  {
  }

  // ---- Scanning -------------------------------------------------------------

  lemma RunEndIs(t: Text, i: nat, kind: Unit -> bool, end: nat)
    requires i <= end <= |t|
    requires forall k | i <= k < end :: kind(t[k])
    requires end < |t| ==> !kind(t[end])
    ensures RunEnd(t, i, kind) == end
  {
  }

  lemma SkipSpaceStays(t: Text, i: nat)
    requires i <= |t| && (i < |t| ==> !IsSpace(t[i]))
    ensures SkipSpace(t, i) == i
  {
  }

  // ---- Splitting ------------------------------------------------------------

  lemma SplitFirst(a: Text, separator: Unit, b: Text)
    requires forall k | 0 <= k < |a| :: a[k] != separator
    ensures Split(a + [separator] + b, separator) == [a] + Split(b, separator)
  {
    var t := a + [separator] + b;
    var i := IndexOf(t, separator, 0);
    assert t[|a|] == separator;
    assert i == |a|;
    assert t[..i] == a && t[i + 1..] == b;
  }

  lemma SplitNone(a: Text, separator: Unit)
    requires forall k | 0 <= k < |a| :: a[k] != separator
    ensures Split(a, separator) == [a]
  {
  }

  /** White space before a plain text is trimmed off. */
  lemma TrimPlain(lead: Text, t: Text)
    requires lead == [] || lead == [SPACE]
    requires t != [] && AllPlain(t)
    ensures Trim(lead + t) == t
  {
    var whole := lead + t;
    assert IsPlainUnit(t[0]) && IsPlainUnit(t[|t| - 1]);
    assert whole[|lead|] == t[0];
    hide IsSpace;
    PlainUnits();
    assert SkipSpace(whole, 0) == |lead|;
    assert whole[|lead|..] == t;
    TailStartIs(t, IsSpace, |t|);
  }

  function Rendered(entries: seq<Entry>): seq<Text> {
    if entries == [] then [] else [Render(entries[0])] + Rendered(entries[1..])
  }

  lemma FilledFirst(first: Text, rest: seq<Text>)
    requires Trim(first) != []
    ensures Filled([first] + rest) == [Trim(first)] + Filled(rest)
  {
    assert ([first] + rest)[1..] == rest;
  }

  /** A printed list splits into its entries. */
  lemma {:induction false} SerializedSplits(lead: Text, entries: seq<Entry>)
    requires lead == [] || lead == [SPACE]
    requires entries != [] && forall e | e in entries :: ValidEntry(e)
    ensures Pieces(lead + Serialize(entries), COMMA) == Rendered(entries)
    decreases |entries|
  {
    hide Render, ValidEntry, Trim, Filled, Split, IsSpace, IsPlainUnit, AllPlain;
    assert entries[0] in entries;
    var first := Render(entries[0]);
    RenderedIsPlain(entries[0]);
    TrimPlain(lead, first);
    LeadHasNoComma(lead, first);
    if |entries| == 1 {
      SplitNone(lead + first, COMMA);
      FilledFirst(lead + first, []);
      assert [lead + first] + [] == [lead + first];
      assert Rendered(entries[1..]) == [];
      FilledNothing();
    } else {
      var rest := Serialize(entries[1..]);
      assert lead + Serialize(entries) == (lead + first) + [COMMA] + ([SPACE] + rest);
      SplitFirst(lead + first, COMMA, [SPACE] + rest);
      FilledFirst(lead + first, Split([SPACE] + rest, COMMA));
      assert forall e | e in entries[1..] :: e in entries;
      SerializedSplits([SPACE], entries[1..]);
    }
  }

  lemma FilledNothing()
    ensures Filled([]) == []
  {
  }

  lemma LeadHasNoComma(lead: Text, t: Text)
    requires lead == [] || lead == [SPACE]
    requires AllPlain(t)
    ensures forall k | 0 <= k < |lead + t| :: (lead + t)[k] != COMMA
  {
    hide IsSpace;
    assert forall k | 0 <= k < |t| :: IsPlainUnit(t[k]);
  }

  // ---- One entry ------------------------------------------------------------

  lemma ParameterReads(value: Text)
    requires value != [] && AllPlain(value)
    ensures Parameter([0x71, EQUALS] + value) == Some((Q_NAME, value))
  {
    var t := [0x71, EQUALS] + value;
    hide RunEnd, SkipSpace;
    assert forall k | 2 <= k < |t| :: t[k] == value[k - 2];
    assert !IsSpace(t[1]) && forall k | 2 <= k < |t| :: !IsSpace(t[k]) by {
      forall k | 2 <= k < |t| ensures !IsSpace(t[k]) { assert IsPlainUnit(value[k - 2]); }
    }
    assert IsParameterUnit(t[0]) && !IsParameterUnit(t[1]);
    hide IsSpace, IsParameterUnit;
    RunEndIs(t, 0, IsParameterUnit, 1);
    SkipSpaceStays(t, 1);
    SkipSpaceStays(t, 2);
    assert t[..1] == Q_NAME && t[2..] == value;
  }

  /** One parameter after its semicolon. */
  lemma OnePiece(parameter: Text)
    requires parameter != [] && AllPlain(parameter) && forall k | 0 <= k < |parameter| :: parameter[k] != SEMICOLON
    ensures Pieces([SEMICOLON] + parameter, SEMICOLON) == [parameter]
  {
    hide Split, Filled, Trim, AllPlain;
    SplitFirst([], SEMICOLON, parameter);
    SplitNone(parameter, SEMICOLON);
    assert [] + [SEMICOLON] + parameter == [SEMICOLON] + parameter;
    TrimPlain([], parameter);
    assert [] + parameter == parameter;
    FilledFirst(parameter, []);
    FilledNothing();
    FilledEmpty([parameter]);
    assert [parameter] + [] == [parameter];
    assert [[]] + [parameter] == [[], parameter];
  }

  lemma FilledEmpty(rest: seq<Text>)
    ensures Filled([[]] + rest) == Filled(rest)
  {
    assert Trim([]) == [];
    assert ([[]] + rest)[1..] == rest;
  }

  lemma PlainParameterText(t: Text)
    requires t != [] && forall k | 0 <= k < |t| :: NotLineEnd(t[k])
    ensures HasParameterText(t)
  {
    TailStartIs(t, NotLineEnd, 0);
  }

  lemma NoParameters()
    ensures ReadQ(Pieces([], SEMICOLON)) == Ok(1000)
  {
    SplitNone([], SEMICOLON);
    FilledEmpty([]);
    var nothing: seq<Text> := [[]];
    assert nothing + [] == nothing;
    FilledNothing();
  }

  lemma OneParameter(value: Text)
    requires value != [] && AllNumber(value)
    ensures ReadQ(Pieces(Q_PARAMETER + value, SEMICOLON)) == ParseHeaderQ(value)
    ensures HasParameterText([0x71, EQUALS] + value)
  {
    var parameter := [0x71, EQUALS] + value;
    NumberIsPlain(value);
    ParameterReads(value);
    PlainUnits();
    assert AllPlain(parameter) by {
      assert AllPlain([0x71, EQUALS]);
      PlainConcat([0x71, EQUALS], value);
    }
    hide Parameter, AllPlain, AllNumber, HasParameterText, Pieces, ReadQ, ParseHeaderQ;
    assert Q_PARAMETER + value == [SEMICOLON] + parameter;
    assert forall k | 2 <= k < |parameter| :: parameter[k] == value[k - 2];
    OnePiece(parameter);
    ReadOne(parameter);
    PlainParameterText(parameter);
  }

  /** The parameter part of a printed entry gives its weight back. */
  lemma QTextReads(q: nat)
    requires q <= 1000
    ensures ReadQ(Pieces(QText(q), SEMICOLON)) == Ok(q)
    ensures q < 1000 ==> HasParameterText(QText(q)[1..])
  {
    hide FormatQ, ParseHeaderQ, AllNumber, HasParameterText, Pieces, ReadQ, AllPlain;
    if q == 1000 {
      NoParameters();
    } else {
      FormattedIsNumber(q);
      FormattedQReadsBack(q);
      OneParameter(FormatQ(q));
      QTextIsPlain(q);
    }
  }

  lemma ReadOne(parameter: Text)
    requires Parameter(parameter).Some? && Parameter(parameter).value.0 == Q_NAME
    ensures ReadQ([parameter]) == ParseHeaderQ(Parameter(parameter).value.1)
  {
    assert [parameter][..0] == [];
    assert ReadQ([]) == Ok(1000);
  }

  /** Where the pieces of a printed entry stand. */
  lemma RenderedPlaces(e: Entry)
    ensures
      var part := Render(e);
      var slash := |e.methodName|;
      var end := slash + 1 + |e.intent|;
      && slash < end <= |part|
      && part[..slash] == e.methodName && part[slash] == SLASH
      && part[slash + 1..end] == e.intent && part[end..] == QText(e.q)
      && (end < |part| ==> part[end] == QText(e.q)[0] && part[end + 1..] == QText(e.q)[1..])
      && (forall k | 0 <= k < slash :: part[k] == e.methodName[k])
      && (forall k | slash + 1 <= k < end :: part[k] == e.intent[k - slash - 1])
  {
    RenderedParts(e);
    hide Render, QText;
  }

  /** What an entry reads as, once its pieces are found. */
  lemma EntryAt(part: Text, slash: nat, end: nat, q: nat, index: nat)
    requires 0 < slash < slash + 1 < end <= |part|
    requires RunEnd(part, 0, IsNameUnit) == slash && SkipSpace(part, slash) == slash && part[slash] == SLASH
    requires SkipSpace(part, slash + 1) == slash + 1 && RunEnd(part, slash + 1, IsNameUnit) == end
    requires SkipSpace(part, end) == end
    requires end < |part| ==> part[end] == SEMICOLON && HasParameterText(part[end + 1..])
    requires IsToken(part[..slash]) && IsToken(part[slash + 1..end])
    requires ReadQ(Pieces(part[end..], SEMICOLON)) == Ok(q)
    ensures ParseEntry(part, index) == Ok(Entry(part[..slash], part[slash + 1..end], q, index))
  {
    hide IsToken, ReadQ, Pieces, HasParameterText, RunEnd, SkipSpace;
  }

  /** The scanners stop at the pieces of a printed entry. */
  lemma ScannersAgree(part: Text, slash: nat, end: nat)
    requires 0 < slash < slash + 1 < end <= |part|
    requires forall k | 0 <= k < slash :: IsNameUnit(part[k])
    requires part[slash] == SLASH
    requires forall k | slash + 1 <= k < end :: IsNameUnit(part[k])
    requires end < |part| ==> part[end] == SEMICOLON
    ensures RunEnd(part, 0, IsNameUnit) == slash && SkipSpace(part, slash) == slash
    ensures SkipSpace(part, slash + 1) == slash + 1 && RunEnd(part, slash + 1, IsNameUnit) == end
    ensures SkipSpace(part, end) == end
  {
    assert !IsNameUnit(SLASH) && !IsNameUnit(SEMICOLON) && !IsSpace(SLASH) && !IsSpace(SEMICOLON);
    hide RunEnd, SkipSpace, IsNameUnit, IsSpace;
    NameIsNoSpace(part[slash + 1]);
    RunEndIs(part, 0, IsNameUnit, slash);
    SkipSpaceStays(part, slash);
    SkipSpaceStays(part, slash + 1);
    RunEndIs(part, slash + 1, IsNameUnit, end);
    SkipSpaceStays(part, end);
  }

  lemma RenderedUnits(e: Entry)
    requires ValidEntry(e)
    ensures e.q <= 1000 && e.methodName != [] && e.intent != [] && IsToken(e.methodName) && IsToken(e.intent)
    ensures forall k | 0 <= k < |e.methodName| :: IsNameUnit(e.methodName[k])
    ensures forall k | 0 <= k < |e.intent| :: IsNameUnit(e.intent[k])
    ensures if e.q < 1000 then |QText(e.q)| > 3 && QText(e.q)[0] == SEMICOLON else QText(e.q) == []
  {
    TokenUnits(e.methodName);
    TokenUnits(e.intent);
    QTextIsPlain(e.q);
    hide IsToken, IsNameUnit, AllPlain;
  }

  lemma RenderedEntryParses(e: Entry, index: nat)
    requires ValidEntry(e)
    ensures ParseEntry(Render(e), index) == Ok(e.(index := index))
  {
    hide *;
    var part := Render(e);
    var slash := |e.methodName|;
    var end := slash + 1 + |e.intent|;
    RenderedPlaces(e);
    RenderedUnits(e);
    QTextReads(e.q);
    ScannersAgree(part, slash, end);
    EntryAt(part, slash, end, e.q, index);
  }

  lemma NameIsNoSpace(u: Unit)
    requires IsNameUnit(u)
    ensures !IsSpace(u)
  {
  }

  // ---- The whole header -----------------------------------------------------

  function Indexed(entries: seq<Entry>, index: nat): seq<Entry> {
    if entries == [] then [] else [entries[0].(index := index)] + Indexed(entries[1..], index + 1)
  }

  lemma {:induction false} RenderedEntriesParse(entries: seq<Entry>, index: nat)
    requires forall e | e in entries :: ValidEntry(e)
    ensures ParseEntries(Rendered(entries), index) == Ok(Indexed(entries, index))
  {
    if entries != [] {
      assert entries[0] in entries;
      assert forall e | e in entries[1..] :: e in entries;
      RenderedEntryParses(entries[0], index);
      RenderedEntriesParse(entries[1..], index + 1);
      hide ParseEntry, Render, ValidEntry;
      assert Rendered(entries)[0] == Render(entries[0]) && Rendered(entries)[1..] == Rendered(entries[1..]);
    }
  }

  lemma {:induction false} IndexedAt(entries: seq<Entry>, index: nat)
    ensures |Indexed(entries, index)| == |entries|
    ensures forall k | 0 <= k < |entries| :: Indexed(entries, index)[k] == entries[k].(index := index + k)
  {
    if entries != [] { IndexedAt(entries[1..], index + 1); }
  }

  lemma {:induction false} ReadQIsBounded(params: seq<Text>)
    ensures ReadQ(params).Ok? ==> ReadQ(params).value <= 1000
  {
    if params != [] { ReadQIsBounded(params[..|params| - 1]); }
    hide Parameter;
  }

  lemma ParsedEntryIsValid(part: Text, index: nat)
    requires ParseEntry(part, index).Ok?
    ensures ValidEntry(ParseEntry(part, index).value) && ParseEntry(part, index).value.index == index
  {
    hide IsToken, ReadQ, Pieces, HasParameterText, SkipSpace, RunEnd, IsNameUnit;
    var name := RunEnd(part, 0, IsNameUnit);
    var start := SkipSpace(part, SkipSpace(part, name) + 1);
    var end := RunEnd(part, start, IsNameUnit);
    ReadQIsBounded(Pieces(part[end..], SEMICOLON));
  }

  lemma {:induction false} ParsedEntriesAreValid(parts: seq<Text>, index: nat)
    requires ParseEntries(parts, index).Ok?
    ensures
      var entries := ParseEntries(parts, index).value;
      && |entries| == |parts|
      && forall k | 0 <= k < |entries| :: ValidEntry(entries[k]) && entries[k].index == index + k
  {
    hide ParseEntry, ValidEntry;
    if parts != [] {
      ParsedEntryIsValid(parts[0], index);
      ParsedEntriesAreValid(parts[1..], index + 1);
    }
  }

  /** Whatever a header says, the entries read from it are well-formed and numbered in order. */
  lemma ParseGivesValidEntries(header: Text)
    requires Parse(header).Ok?
    ensures Parse(header).value != []
    ensures forall k | 0 <= k < |Parse(header).value| ::
              ValidEntry(Parse(header).value[k]) && Parse(header).value[k].index == k
  {
    ParsedEntriesAreValid(Pieces(header, COMMA), 0);
  }

  /** Printing entries and reading them back gives the same entries, numbered in order, exactly when
      there are any and all have token or `*` names and a q of at most 1. */
  lemma RoundTrip(entries: seq<Entry>)
    ensures Parse(Serialize(entries)) == Ok(Indexed(entries, 0))
            <==> entries != [] && forall e | e in entries :: ValidEntry(e)
  {
    hide ParseEntries, Serialize, Pieces, Rendered, ValidEntry, Parse;
    if entries != [] && forall e | e in entries :: ValidEntry(e) {
      SerializedSplits([], entries);
      assert [] + Serialize(entries) == Serialize(entries);
      RenderedEntriesParse(entries, 0);
      ParseUnfolds(Serialize(entries), entries);
    }
    if Parse(Serialize(entries)) == Ok(Indexed(entries, 0)) {
      ParseGivesValidEntries(Serialize(entries));
      IndexedAt(entries, 0);
      forall e | e in entries
        ensures ValidEntry(e)
      {
        var k :| 0 <= k < |entries| && entries[k] == e;
        ValidityIgnoresIndex(e, k);
      }
    }
  }

  lemma ParseUnfolds(header: Text, entries: seq<Entry>)
    requires entries != [] && Pieces(header, COMMA) == Rendered(entries)
    ensures Parse(header) == ParseEntries(Rendered(entries), 0)
  {
    hide Pieces, ParseEntries, Render;
  }

  lemma ValidityIgnoresIndex(e: Entry, index: nat)
    ensures ValidEntry(e.(index := index)) <==> ValidEntry(e)
  {
  }

  /** Printing what was read changes nothing: a header means the same as its canonical form. */
  lemma CanonicalFormMeansTheSame(header: Text)
    requires Parse(header).Ok?
    ensures Parse(Serialize(Parse(header).value)) == Parse(header)
  {
    var entries := Parse(header).value;
    ParseGivesValidEntries(header);
    hide Parse, Serialize, ValidEntry;
    RoundTrip(entries);
    IndexedAt(entries, 0);
    assert Indexed(entries, 0) == entries;
  }
}
