/** Printed challenges parse back: one, and any list of them with other schemes in between. */
module ChallengeRoundTrip {
  import opened Basics
  import opened Text
  import opened AuthScanners
  import opened ChallengeCodec
  import opened SchemeScan
  import opened ParameterRoundTrip

  // ---- The parameters as a map ---------------------------------------------------

  predicate Named(slots: seq<(Text, Option<Text>)>, name: Text) {
    exists i :: 0 <= i < |slots| && slots[i].0 == name
  }

  predicate DistinctNames(slots: seq<(Text, Option<Text>)>) {
    forall i, j :: 0 <= i < j < |slots| ==> slots[i].0 != slots[j].0
  }

  predicate NoneRead(slots: seq<(Text, Option<Text>)>, read: map<Text, Text>) {
    forall i :: 0 <= i < |slots| ==> slots[i].0 !in read
  }

  lemma PresentStep(slots: seq<(Text, Option<Text>)>)
    requires slots != []
    ensures Present(slots) == (if slots[0].1.Some? then [(slots[0].0, slots[0].1.value)] else []) + Present(slots[1..])
    ensures slots[0].1.Some? ==> Present(slots)[1..] == Present(slots[1..])
    ensures slots[0].1.None? ==> Present(slots) == Present(slots[1..])
  {
  }

  /** Distinct parameters are read without a clash, and each is found under its name. */
  lemma {:induction false} PresentReads(slots: seq<(Text, Option<Text>)>, read: map<Text, Text>)
    requires DistinctNames(slots) && NoneRead(slots, read)
    ensures AllFresh(Present(slots), read)
    ensures forall i :: 0 <= i < |slots| ==> Lookup(AsMap(Present(slots), read), slots[i].0) == slots[i].1
    ensures forall n :: !Named(slots, n) ==> Lookup(AsMap(Present(slots), read), n) == Lookup(read, n)
    decreases |slots|
  {
    if slots != [] {
      hide Present;
      PresentStep(slots);
      var (name, value) := slots[0];
      var next := if value.Some? then read[name := value.value] else read;
      PresentReads(slots[1..], next);
      assert !Named(slots[1..], name);
      forall i | 0 <= i < |slots|
        ensures Lookup(AsMap(Present(slots), read), slots[i].0) == slots[i].1
      {
        if i > 0 {
          assert slots[i] == slots[1..][i - 1];
        }
      }
      forall n | !Named(slots, n)
        ensures Lookup(AsMap(Present(slots), read), n) == Lookup(read, n)
      {
        assert !Named(slots[1..], n) by {
          assert forall i :: 0 <= i < |slots| - 1 ==> slots[1..][i] == slots[i + 1];
        }
        assert slots[0].0 != n;
      }
    } else {
      assert Present(slots) == [];
    }
  }

  lemma {:induction false} PresentNames(slots: seq<(Text, Option<Text>)>)
    requires forall i :: 0 <= i < |slots| ==> IsOwnName(slots[i].0)
    ensures AllOwnNames(Present(slots))
    decreases |slots|
  {
    if slots != [] {
      hide Present, IsOwnName;
      PresentStep(slots);
      PresentNames(slots[1..]);
    } else {
      assert Present(slots) == [];
    }
  }

  lemma NamesDiffer()
    ensures DistinctNames([(ID, None), (REALM, None), (METHOD, None), (INTENT, None), (REQUEST, None), (DESCRIPTION, None),
                           (DIGEST, None), (EXPIRES, None), (HEADER, None), (OPAQUE, None), (META, None)])
  {
    assert |ID| == 2 && |META| == 4 && |REALM| == 5 && |DESCRIPTION| == 11;
    assert |METHOD| == |INTENT| == |DIGEST| == |HEADER| == |OPAQUE| == 6;
    assert |REQUEST| == |EXPIRES| == 7 && REQUEST[0] != EXPIRES[0];
    assert METHOD[0] == 'm' as int && INTENT[0] == 'i' as int && DIGEST[0] == 'd' as int && HEADER[0] == 'h' as int && OPAQUE[0] == 'o' as int;
  }

  lemma LowercaseIsOwnName(s: string)
    requires s != "" && forall i :: 0 <= i < |s| ==> 'a' <= s[i] <= 'z'
    ensures IsOwnName(Ascii(s))
  {
    assert Lower(Ascii(s)) == Ascii(s);
  }

  lemma OwnNames()
    ensures IsOwnName(ID) && IsOwnName(REALM) && IsOwnName(METHOD) && IsOwnName(INTENT) && IsOwnName(REQUEST)
    ensures IsOwnName(DESCRIPTION) && IsOwnName(DIGEST) && IsOwnName(EXPIRES) && IsOwnName(HEADER) && IsOwnName(OPAQUE)
  {
    LowercaseIsOwnName("id");
    LowercaseIsOwnName("realm");
    LowercaseIsOwnName("method");
    LowercaseIsOwnName("intent");
    LowercaseIsOwnName("request");
    LowercaseIsOwnName("description");
    LowercaseIsOwnName("digest");
    LowercaseIsOwnName("expires");
    LowercaseIsOwnName("header");
    LowercaseIsOwnName("opaque");
  }

  // ---- Payment challenges as written ---------------------------------------------

  /** A Payment challenge as written: its scheme name, in any case, and whatever parameters. */
  datatype Paid = Paid(scheme: Text, params: seq<(Text, Text)>)

  predicate IsPaid(p: Paid) {
    Lower(p.scheme) == PAYMENT && p.params != [] && AllKeyNames(p.params)
  }

  function WrittenAs(p: Paid): Auth {
    Params(p.scheme, EscapedParams(p.params))
  }

  /** What it deserializes to: repeated parameters are refused, whatever they say. */
  function FromWritten<R>(codec: Codec<R>, p: Paid): Result<Challenge<R>, Error> {
    var params := Parsed(p.params, map[]);
    if params.Err? then Err(params.error) else FromParams(codec, params.value)
  }

  lemma RepeatedParametersAreRefused<R>(codec: Codec<R>, p: Paid)
    requires !DistinctKeys(p.params)
    ensures FromWritten(codec, p) == Err(DuplicateParameter)
  {
    ParsedIfDistinct(p.params);
    hide Parsed, DistinctKeys;
  }

  lemma KeyNameIsName(name: Text)
    requires IsKeyName(name)
    ensures IsName(name)
  {
    forall u | u in name
      ensures IsWordUnit(u) && u != EQUALS
    {
    }
  }

  /** The scheme name is seven letters. */
  lemma SchemeIsKeyName(scheme: Text)
    requires Lower(scheme) == PAYMENT
    ensures |scheme| == 7 && IsKeyName(scheme) && IsKeyUnit(scheme[0])
  {
    forall u | u in scheme
      ensures IsKeyUnit(u)
    {
      var i :| 0 <= i < |scheme| && scheme[i] == u;
      assert Lower(scheme)[i] == LowerUnit(u);
    }
    assert scheme[0] in scheme;
  }

  lemma PaidIsAuth(p: Paid)
    requires IsPaid(p)
    ensures IsAuth(WrittenAs(p)) && IsPayment(WrittenAs(p)) && |p.scheme| == 7
  {
    SchemeIsKeyName(p.scheme);
    KeyNameIsName(p.scheme);
    hide IsName, IsKeyName;
    forall param | param in EscapedParams(p.params)
      ensures IsParam(param)
    {
      var k :| 0 <= k < |p.params| && param == EscapedParams(p.params)[k];
      EscapedTextStaysQuoted(p.params[k].1);
      KeyNameIsName(p.params[k].0);
    }
  }

  // ---- One challenge -------------------------------------------------------------

  /** The printed form of a Payment challenge. */
  function PaidOf<R>(codec: Codec<R>, c: Challenge<R>): Paid {
    Paid(SCHEME, ParamsOf(codec, c))
  }

  /** The map its parameters are read into. */
  function ReadBack<R>(codec: Codec<R>, c: Challenge<R>): map<Text, Text> {
    AsMap(ParamsOf(codec, c), map[])
  }

  lemma SlotNames<R>(codec: Codec<R>, c: Challenge<R>)
    ensures DistinctNames(Slots(codec, c)) && !Named(Slots(codec, c), META)
    ensures forall i :: 0 <= i < 10 ==> IsOwnName(Slots(codec, c)[i].0)
  {
    hide IsOwnName;
    NamesDiffer();
    OwnNames();
    var slots := Slots(codec, c);
    var names: seq<(Text, Option<Text>)> := [(ID, None), (REALM, None), (METHOD, None), (INTENT, None), (REQUEST, None), (DESCRIPTION, None),
                  (DIGEST, None), (EXPIRES, None), (HEADER, None), (OPAQUE, None), (META, None)];
    assert forall i :: 0 <= i < 10 ==> slots[i].0 == names[i].0;
    assert names[10].0 == META;
  }

  /** A printed challenge is well-formed, and reads back as the map of its parameters. */
  lemma PrintedIsPaid<R>(codec: Codec<R>, c: Challenge<R>)
    ensures IsPaid(PaidOf(codec, c))
    ensures FromWritten(codec, PaidOf(codec, c)) == FromParams(codec, ReadBack(codec, c))
  {
    hide Slots, Present, IsOwnName, AllFresh, DistinctNames, Named, FromParams, AsMap, Lowered, AllKeyNames;
    SlotNames(codec, c);
    SlotCount(codec, c);
    PresentReads(Slots(codec, c), map[]);
    PresentNames(Slots(codec, c));
    OwnNamesStay(ParamsOf(codec, c));
    assert Lower(SCHEME) == PAYMENT;
  }

  lemma SlotCount<R>(codec: Codec<R>, c: Challenge<R>)
    ensures |Slots(codec, c)| == 10 && Present(Slots(codec, c)) != []
  {
    PresentStep(Slots(codec, c));
  }

  /** What comes after the parameters of the first challenge of a list. */
  function Following(others: seq<Auth>): Text {
    if others == [] then [] else BETWEEN + Join(others)
  }

  lemma JoinFirst(a: Auth, others: seq<Auth>)
    ensures Join([a] + others) == Render(a) + Following(others)
  {
    assert ([a] + others)[1..] == others;
  }

  lemma StopsBefore(own: Text, a: Auth, after: Text)
    requires IsAuth(a) && (after == [] || after[0] == COMMA)
    ensures ReadParameter(own + BETWEEN + Render(a) + after, |own|) == Done
  {
    hide IsAuth, ReadParameter, Render, At;
    var text := own + BETWEEN + Render(a) + after;
    assert text == own + BETWEEN + (Render(a) + after);
    PartAt(own, BETWEEN, Render(a) + after);
    PartAt(own + BETWEEN, Render(a), after);
    BetweenIsSeparators(text, |own|);
    AnotherSchemeEndsThem(text, |own|, |own| + 2, a);
  }

  /** Parsing stops at the challenge that follows. */
  lemma ParsingStopsAtTheNext(own: Text, others: seq<Auth>)
    requires forall a :: a in others ==> IsAuth(a)
    ensures ReadParameter(own + Following(others), |own|) == Done
  {
    hide IsAuth, ReadParameter, Render, Join;
    if others == [] {
      assert own + [] == own;
      NothingFollows(own);
    } else {
      var after := Following(others[1..]);
      assert others == [others[0]] + others[1..];
      JoinFirst(others[0], others[1..]);
      assert others[1..] != [] ==> after[0] == COMMA;
      StopsBefore(own, others[0], after);
      assert own + BETWEEN + Render(others[0]) + after == own + (BETWEEN + (Render(others[0]) + after));
    }
  }

  lemma PartAt(before: Text, part: Text, after: Text)
    ensures At(before + part + after, |before|, part)
  {
  }

  lemma ParsesUpToTheNext(p: Paid, others: seq<Auth>)
    requires IsPaid(p) && forall a :: a in others ==> IsAuth(a)
    ensures var text := RenderParams(EscapedParams(p.params)) + Following(others);
            ParseParams(text, 0, map[]) == Parsed(p.params, map[])
  {
    hide RenderParams, IsAuth, ReadParameter, ParseParams, Parsed, Following, At, EscapedParams;
    var own := RenderParams(EscapedParams(p.params));
    ParsingStopsAtTheNext(own, others);
    PartAt([], own, Following(others));
    assert [] + own + Following(others) == own + Following(others);
    ReadWrittenParameters(own + Following(others), 0, 0, p.params, map[]);
  }

  /** A value that begins with a Payment challenge deserializes to it, whatever its parameters, the case
      of its scheme and the other schemes that follow. */
  lemma DeserializeFirst<R>(codec: Codec<R>, p: Paid, others: seq<Auth>)
    requires IsPaid(p) && forall a :: a in others ==> IsOther(a)
    ensures Deserialize(codec, Join([WrittenAs(p)] + others)) == FromWritten(codec, p)
  {
    hide IsAuth, IsPayment, SchemeStarts, ParseParams, FromParams, RenderParams, Following, Join, Parsed;
    var a := WrittenAs(p);
    var auths := [a] + others;
    var value := Join(auths);
    var own := RenderParams(EscapedParams(p.params));
    PaidIsAuth(p);
    ExactlyThePaymentsStart(auths);
    PaymentPlacesStep(auths, 0);
    JoinFirst(a, others);
    ParsesUpToTheNext(p, others);
    FirstOfWritten(p);
    assert value == (p.scheme + [SPACE]) + (own + Following(others));
    assert value[7] == SPACE && value[8] == own[0];
    SkipWhileIs(IsSpace, value, 7, 8);
    assert value[8..] == own + Following(others);
  }

  lemma FirstOfWritten(p: Paid)
    requires IsPaid(p)
    ensures var own := RenderParams(EscapedParams(p.params)); own != [] && !IsSpace(own[0])
  {
    PaidIsAuth(p);
    hide RenderParams, IsPaid;
    var params := EscapedParams(p.params);
    assert params[0] in params;
    FirstOfParams(params);
  }

  // ---- Validity and normalization ------------------------------------------------

  /** What validation demands of a challenge: an id, a lower-case method, a request within the limit
      that decodes, and well-formed optional fields. */
  predicate Valid<R>(codec: Codec<R>, c: Challenge<R>) {
    && 0 < |codec.encode(c.request)| <= MAX_REQUEST_LENGTH
    && c.id != [] && (c.methodName == [] || IsMethodName(c.methodName))
    && (NonEmpty(c.digest).Some? ==> IsDigest(c.digest.value))
    && (NonEmpty(c.expires).Some? ==> IsDatetime(c.expires.value))
    && (c.header.Some? ==> IsDefaultHeader(c.header.value) || IsHeaderName(c.header.value))
  }

  /** A challenge as it reads back: empty optional fields and the default header are dropped, and
      correlation data is carried as its raw text. */
  function Normalize<R>(codec: Codec<R>, c: Challenge<R>): Challenge<R> {
    c.(description := NonEmpty(c.description),
       digest := NonEmpty(c.digest),
       expires := NonEmpty(c.expires),
       header := if c.header.Some? && Lower(c.header.value) == Ascii("authorization") then None else c.header,
       correlation := NonEmpty(if c.correlation.None? && c.meta.Some? then Some(codec.encode(c.meta.value)) else c.correlation),
       meta := None)
  }

  lemma ReadBackLookups<R>(codec: Codec<R>, c: Challenge<R>)
    ensures var m := ReadBack(codec, c);
            && Lookup(m, ID) == Some(c.id) && Lookup(m, REALM) == Some(c.realm) && Lookup(m, METHOD) == Some(c.methodName)
            && Lookup(m, INTENT) == Some(c.intent) && Lookup(m, REQUEST) == Some(codec.encode(c.request))
            && Lookup(m, DESCRIPTION) == c.description && Lookup(m, DIGEST) == c.digest && Lookup(m, EXPIRES) == c.expires
            && Lookup(m, HEADER) == HeaderToSend(c) && Lookup(m, OPAQUE) == CorrelationToSend(codec, c)
            && META !in m
  {
    hide Present, AsMap, AllFresh, HeaderToSend, CorrelationToSend, IsOwnName;
    SlotNames(codec, c);
    PresentReads(Slots(codec, c), map[]);
    var slots := Slots(codec, c);
    assert slots[0].0 == ID && slots[1].0 == REALM && slots[2].0 == METHOD && slots[3].0 == INTENT && slots[4].0 == REQUEST;
    assert slots[5].0 == DESCRIPTION && slots[6].0 == DIGEST && slots[7].0 == EXPIRES && slots[8].0 == HEADER && slots[9].0 == OPAQUE;
    assert Lookup(map[], META) == None;
  }

  /** What is read back validates exactly when the challenge was valid, and is its normal form. */
  lemma ReadBackIsNormal<R>(codec: Codec<R>, c: Challenge<R>)
    requires codec.decode(codec.encode(c.request)) == Some(c.request)
    ensures FromParams(codec, ReadBack(codec, c)).Ok? <==> Valid(codec, c)
    ensures Valid(codec, c) ==> FromParams(codec, ReadBack(codec, c)).value == Normalize(codec, c)
  {
    hide ReadBack, IsDatetime, IsMethodName, IsHeaderName, IsDigest, Lower;
    ReadBackLookups(codec, c);
  }

  /** A challenge without line breaks round-trips exactly when it is valid. */
  lemma RoundTrip<R>(codec: Codec<R>, c: Challenge<R>)
    requires codec.decode(codec.encode(c.request)) == Some(c.request)
    requires Serialize(codec, c).Ok?
    ensures Deserialize(codec, Serialize(codec, c).value).Ok? <==> Valid(codec, c)
    ensures Valid(codec, c) ==> Deserialize(codec, Serialize(codec, c).value) == Ok(Normalize(codec, c))
  {
    hide ReadBack, Valid, FromParams, Deserialize, Render, ParamsOf, FromWritten, IsPaid;
    var a := WrittenAs(PaidOf(codec, c));
    PrintedIsPaid(codec, c);
    DeserializeFirst(codec, PaidOf(codec, c), []);
    assert [a] + [] == [a];
    assert Join([a]) == Render(a);
    ReadBackIsNormal(codec, c);
  }

  // ---- What is read --------------------------------------------------------------

  /** Exactly which parameters make a challenge: the five required ones, no `meta`, a request within the
      limit that decodes, a lower-case method and well-formed optional ones, which count as absent when
      empty, and the default header as none. Each field is what was written. */
  lemma WhatIsRead<R>(codec: Codec<R>, m: map<Text, Text>)
    ensures FromParams(codec, m).Ok? <==>
              && ID in m && REALM in m && METHOD in m && INTENT in m && REQUEST in m && META !in m
              && m[ID] != [] && (m[METHOD] != [] ==> IsMethodName(m[METHOD]))
              && 0 < |m[REQUEST]| <= 16384 && codec.decode(m[REQUEST]).Some?
              && (DIGEST in m && m[DIGEST] != [] ==> IsDigest(m[DIGEST]))
              && (EXPIRES in m && m[EXPIRES] != [] ==> IsDatetime(m[EXPIRES]))
              && (HEADER in m && Lower(m[HEADER]) != Ascii("authorization") ==> IsHeaderName(m[HEADER]))
    ensures FromParams(codec, m).Ok? ==>
              var c := FromParams(codec, m).value;
              && c.id == m[ID] && c.realm == m[REALM] && c.methodName == m[METHOD] && c.intent == m[INTENT]
              && Some(c.request) == codec.decode(m[REQUEST]) && c.meta.None?
              && c.description == (if DESCRIPTION in m && m[DESCRIPTION] != [] then Some(m[DESCRIPTION]) else None)
              && c.digest == (if DIGEST in m && m[DIGEST] != [] then Some(m[DIGEST]) else None)
              && c.expires == (if EXPIRES in m && m[EXPIRES] != [] then Some(m[EXPIRES]) else None)
              && c.header == (if HEADER in m && Lower(m[HEADER]) != Ascii("authorization") then Some(m[HEADER]) else None)
              && c.correlation == (if OPAQUE in m && m[OPAQUE] != [] then Some(m[OPAQUE]) else None)
  {
    hide IsMethodName, IsDigest, IsDatetime, IsHeaderName, Lower;
  }

  /** Whatever text a challenge was read from, it is valid and in normal form, so printing it and reading
      that gives it again, exactly when its request prints within the limit. */
  lemma ReprintingChangesNothing<R>(codec: Codec<R>, value: Text, c: Challenge<R>)
    requires Deserialize(codec, value) == Ok(c)
    requires codec.decode(codec.encode(c.request)) == Some(c.request)
    requires Serialize(codec, c).Ok?
    ensures Deserialize(codec, Serialize(codec, c).value).Ok? <==> 0 < |codec.encode(c.request)| <= 16384
    ensures 0 < |codec.encode(c.request)| <= 16384 ==> Deserialize(codec, Serialize(codec, c).value) == Ok(c)
  {
    hide Deserialize, Serialize, Valid, Normalize, FromParams;
    ReadFromParams(codec, value);
    var m :| FromParams(codec, m) == Ok(c);
    ReadIsNormal(codec, m, c);
    RoundTrip(codec, c);
  }

  lemma ReadIsNormal<R>(codec: Codec<R>, m: map<Text, Text>, c: Challenge<R>)
    requires FromParams(codec, m) == Ok(c)
    ensures Normalize(codec, c) == c
    ensures Valid(codec, c) <==> 0 < |codec.encode(c.request)| <= 16384
  {
    hide IsMethodName, IsDigest, IsDatetime, IsHeaderName, Lower, FromParams;
    WhatIsRead(codec, m);
  }

  lemma ReadFromParams<R>(codec: Codec<R>, value: Text)
    requires Deserialize(codec, value).Ok?
    ensures exists m :: FromParams(codec, m) == Deserialize(codec, value)
  {
    hide FromParams, ParseParams, SchemeStarts, SkipWhile;
  }

  // ---- A legal header value --------------------------------------------------------

  /** A unit a header value may hold: Latin-1, and no line break. */
  predicate IsHeaderUnit(u: Unit) {
    u <= 0xFF && u != CR && u != LF
  }

  predicate AllHeaderUnits(t: Text) {
    forall k :: 0 <= k < |t| ==> IsHeaderUnit(t[k])
  }

  lemma HeaderUnitsConcat(a: Text, b: Text)
    requires AllHeaderUnits(a) && AllHeaderUnits(b)
    ensures AllHeaderUnits(a + b)
  {
  }

  lemma EscapedUnitIsHeader(u: Unit)
    requires u != CR && u != LF
    ensures AllHeaderUnits(EscapeUnit(u))
  {
  }

  lemma {:induction false} EscapedIsHeader(value: Text)
    requires CR !in value && LF !in value
    ensures AllHeaderUnits(Escape(value))
  {
    hide Escape, EscapeUnit, AllHeaderUnits;
    if value == [] {
      EscapeNothing();
      NothingIsHeader();
    } else {
      EscapeStep(value);
      assert value[0] in value;
      EscapedUnitIsHeader(value[0]);
      EscapedIsHeader(value[1..]);
      HeaderUnitsConcat(EscapeUnit(value[0]), Escape(value[1..]));
    }
  }

  lemma NothingIsHeader()
    ensures AllHeaderUnits([]) && AllHeaderUnits([EQUALS, QUOTE]) && AllHeaderUnits([QUOTE]) && AllHeaderUnits(BETWEEN)
  {
  }

  lemma {:induction false} ParamsAreHeader(params: seq<(Text, Text)>)
    requires AllKeyNames(params) && !HasLineBreak(params)
    ensures AllHeaderUnits(RenderParams(EscapedParams(params)))
    decreases |params|
  {
    hide Escape, AllHeaderUnits, RenderParams, IsKeyName;
    NothingIsHeader();
    if params == [] {
      NoParamsRendered();
      assert EscapedParams(params) == [];
    } else {
      var name, value := params[0].0, params[0].1;
      RenderFirstParam(params);
      KeyNameIsHeader(name);
      EscapedIsHeader(value);
      HeaderUnitsConcat(name, [EQUALS, QUOTE]);
      HeaderUnitsConcat(name + [EQUALS, QUOTE], Escape(value));
      HeaderUnitsConcat(name + [EQUALS, QUOTE] + Escape(value), [QUOTE]);
      assert forall i :: 0 <= i < |params| - 1 ==> params[1..][i] == params[i + 1];
      ParamsAreHeader(params[1..]);
      var first := RenderParam(Param(name, Escape(value)));
      HeaderUnitsConcat(first, BETWEEN);
      HeaderUnitsConcat(first + BETWEEN, RenderParams(EscapedParams(params[1..])));
    }
  }

  lemma NoParamsRendered()
    ensures RenderParams([]) == []
  {
  }

  lemma KeyNameIsHeader(name: Text)
    requires IsKeyName(name)
    ensures AllHeaderUnits(name)
  {
    assert forall k :: 0 <= k < |name| ==> name[k] in name;
  }

  /** A challenge prints exactly when none of its fields holds a line break, and then as a legal header
      value: Latin-1 units and no line breaks, whatever units the fields hold. */
  lemma PrintsALegalHeader<R>(codec: Codec<R>, c: Challenge<R>)
    ensures Serialize(codec, c).Ok? <==>
              forall i :: 0 <= i < |ParamsOf(codec, c)| ==> CR !in ParamsOf(codec, c)[i].1 && LF !in ParamsOf(codec, c)[i].1
    ensures Serialize(codec, c).Ok? ==> AllHeaderUnits(Serialize(codec, c).value)
  {
    PrintedIsPaid(codec, c);
    if Serialize(codec, c).Ok? {
      ParamsAreHeader(ParamsOf(codec, c));
      var params := RenderParams(EscapedParams(ParamsOf(codec, c)));
      hide ParamsOf, RenderParams;
      assert AllHeaderUnits(SCHEME + [SPACE]);
      HeaderUnitsConcat(SCHEME + [SPACE], params);
    }
  }
}
