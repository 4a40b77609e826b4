/** Where schemes start in a list of challenges: the scanner finds exactly the Payment challenges,
    whatever their values and the challenges between them hold. */
module SchemeScan {
  import opened Basics
  import opened Text
  import opened AuthScanners
  import opened ChallengeCodec

  /** `part` stands in `whole` at `i`. */
  predicate At(whole: Text, i: nat, part: Text) {
    i + |part| <= |whole| && forall k :: 0 <= k < |part| ==> whole[i + k] == part[k]
  }

  lemma AtSplit(whole: Text, i: nat, a: Text, b: Text)
    requires At(whole, i, a + b)
    ensures At(whole, i, a) && At(whole, i + |a|, b)
  {
    forall k | 0 <= k < |a|
      ensures whole[i + k] == a[k]
    {
      assert (a + b)[k] == a[k];
    }
    forall k | 0 <= k < |b|
      ensures whole[i + |a| + k] == b[k]
    {
      assert (a + b)[|a| + k] == b[k] && i + (|a| + k) == i + |a| + k;
    }
  }

  lemma UnitAt(whole: Text, i: nat, u: Unit)
    requires At(whole, i, [u])
    ensures i < |whole| && whole[i] == u
  {
    assert whole[i + 0] == [u][0];
  }

  // ---- Well-formed challenges --------------------------------------------------

  /** A unit of a token or token68: no white space, quote or comma. */
  predicate IsWordUnit(u: Unit) {
    !IsSpace(u) && u != QUOTE && u != COMMA
  }

  predicate IsWord(t: Text) {
    t != [] && forall u :: u in t ==> IsWordUnit(u)
  }

  predicate IsName(t: Text) {
    IsWord(t) && EQUALS !in t
  }

  /** Whether a quoted-string's contents stay inside it, from `k` on. */
  predicate StaysQuoted(body: Text, k: nat, escaped: bool)
    requires k <= |body|
    decreases |body| - k
  {
    if k == |body| then !escaped
    else if escaped then StaysQuoted(body, k + 1, false)
    else body[k] != QUOTE && StaysQuoted(body, k + 1, body[k] == BACKSLASH)
  }

  predicate IsParam(p: Param) {
    IsName(p.name) && StaysQuoted(p.body, 0, false)
  }

  /** A challenge of any scheme: a name starting with a letter, digit, `_` or `-`, and nothing, a
      token68 or parameters. */
  predicate IsAuth(a: Auth) {
    && IsName(a.scheme) && IsKeyUnit(a.scheme[0])
    && (a.Token68? ==> IsWord(a.token) && a.token[0] != EQUALS)
    && (a.Params? ==> a.params != [] && forall p :: p in a.params ==> IsParam(p))
  }

  predicate IsPayment(a: Auth) {
    a.Params? && Lower(a.scheme) == PAYMENT
  }

  predicate IsOther(a: Auth) {
    IsAuth(a) && Lower(a.scheme) != PAYMENT
  }

  /** Several challenges in one field value (section 11.6.1 of RFC 9110). */
  function Join(auths: seq<Auth>): Text {
    if auths == [] then []
    else if |auths| == 1 then Render(auths[0])
    else Render(auths[0]) + BETWEEN + Join(auths[1..])
  }

  predicate AllWellFormed(auths: seq<Auth>) {
    forall a :: a in auths ==> IsAuth(a) && (IsPayment(a) || IsOther(a))
  }

  // ---- Regions of the scan -----------------------------------------------------

  lemma {:induction false} NoStartsBetween(value: Text, i: nat, j: nat)
    requires i <= j <= |value| && forall k :: i <= k < j ==> value[k] != QUOTE && !IsStart(value, k)
    ensures Starts(value, i, Outside) == Starts(value, j, Outside)
    decreases j - i
  {
    hide IsStart;
    if i < j {
      NoStartsBetween(value, i + 1, j);
    }
  }

  lemma {:induction false} QuotedBodyIsSkipped(value: Text, i: nat, body: Text, k: nat, escaped: bool)
    requires At(value, i, body) && k <= |body| && StaysQuoted(body, k, escaped)
    ensures Starts(value, i + k, if escaped then Escaped else Inside) == Starts(value, i + |body|, Inside)
    decreases |body| - k
  {
    hide IsStart;
    if k < |body| {
      assert value[i + k] == body[k];
      QuotedBodyIsSkipped(value, i, body, k + 1, !escaped && body[k] == BACKSLASH);
    }
  }

  /** The scheme is seven letters with white space after them. */
  lemma NotAScheme(value: Text, i: nat, m: nat)
    requires i <= m <= i + 7 && m < |value|
    requires if m == i + 7 then !IsSpace(value[m]) else !IsWordUnit(value[m])
    ensures !StartsWithScheme(value, i)
  {
    if i + 7 < |value| && m < i + 7 {
      assert Lower(value[i..i + 7])[m - i] == LowerUnit(value[m]);
    }
  }

  /** No scheme starts in a word that a comma, a quote or the end follows. */
  lemma WordHoldsNoScheme(value: Text, i: nat, j: nat, k: nat)
    requires i <= k < j <= |value| && (forall m :: i <= m < j ==> IsWordUnit(value[m]))
    requires j < |value| ==> value[j] == COMMA || value[j] == QUOTE
    ensures !StartsWithScheme(value, k)
  {
    if k + 7 < j {
      NotAScheme(value, k, k + 7);
    } else if j < |value| {
      NotAScheme(value, k, j);
    }
  }

  lemma WordUnitsAt(value: Text, i: nat, word: Text)
    requires At(value, i, word) && forall u :: u in word ==> IsWordUnit(u)
    ensures forall k :: i <= k < i + |word| ==> IsWordUnit(value[k])
  {
    forall k | i <= k < i + |word|
      ensures IsWordUnit(value[k])
    {
      assert value[i + (k - i)] == word[k - i];
    }
  }

  lemma ScanWord(value: Text, i: nat, word: Text)
    requires At(value, i, word) && (forall u :: u in word ==> IsWordUnit(u))
    requires i + |word| < |value| ==> value[i + |word|] == COMMA || value[i + |word|] == QUOTE
    ensures Starts(value, i, Outside) == Starts(value, i + |word|, Outside)
  {
    WordUnitsAt(value, i, word);
    forall k | i <= k < i + |word|
      ensures !IsStart(value, k)
    {
      WordHoldsNoScheme(value, i, i + |word|, k);
    }
    NoStartsBetween(value, i, i + |word|);
  }

  lemma ScanBetween(value: Text, i: nat)
    requires At(value, i, BETWEEN)
    ensures Starts(value, i, Outside) == Starts(value, i + 2, Outside)
  {
    assert value[i + 0] == BETWEEN[0] && value[i + 1] == BETWEEN[1];
    NotAScheme(value, i, i);
    NotAScheme(value, i + 1, i + 1);
    NoStartsBetween(value, i, i + 2);
  }

  /** The start of the value or a place after ", ", where a challenge begins. */
  predicate AtPlace(value: Text, i: nat) {
    i == 0 || (2 <= i && At(value, i - 2, BETWEEN))
  }

  lemma PlaceIsBoundary(value: Text, i: nat)
    requires i <= |value| && AtPlace(value, i)
    ensures Boundary(value, i) == -1 || value[Boundary(value, i)] == COMMA
  {
    if i > 0 {
      assert value[i - 2 + 0] == BETWEEN[0] && value[i - 2 + 1] == BETWEEN[1];
      BoundaryIs(value, i, i - 2);
    }
  }

  /** A scheme name with a space after it starts a scheme only if it is Payment. */
  lemma ScanScheme(value: Text, i: nat, scheme: Text)
    requires AtPlace(value, i) && At(value, i, scheme) && IsName(scheme)
    requires i + |scheme| < |value| && value[i + |scheme|] == SPACE
    ensures Starts(value, i, Outside)
         == (if Lower(scheme) == PAYMENT then [i] else []) + Starts(value, i + |scheme|, Outside)
  {
    hide IsStart;
    var j := i + |scheme|;
    WordUnitsAt(value, i, scheme);
    FirstOfScheme(value, i, scheme);
    forall k | i + 1 <= k < j
      ensures !IsStart(value, k)
    {
      NotFirstOfWord(value, k);
    }
    NoStartsBetween(value, i + 1, j);
    assert [] + Starts(value, j, Outside) == Starts(value, j, Outside);
  }

  lemma NotFirstOfWord(value: Text, k: nat)
    requires 0 < k < |value| && IsWordUnit(value[k - 1])
    ensures !IsStart(value, k)
  {
    BoundaryIs(value, k, k - 1);
  }

  lemma FirstOfScheme(value: Text, i: nat, scheme: Text)
    requires AtPlace(value, i) && At(value, i, scheme) && IsName(scheme)
    requires i + |scheme| < |value| && value[i + |scheme|] == SPACE
    ensures IsStart(value, i) <==> Lower(scheme) == PAYMENT
  {
    PlaceIsBoundary(value, i);
    WordUnitsAt(value, i, scheme);
    if |scheme| == 7 {
      assert value[i..i + 7] == scheme;
    } else if |scheme| < 7 {
      NotAScheme(value, i, i + |scheme|);
    } else {
      NotAScheme(value, i, i + 7);
    }
  }

  // ---- Whole challenges --------------------------------------------------------

  lemma ScanParam(value: Text, i: nat, p: Param)
    requires At(value, i, RenderParam(p)) && IsParam(p)
    ensures Starts(value, i, Outside) == Starts(value, i + |RenderParam(p)|, Outside)
  {
    hide IsStart, Starts;
    var n, b := |p.name|, |p.body|;
    var name := p.name + [EQUALS];
    assert RenderParam(p) == name + ([QUOTE] + p.body + [QUOTE]);
    AtSplit(value, i, name, [QUOTE] + p.body + [QUOTE]);
    AtSplit(value, i + n + 1, [QUOTE] + p.body, [QUOTE]);
    AtSplit(value, i + n + 1, [QUOTE], p.body);
    UnitAt(value, i + n + 1, QUOTE);
    UnitAt(value, i + n + 2 + b, QUOTE);
    ScanWord(value, i, name);
    OpenQuote(value, i + n + 1);
    QuotedBodyIsSkipped(value, i + n + 2, p.body, 0, false);
    CloseQuote(value, i + n + 2 + b);
  }

  lemma OpenQuote(value: Text, i: nat)
    requires i < |value| && value[i] == QUOTE
    ensures Starts(value, i, Outside) == Starts(value, i + 1, Inside)
  {
  }

  lemma CloseQuote(value: Text, i: nat)
    requires i < |value| && value[i] == QUOTE
    ensures Starts(value, i, Inside) == Starts(value, i + 1, Outside)
  {
  }

  lemma {:induction false} ScanParams(value: Text, i: nat, params: seq<Param>)
    requires At(value, i, RenderParams(params)) && forall p :: p in params ==> IsParam(p)
    ensures Starts(value, i, Outside) == Starts(value, i + |RenderParams(params)|, Outside)
    decreases |params|
  {
    hide IsStart, Starts, RenderParam, IsParam;
    if |params| == 1 {
      ScanParam(value, i, params[0]);
    } else if |params| > 1 {
      var first, rest := RenderParam(params[0]), RenderParams(params[1..]);
      AtSplit(value, i, first + BETWEEN, rest);
      AtSplit(value, i, first, BETWEEN);
      ScanParam(value, i, params[0]);
      ScanBetween(value, i + |first|);
      ScanParams(value, i + |first| + 2, params[1..]);
    }
  }

  /** A place before which a challenge ends. */
  predicate EndsAt(value: Text, j: nat) {
    j == |value| || (j < |value| && value[j] == COMMA)
  }

  lemma ScanBare(value: Text, i: nat, a: Auth)
    requires At(value, i, Render(a)) && EndsAt(value, i + |Render(a)|)
    requires IsAuth(a) && a.Bare?
    ensures Starts(value, i, Outside) == Starts(value, i + |Render(a)|, Outside)
  {
    hide IsStart, Starts;
    ScanWord(value, i, a.scheme);
  }

  /** A scheme and the space after it: the scan goes on where its token or parameters begin. */
  lemma ScanSchemeAndSpace(value: Text, i: nat, a: Auth, tail: Text)
    requires AtPlace(value, i) && At(value, i, a.scheme + [SPACE] + tail) && IsAuth(a)
    ensures i + |a.scheme| + 1 <= |value|
    ensures Starts(value, i, Outside)
         == (if Lower(a.scheme) == PAYMENT then [i] else []) + Starts(value, i + |a.scheme| + 1, Outside)
  {
    hide IsStart, Starts;
    AtSplit(value, i, a.scheme + [SPACE], tail);
    AtSplit(value, i, a.scheme, [SPACE]);
    UnitAt(value, i + |a.scheme|, SPACE);
    ScanScheme(value, i, a.scheme);
    ScanSpace(value, i + |a.scheme|);
  }

  lemma ScanToken68(value: Text, i: nat, a: Auth)
    requires AtPlace(value, i) && At(value, i, Render(a)) && EndsAt(value, i + |Render(a)|)
    requires IsAuth(a) && a.Token68? && Lower(a.scheme) != PAYMENT
    ensures Starts(value, i, Outside) == Starts(value, i + |Render(a)|, Outside)
  {
    hide IsStart, Starts, AtPlace;
    AtSplit(value, i, a.scheme + [SPACE], a.token);
    ScanSchemeAndSpace(value, i, a, a.token);
    ScanWord(value, i + |a.scheme| + 1, a.token);
  }

  lemma ScanParamsOf(value: Text, i: nat, a: Auth)
    requires AtPlace(value, i) && At(value, i, Render(a))
    requires IsAuth(a) && a.Params?
    ensures Starts(value, i, Outside)
         == (if Lower(a.scheme) == PAYMENT then [i] else []) + Starts(value, i + |Render(a)|, Outside)
  {
    hide IsStart, Starts, AtPlace, RenderParams;
    AtSplit(value, i, a.scheme + [SPACE], RenderParams(a.params));
    ScanSchemeAndSpace(value, i, a, RenderParams(a.params));
    ScanParams(value, i + |a.scheme| + 1, a.params);
  }

  lemma ScanAuth(value: Text, i: nat, a: Auth)
    requires AtPlace(value, i) && At(value, i, Render(a)) && EndsAt(value, i + |Render(a)|)
    requires IsAuth(a) && (IsPayment(a) || IsOther(a))
    ensures Starts(value, i, Outside) == OwnPlace(a, i) + Starts(value, i + |Render(a)|, Outside)
  {
    hide IsStart, Starts, AtPlace, Render, EndsAt;
    match a
    case Bare(_) => ScanBare(value, i, a);
    case Token68(_, _) => ScanToken68(value, i, a);
    case Params(_, _) => ScanParamsOf(value, i, a);
  }

  lemma ScanSpace(value: Text, i: nat)
    requires i < |value| && value[i] == SPACE
    ensures Starts(value, i, Outside) == Starts(value, i + 1, Outside)
  {
    NotAScheme(value, i, i);
  }

  /** Where the Payment challenges of a list start, when the list is written at `i`. */
  function PaymentPlaces(auths: seq<Auth>, i: nat): seq<nat> {
    if auths == [] then [] else OwnPlace(auths[0], i) + PaymentPlaces(auths[1..], i + |Render(auths[0])| + 2)
  }

  function OwnPlace(a: Auth, i: nat): seq<nat> {
    if IsPayment(a) then [i] else []
  }

  lemma PaymentPlacesStep(auths: seq<Auth>, i: nat)
    requires auths != []
    ensures PaymentPlaces(auths, i) == OwnPlace(auths[0], i) + PaymentPlaces(auths[1..], i + |Render(auths[0])| + 2)
  {
  }

  lemma JoinStep(auths: seq<Auth>)
    requires |auths| > 1
    ensures Join(auths) == Render(auths[0]) + BETWEEN + Join(auths[1..])
  {
  }

  lemma {:induction false} ScanJoin(value: Text, i: nat, auths: seq<Auth>)
    requires AtPlace(value, i) && At(value, i, Join(auths)) && EndsAt(value, i + |Join(auths)|) && AllWellFormed(auths) && auths != []
    ensures Starts(value, i, Outside) == PaymentPlaces(auths, i) + Starts(value, i + |Join(auths)|, Outside)
    decreases |auths|
  {
    hide IsStart, Starts, IsAuth, IsOther, IsPayment, Render, At, PaymentPlaces;
    var first := Render(auths[0]);
    PaymentPlacesStep(auths, i);
    if |auths| == 1 {
      ScanAuth(value, i, auths[0]);
      NoPlaces(i + |first| + 2);
    } else {
      hide Join;
      JoinStep(auths);
      var rest := Join(auths[1..]);
      AtSplit(value, i, first + BETWEEN, rest);
      AtSplit(value, i, first, BETWEEN);
      CommaAt(value, i + |first|);
      ScanAuth(value, i, auths[0]);
      ScanBetween(value, i + |first|);
      ScanJoin(value, i + |first| + 2, auths[1..]);
      Regroup(OwnPlace(auths[0], i), PaymentPlaces(auths[1..], i + |first| + 2), Starts(value, i + |Join(auths)|, Outside));
    }
  }

  lemma NoPlaces(i: nat)
    ensures PaymentPlaces([], i) == []
  {
  }

  lemma Regroup(a: seq<nat>, b: seq<nat>, c: seq<nat>)
    ensures a + (b + c) == a + b + c
  {
  }

  lemma CommaAt(value: Text, i: nat)
    requires At(value, i, BETWEEN)
    ensures EndsAt(value, i)
  {
    assert value[i + 0] == BETWEEN[0];
  }

  /** The scanner finds exactly the Payment challenges of a list: no quote, backslash, comma or
      scheme name in any value, and no other scheme, adds or hides a start. */
  lemma ExactlyThePaymentsStart(auths: seq<Auth>)
    requires AllWellFormed(auths) && auths != []
    ensures SchemeStarts(Join(auths)) == PaymentPlaces(auths, 0)
  {
    hide Starts, Join;
    var value := Join(auths);
    ScanJoin(value, 0, auths);
    NoStartsAtEnd(value, Outside);
    assert PaymentPlaces(auths, 0) + [] == PaymentPlaces(auths, 0);
  }
}
