/** Printing and parsing `WWW-Authenticate` challenges (src/Challenge.ts), over the grammar of
    sections 11.2, 11.3 and 11.6.1 of RFC 9110. */
module ChallengeCodec {
  import opened Basics
  import opened Text
  import opened AuthScanners

  // ---- Challenges of any scheme, as written ------------------------------------

  /** A parameter and the contents of its quoted-string, escapes included. */
  datatype Param = Param(name: Text, body: Text)

  datatype Auth =
    | Bare(scheme: Text)
    | Token68(scheme: Text, token: Text)
    | Params(scheme: Text, params: seq<Param>)

  function RenderParam(p: Param): Text {
    p.name + [EQUALS, QUOTE] + p.body + [QUOTE]
  }

  const BETWEEN: Text := [COMMA, SPACE]

  function RenderParams(params: seq<Param>): Text {
    if params == [] then []
    else if |params| == 1 then RenderParam(params[0])
    else RenderParam(params[0]) + BETWEEN + RenderParams(params[1..])
  }

  function Render(a: Auth): Text {
    match a
    case Bare(scheme) => scheme
    case Token68(scheme, token) => scheme + [SPACE] + token
    case Params(scheme, params) => scheme + [SPACE] + RenderParams(params)
  }

  // ---- Escaping ----------------------------------------------------------------

  /** Replaces every unit of a text. */
  function Replace(t: Text, f: Unit -> Text): Text {
    if t == [] then [] else f(t[0]) + Replace(t[1..], f)
  }

  function DoubleBackslash(u: Unit): Text {
    if u == BACKSLASH then [BACKSLASH, BACKSLASH] else [u]
  }

  function EscapeQuote(u: Unit): Text {
    if u == QUOTE then [BACKSLASH, QUOTE] else [u]
  }

  function HexDigit(v: nat): (u: Unit)
    requires v < 16
    ensures IsHexDigit(u) && HexDigitValue(u) == v
  {
    if v < 10 then 0x30 + v else 0x61 + v - 10
  }

  /** Units above Latin-1 become `\uXXXX`, so the header is always a byte string. */
  function EscapeWide(u: Unit): Text {
    if u > 0xFF then [BACKSLASH, LOWER_U, HexDigit(u / 4096), HexDigit(u / 256 % 16), HexDigit(u / 16 % 16), HexDigit(u % 16)] else [u]
  }

  /** The three replacements, each over the whole value. */
  function Escape(value: Text): Text {
    Replace(Replace(Replace(value, DoubleBackslash), EscapeQuote), EscapeWide)
  }

  // ---- Challenges --------------------------------------------------------------

  /** How requests and correlation data become base64url text and back. */
  datatype Codec<!R> = Codec(encode: R -> Text, decode: Text -> Option<R>)

  /** A Payment challenge. `correlation` is its raw `opaque` text and `meta` the parsed data. */
  datatype Challenge<R> = Challenge(
    id: Text,
    realm: Text,
    methodName: Text,
    intent: Text,
    request: R,
    description: Option<Text>,
    digest: Option<Text>,
    expires: Option<Text>,
    header: Option<Text>,
    correlation: Option<Text>,
    meta: Option<R>)

  const SCHEME: Text := Ascii("Payment")
  const AUTHORIZATION: Text := Ascii("authorization")
  const ID: Text := Ascii("id")
  const REALM: Text := Ascii("realm")
  const METHOD: Text := Ascii("method")
  const INTENT: Text := Ascii("intent")
  const REQUEST: Text := Ascii("request")
  const DESCRIPTION: Text := Ascii("description")
  const DIGEST: Text := Ascii("digest")
  const EXPIRES: Text := Ascii("expires")
  const HEADER: Text := Ascii("header")
  const OPAQUE: Text := Ascii("opaque")
  const META: Text := Ascii("meta")

  const MAX_REQUEST_LENGTH := 16 * 1024

  predicate IsDefaultHeader(header: Text) {
    Lower(header) == AUTHORIZATION
  }

  function HeaderToSend<R>(c: Challenge<R>): Option<Text> {
    if c.header.Some? && !IsDefaultHeader(c.header.value) then c.header else None
  }

  function CorrelationToSend<R>(codec: Codec<R>, c: Challenge<R>): Option<Text> {
    if c.correlation.Some? then c.correlation else if c.meta.Some? then Some(codec.encode(c.meta.value)) else None
  }

  /** A challenge's parameters in the order they are written, with the value of each if it has one. */
  function Slots<R>(codec: Codec<R>, c: Challenge<R>): seq<(Text, Option<Text>)> {
    [(ID, Some(c.id)), (REALM, Some(c.realm)), (METHOD, Some(c.methodName)), (INTENT, Some(c.intent)),
     (REQUEST, Some(codec.encode(c.request))), (DESCRIPTION, c.description), (DIGEST, c.digest), (EXPIRES, c.expires),
     (HEADER, HeaderToSend(c)), (OPAQUE, CorrelationToSend(codec, c))]
  }

  function Present(slots: seq<(Text, Option<Text>)>): seq<(Text, Text)> {
    if slots == [] then []
    else (if slots[0].1.Some? then [(slots[0].0, slots[0].1.value)] else []) + Present(slots[1..])
  }

  function ParamsOf<R>(codec: Codec<R>, c: Challenge<R>): seq<(Text, Text)> {
    Present(Slots(codec, c))
  }

  function EscapedParams(params: seq<(Text, Text)>): seq<Param> {
    seq(|params|, i requires 0 <= i < |params| => Param(params[i].0, Escape(params[i].1)))
  }

  predicate HasLineBreak(params: seq<(Text, Text)>) {
    exists i :: 0 <= i < |params| && (CR in params[i].1 || LF in params[i].1)
  }

  function Serialize<R>(codec: Codec<R>, c: Challenge<R>): Result<Text, Error> {
    var params := ParamsOf(codec, c);
    if HasLineBreak(params) then Err(InvalidQuotedString) else Ok(Render(Params(SCHEME, EscapedParams(params))))
  }

  // ---- Validation --------------------------------------------------------------

  predicate IsLowerLetter(u: Unit) { 0x61 <= u <= 0x7A }

  /** `[a-z][a-z0-9:_-]*` */
  predicate IsMethodName(t: Text) {
    t != [] && IsLowerLetter(t[0]) && forall u :: u in t ==> IsLowerLetter(u) || IsDigit(u) || u == COLON || u == 0x5F || u == 0x2D
  }

  /** `[!#$%&'*+.^_`|~0-9A-Za-z-]+` */
  predicate IsHeaderName(t: Text) {
    t != [] && forall u :: u in t ==> IsKeyUnit(u) || u in Ascii("!#$%&'*+.^`|~")
  }

  predicate IsDigest(t: Text) {
    Ascii("sha-256=") <= t
  }

  predicate DigitsAt(t: Text, i: nat, n: nat) {
    i + n <= |t| && forall k :: i <= k < i + n ==> IsDigit(t[k])
  }

  /** An ISO 8601 date and time, with an optional fraction, in UTC or at an offset. */
  predicate IsDatetime(t: Text) {
    && |t| >= 20
    && DigitsAt(t, 0, 4) && t[4] == 0x2D && DigitsAt(t, 5, 2) && t[7] == 0x2D && DigitsAt(t, 8, 2) && t[10] == 0x54
    && DigitsAt(t, 11, 2) && t[13] == COLON && DigitsAt(t, 14, 2) && t[16] == COLON && DigitsAt(t, 17, 2)
    && (var zone := if t[19] == DOT then SkipWhile(IsDigit, t, 20) else 19;
        && (t[19] == DOT ==> zone > 20)
        && (t[zone..] == [0x5A]
            || (|t| == zone + 6 && t[zone] in {0x2B, 0x2D} && DigitsAt(t, zone + 1, 2) && t[zone + 3] == COLON && DigitsAt(t, zone + 4, 2))))
  }

  function Lookup(params: map<Text, Text>, name: Text): Option<Text> {
    if name in params then Some(params[name]) else None
  }

  function NonEmpty(value: Option<Text>): Option<Text> {
    if value == Some([]) then None else value
  }

  /** The challenge that parsed parameters describe; unknown parameters are dropped. */
  function FromParams<R>(codec: Codec<R>, params: map<Text, Text>): Result<Challenge<R>, Error> {
    var request := Lookup(params, REQUEST);
    var methodName := Lookup(params, METHOD);
    if NonEmpty(request).None? then Err(MissingRequest)
    else if |request.value| > MAX_REQUEST_LENGTH then Err(RequestTooLarge)
    else if NonEmpty(methodName).Some? && !IsMethodName(methodName.value) then Err(InvalidMethod)
    else if codec.decode(request.value).None? then Err(InvalidRequest)
    else
      var id, realm, intent := Lookup(params, ID), Lookup(params, REALM), Lookup(params, INTENT);
      var digest, expires := NonEmpty(Lookup(params, DIGEST)), NonEmpty(Lookup(params, EXPIRES));
      var supplied := Lookup(params, HEADER);
      var header := if supplied.Some? && IsDefaultHeader(supplied.value) then None else supplied;
      if NonEmpty(id).None? || realm.None? || methodName.None? || intent.None? || META in params
         || (digest.Some? && !IsDigest(digest.value)) || (expires.Some? && !IsDatetime(expires.value))
         || (header.Some? && !IsHeaderName(header.value)) then Err(InvalidChallenge)
      else Ok(Challenge(id.value, realm.value, methodName.value, intent.value, codec.decode(request.value).value,
                        NonEmpty(Lookup(params, DESCRIPTION)), digest, expires, header,
                        NonEmpty(Lookup(params, OPAQUE)), None))
  }

  // ---- Parsing -----------------------------------------------------------------

  /** `deserialize`: the first Payment challenge of a header value. */
  function Deserialize<R>(codec: Codec<R>, value: Text): Result<Challenge<R>, Error> {
    var starts := SchemeStarts(value);
    if starts == [] then Err(MissingScheme)
    else
      var paramsStart := SkipWhile(IsSpace, value, starts[0] + |PAYMENT|);
      var params := ParseParams(value[paramsStart..], 0, map[]);
      if paramsStart == |value| then Err(MissingScheme)
      else if params.Err? then Err(params.error) else FromParams(codec, params.value)
  }

  /** A chunk without the comma and white space at its end. */
  function WithoutTrailingComma(chunk: Text): Text {
    var last := Boundary(chunk, |chunk|);
    if last >= 0 && chunk[last] == COMMA then chunk[..last] else chunk
  }

  function DeserializeFrom<R>(codec: Codec<R>, value: Text, starts: seq<nat>): Result<seq<Challenge<R>>, Error>
    requires forall a :: 0 <= a < |starts| ==> starts[a] <= |value|
    requires forall a, b :: 0 <= a < b < |starts| ==> starts[a] < starts[b]
  {
    if starts == [] then Ok([])
    else
      var end := if |starts| > 1 then starts[1] else |value|;
      var first := Deserialize(codec, WithoutTrailingComma(value[starts[0]..end]));
      if first.Err? then Err(first.error)
      else
        var rest := DeserializeFrom(codec, value, starts[1..]);
        if rest.Err? then rest else Ok([first.value] + rest.value)
  }

  /** `deserializeList`: every Payment challenge of a header value that may hold several. */
  function DeserializeList<R>(codec: Codec<R>, value: Text): Result<seq<Challenge<R>>, Error> {
    var starts := SchemeStarts(value);
    if starts == [] then Err(NoSchemes) else DeserializeFrom(codec, value, starts)
  }
}
