/** The `Accept-Payment` header (src/internal/AcceptPayment.ts:124-144, 291-383; q-values follow
    section 12.4.2 of RFC 9110). A q-value is a number of thousandths. */
module AcceptPayment {
  import opened Basics
  import opened Text
  import opened PaymentRanking

  datatype Error = EmptyHeader | InvalidEntry | InvalidToken | InvalidParameter | InvalidQ

  // ---- Printing -------------------------------------------------------------

  const ZERO: Unit := 0x30
  const SEPARATOR: Text := [COMMA, SPACE]
  const Q_PARAMETER: Text := [SEMICOLON, 0x71, EQUALS]

  /** `toFixed(3)`. */
  function Fixed(q: nat): Text {
    Decimal(q / 1000) + [DOT, ZERO + q / 100 % 10, ZERO + q / 10 % 10, ZERO + q % 10]
  }

  /** Where the run of trailing units of a class begins. */
  function TailStart(t: Text, kind: Unit -> bool): (i: nat)
    ensures i <= |t|
    ensures forall k | i <= k < |t| :: kind(t[k])
    ensures i > 0 ==> !kind(t[i - 1])
  {
    if t == [] || !kind(t[|t| - 1]) then |t| else TailStart(t[..|t| - 1], kind)
  }

  /** `.replace(/\.0+$/, '')` */
  function DropZeroFraction(t: Text): Text {
    var i := TailStart(t, IsZero);
    if 0 < i < |t| && t[i - 1] == DOT then t[..i - 1] else t
  }

  /** `.replace(/(\.\d*?)0+$/, '$1')` */
  function TrimZeros(t: Text): Text {
    var i := TailStart(t, IsZero);
    var digits := TailStart(t, IsDigit);
    if i < |t| && 0 < digits <= i && t[digits - 1] == DOT then t[..i] else t
  }

  predicate IsZero(u: Unit) { u == ZERO }

  function FormatQ(q: nat): Text {
    TrimZeros(DropZeroFraction(Fixed(q)))
  }

  function Render(e: Entry): Text {
    var value := e.methodName + [SLASH] + e.intent;
    if e.q == 1000 then value else value + Q_PARAMETER + FormatQ(e.q)
  }

  function Serialize(entries: seq<Entry>): Text {
    if entries == [] then []
    else if |entries| == 1 then Render(entries[0])
    else Render(entries[0]) + SEPARATOR + Serialize(entries[1..])
  }

  // ---- Splitting ------------------------------------------------------------

  function Split(t: Text, separator: Unit): seq<Text>
    decreases |t|
  {
    var i := IndexOf(t, separator, 0);
    if i == -1 then [t] else [t[..i]] + Split(t[i + 1..], separator)
  }

  function SkipSpace(t: Text, i: nat): (end: nat)
    requires i <= |t|
    ensures i <= end <= |t|
    ensures forall k | i <= k < end :: IsSpace(t[k])
    ensures end < |t| ==> !IsSpace(t[end])
    decreases |t| - i
  {
    if i < |t| && IsSpace(t[i]) then SkipSpace(t, i + 1) else i
  }

  function Trim(t: Text): Text {
    var rest := t[SkipSpace(t, 0)..];
    rest[..TailStart(rest, IsSpace)]
  }

  function Filled(parts: seq<Text>): seq<Text> {
    if parts == [] then []
    else (if Trim(parts[0]) == [] then [] else [Trim(parts[0])]) + Filled(parts[1..])
  }

  /** Splitting at a separator and the white space around it, without empty pieces. */
  function Pieces(t: Text, separator: Unit): seq<Text> {
    Filled(Split(t, separator))
  }

  // ---- Parsing --------------------------------------------------------------

  /** `[^/;\s]` */
  predicate IsNameUnit(u: Unit) { u != SLASH && u != SEMICOLON && !IsSpace(u) }

  /** `[A-Za-z0-9_-]` */
  predicate IsParameterUnit(u: Unit) {
    0x41 <= u <= 0x5A || 0x61 <= u <= 0x7A || IsDigit(u) || u == 0x5F || u == 0x2D
  }

  /** `[a-z0-9-]` */
  predicate IsTokenUnit(u: Unit) { 0x61 <= u <= 0x7A || IsDigit(u) || u == 0x2D }

  predicate IsToken(t: Text) {
    t == ANY || (t != [] && forall u | u in t :: IsTokenUnit(u))
  }

  predicate IsLineEnd(u: Unit) { u == LF || u == CR || u == 0x2028 || u == 0x2029 }

  /** Where the run of units of a class from `i` ends. */
  function RunEnd(t: Text, i: nat, kind: Unit -> bool): (end: nat)
    requires i <= |t|
    ensures i <= end <= |t|
    ensures forall k | i <= k < end :: kind(t[k])
    ensures end < |t| ==> !kind(t[end])
    decreases |t| - i
  {
    if i < |t| && kind(t[i]) then RunEnd(t, i + 1, kind) else i
  }

  predicate NotLineEnd(u: Unit) { !IsLineEnd(u) }

  /** `\s*.+` to the end: every line terminator is within leading white space, and something follows it. */
  predicate HasParameterText(t: Text) {
    var line := TailStart(t, NotLineEnd);
    line < |t| && line <= SkipSpace(t, 0)
  }

  /** `/^0(?:\.\d{0,3})?$|^1(?:\.0{0,3})?$/`, in thousandths. */
  function ParseHeaderQ(t: Text): Result<nat, Error> {
    if t == [] || |t| > 5 || (|t| > 1 && t[1] != DOT) then Err(InvalidQ)
    else if t[0] == ZERO && (forall k | 2 <= k < |t| :: IsDigit(t[k])) then
      Ok((if |t| > 2 then 100 * (t[2] - ZERO) else 0) + (if |t| > 3 then 10 * (t[3] - ZERO) else 0)
         + (if |t| > 4 then t[4] - ZERO else 0))
    else if t[0] == ZERO + 1 && (forall k | 2 <= k < |t| :: t[k] == ZERO) then Ok(1000)
    else Err(InvalidQ)
  }

  /** `/^(?<name>[A-Za-z0-9_-]+)\s*=\s*(?<value>\S+)$/` */
  function Parameter(t: Text): Option<(Text, Text)> {
    var name := RunEnd(t, 0, IsParameterUnit);
    var equals := SkipSpace(t, name);
    if name == 0 || equals == |t| || t[equals] != EQUALS then None
    else
      var value := SkipSpace(t, equals + 1);
      if value == |t| || (exists k :: value <= k < |t| && IsSpace(t[k])) then None
      else Some((t[..name], t[value..]))
  }

  const Q_NAME: Text := [0x71]

  /** The last `q` parameter counts. */
  function ReadQ(params: seq<Text>): Result<nat, Error> {
    if params == [] then Ok(1000)
    else
      var before := ReadQ(params[..|params| - 1]);
      var parameter := Parameter(params[|params| - 1]);
      if before.Err? then before
      else if parameter.None? then Err(InvalidParameter)
      else if parameter.value.0 != Q_NAME then before
      else ParseHeaderQ(parameter.value.1)
  }

  method ReadParameters(params: seq<Text>) returns (q: Result<nat, Error>)
    ensures q == ReadQ(params)
  {
    q := Ok(1000);
    for i := 0 to |params|
      invariant q.Ok? && q == ReadQ(params[..i])
    {
      var parameter := Parameter(params[i]);
      assert params[..i + 1][..i] == params[..i];
      if parameter.None? {
        ErrorsStay(params, i + 1);
        return Err(InvalidParameter);
      }
      if parameter.value.0 != Q_NAME { continue; }
      q := ParseHeaderQ(parameter.value.1);
      if q.Err? {
        ErrorsStay(params, i + 1);
        return q;
      }
    }
    assert params[..|params|] == params;
  }

  lemma {:induction false} ErrorsStay(params: seq<Text>, n: nat)
    requires n <= |params|
    ensures ReadQ(params[..n]).Err? ==> ReadQ(params) == ReadQ(params[..n])
    decreases |params| - n
  {
    if n == |params| {
      assert params[..n] == params;
    } else {
      assert params[..n + 1][..n] == params[..n];
      ErrorsStay(params, n + 1);
    }
  }

  function ParseEntry(part: Text, index: nat): Result<Entry, Error> {
    var name := RunEnd(part, 0, IsNameUnit);
    var slash := SkipSpace(part, name);
    if name == 0 || slash == |part| || part[slash] != SLASH then Err(InvalidEntry)
    else
      var start := SkipSpace(part, slash + 1);
      var end := RunEnd(part, start, IsNameUnit);
      var semicolon := SkipSpace(part, end);
      if start == end then Err(InvalidEntry)
      else if end < |part| && !(semicolon < |part| && part[semicolon] == SEMICOLON && HasParameterText(part[semicolon + 1..])) then
        Err(InvalidEntry)
      else if !IsToken(part[..name]) || !IsToken(part[start..end]) then Err(InvalidToken)
      else
        var q := ReadQ(Pieces(part[end..], SEMICOLON));
        if q.Err? then Err(q.error) else Ok(Entry(part[..name], part[start..end], q.value, index))
  }

  function ParseEntries(parts: seq<Text>, index: nat): Result<seq<Entry>, Error> {
    if parts == [] then Ok([])
    else
      var first := ParseEntry(parts[0], index);
      if first.Err? then Err(first.error)
      else
        var rest := ParseEntries(parts[1..], index + 1);
        if rest.Err? then rest else Ok([first.value] + rest.value)
  }

  function Parse(header: Text): Result<seq<Entry>, Error> {
    var parts := Pieces(header, COMMA);
    if parts == [] then Err(EmptyHeader) else ParseEntries(parts, 0)
  }
}
