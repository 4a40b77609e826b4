/** The hand-written scanners of a `WWW-Authenticate` value (src/Challenge.ts): the scheme finder,
    the parameter parser and the quoted-string reader. Each loop is proved against a function. */
module AuthScanners {
  import opened Basics
  import opened Text

  datatype Error =
    | MissingScheme | NoSchemes | MalformedParameter | DuplicateParameter | UnterminatedQuote
    | MissingRequest | RequestTooLarge | InvalidMethod | InvalidRequest | InvalidChallenge | InvalidQuotedString

  /** The scheme in lower case: "payment". */
  const PAYMENT: Text := [0x70, 0x61, 0x79, 0x6D, 0x65, 0x6E, 0x74]

  const LOWER_U: Unit := 0x75

  function LowerUnit(u: Unit): Unit {
    if 0x41 <= u <= 0x5A then u + 0x20 else u
  }

  function Lower(t: Text): (l: Text)
    ensures |l| == |t| && forall i :: 0 <= i < |t| ==> l[i] == LowerUnit(t[i])
  {
    seq(|t|, i requires 0 <= i < |t| => LowerUnit(t[i]))
  }

  /** Letters fold, and nothing else does: two texts fold alike exactly when they differ in the case of
      letters at most. */
  lemma LowerFoldsLetters(a: Text, b: Text)
    ensures Lower(a) == Lower(b) <==>
              |a| == |b| && forall i :: 0 <= i < |a| ==>
                a[i] == b[i] || (0x41 <= a[i] <= 0x5A && b[i] == a[i] + 32) || (0x41 <= b[i] <= 0x5A && a[i] == b[i] + 32)
    ensures (forall i :: 0 <= i < |a| ==> !(0x41 <= a[i] <= 0x5A)) ==> Lower(a) == a
  {
    if Lower(a) == Lower(b) {
      forall i | 0 <= i < |a|
        ensures a[i] == b[i] || (0x41 <= a[i] <= 0x5A && b[i] == a[i] + 32) || (0x41 <= b[i] <= 0x5A && a[i] == b[i] + 32)
      {
        assert Lower(a)[i] == Lower(b)[i];
      }
    }
  }

  predicate IsKeyUnit(u: Unit) {
    0x41 <= u <= 0x5A || 0x61 <= u <= 0x7A || 0x30 <= u <= 0x39 || u == 0x5F || u == 0x2D
  }

  predicate IsHexDigit(u: Unit) {
    0x30 <= u <= 0x39 || 0x41 <= u <= 0x46 || 0x61 <= u <= 0x66
  }

  function HexDigitValue(u: Unit): (v: nat)
    requires IsHexDigit(u)
    ensures v < 16
  {
    if u <= 0x39 then u - 0x30 else if u <= 0x46 then u - 0x41 + 10 else u - 0x61 + 10
  }

  // ---- Scheme starts -----------------------------------------------------------

  datatype Quoting = Outside | Inside | Escaped

  function NextQuoting(q: Quoting, u: Unit): Quoting {
    match q
    case Outside => if u == QUOTE then Inside else Outside
    case Inside => if u == BACKSLASH then Escaped else if u == QUOTE then Outside else Inside
    case Escaped => Inside
  }

  /** Whether the scheme token stands at `i`, in any case, with white space after it. */
  predicate StartsWithScheme(value: Text, i: nat) {
    && i + |PAYMENT| < |value|
    && Lower(value[i..i + |PAYMENT|]) == PAYMENT
    && IsSpace(value[i + |PAYMENT|])
  }

  /** The last place before `i` that is not white space, or -1. */
  function Boundary(value: Text, i: nat): (b: int)
    requires i <= |value|
    ensures -1 <= b < i && (b >= 0 ==> !IsSpace(value[b]))
    ensures forall k :: b < k < i ==> IsSpace(value[k])
  {
    if i == 0 then -1 else if IsSpace(value[i - 1]) then Boundary(value, i - 1) else i - 1
  }

  predicate IsStart(value: Text, i: nat)
    requires i <= |value|
  {
    StartsWithScheme(value, i) && (Boundary(value, i) == -1 || value[Boundary(value, i)] == COMMA)
  }

  /** The scheme starts from `i` on, in a given quoting state. */
  function Starts(value: Text, i: nat, q: Quoting): (starts: seq<nat>)
    requires i <= |value|
    ensures forall a :: 0 <= a < |starts| ==> i <= starts[a] && starts[a] + |PAYMENT| < |value|
    ensures forall a, b :: 0 <= a < b < |starts| ==> starts[a] < starts[b]
    decreases |value| - i
  {
    if i == |value| then []
    else
      var rest := Starts(value, i + 1, NextQuoting(q, value[i]));
      if q == Outside && value[i] != QUOTE && IsStart(value, i) then [i] + rest else rest
  }

  function SchemeStarts(value: Text): seq<nat> {
    Starts(value, 0, Outside)
  }

  lemma BoundaryIs(value: Text, i: nat, b: int)
    requires -1 <= b < i <= |value| && (b >= 0 ==> !IsSpace(value[b])) && forall k :: b < k < i ==> IsSpace(value[k])
    ensures Boundary(value, i) == b
  {
    hide Boundary;
    var found := Boundary(value, i);
    assert !(found < b) && !(b < found);
  }

  /** What one turn of the scan adds. */
  lemma StartsStep(value: Text, starts: seq<nat>, i: nat, q: Quoting)
    requires i < |value|
    ensures starts + Starts(value, i, q)
         == (if q == Outside && value[i] != QUOTE && IsStart(value, i) then starts + [i] else starts)
            + Starts(value, i + 1, NextQuoting(q, value[i]))
  {
    var rest := Starts(value, i + 1, NextQuoting(q, value[i]));
    assert starts + ([i] + rest) == (starts + [i]) + rest;
  }

  function QuotingOf(inQuotes: bool, escaped: bool): Quoting {
    if escaped then Escaped else if inQuotes then Inside else Outside
  }

  method FindSchemeStarts(value: Text) returns (starts: seq<nat>)
    ensures starts == SchemeStarts(value)
  {
    hide Starts, Boundary, StartsWithScheme;
    starts := [];
    var inQuotes, escaped := false, false;
    var i := 0;
    while i < |value|
      invariant 0 <= i <= |value| && (escaped ==> inQuotes)
      invariant SchemeStarts(value) == starts + Starts(value, i, QuotingOf(inQuotes, escaped))
    {
      var unit := value[i];
      StartsStep(value, starts, i, QuotingOf(inQuotes, escaped));
      if inQuotes {
        if escaped {
          escaped := false;
        } else if unit == BACKSLASH {
          escaped := true;
        } else if unit == QUOTE {
          inQuotes := false;
        }
      } else if unit == QUOTE {
        inQuotes := true;
      } else if StartsWithScheme(value, i) {
        var boundary := i - 1;
        while boundary >= 0 && IsSpace(value[boundary])
          invariant -1 <= boundary < i && forall k :: boundary < k < i ==> IsSpace(value[k])
        {
          boundary := boundary - 1;
        }
        BoundaryIs(value, i, boundary);
        if boundary < 0 || value[boundary] == COMMA {
          starts := starts + [i];
        }
      }
      i := i + 1;
    }
    NoStartsAtEnd(value, QuotingOf(inQuotes, escaped));
  }

  lemma NoStartsAtEnd(value: Text, q: Quoting)
    ensures Starts(value, |value|, q) == []
  {
  }

  // ---- Quoted strings ----------------------------------------------------------

  /** A value read, with the place after it. */
  datatype Read = Read(value: Text, next: nat)

  predicate HexAt(input: Text, i: nat) {
    i + 4 <= |input| && IsHexDigit(input[i]) && IsHexDigit(input[i + 1]) && IsHexDigit(input[i + 2]) && IsHexDigit(input[i + 3])
  }

  function HexValue(input: Text, i: nat): Unit
    requires HexAt(input, i)
  {
    4096 * HexDigitValue(input[i]) + 256 * HexDigitValue(input[i + 1]) + 16 * HexDigitValue(input[i + 2]) + HexDigitValue(input[i + 3])
  }

  function Prepend(t: Text, r: Result<Read, Error>): Result<Read, Error> {
    if r.Ok? then Ok(Read(t + r.value.value, r.value.next)) else r
  }

  /** The rest of a quoted-string from `i`, up to its closing quote. */
  function Unquote(input: Text, i: nat): (r: Result<Read, Error>)
    requires i <= |input|
    ensures r.Ok? ==> i < r.value.next <= |input|
    decreases |input| - i
  {
    if i == |input| then Err(UnterminatedQuote)
    else if input[i] == QUOTE then Ok(Read([], i + 1))
    else if input[i] != BACKSLASH then Prepend([input[i]], Unquote(input, i + 1))
    else if i + 1 == |input| then Err(UnterminatedQuote)
    else if input[i + 1] == LOWER_U && HexAt(input, i + 2) then Prepend([HexValue(input, i + 2)], Unquote(input, i + 6))
    else Prepend([input[i + 1]], Unquote(input, i + 2))
  }

  lemma PrependTwice(t: Text, t': Text, r: Result<Read, Error>)
    ensures Prepend(t, Prepend(t', r)) == Prepend(t + t', r)
  {
    if r.Ok? {
      assert t + (t' + r.value.value) == (t + t') + r.value.value;
    }
  }

  lemma PrependNothing(r: Result<Read, Error>)
    ensures Prepend([], r) == r
  {
    if r.Ok? {
      assert [] + r.value.value == r.value.value;
    }
  }

  /** What `read` has taken of the quoted-string at `start`, before `i`. */
  ghost predicate Taken(input: Text, start: nat, read: Text, i: nat)
    requires start <= |input| && i <= |input|
  {
    Unquote(input, start) == Prepend(read, Unquote(input, i))
  }

  lemma TakeUnit(input: Text, start: nat, read: Text, i: nat)
    requires start <= i < |input| && Taken(input, start, read, i) && input[i] != QUOTE && input[i] != BACKSLASH
    ensures Taken(input, start, read + [input[i]], i + 1)
  {
    PrependTwice(read, [input[i]], Unquote(input, i + 1));
  }

  lemma TakeEscape(input: Text, start: nat, read: Text, i: nat)
    requires start <= i && i + 1 < |input| && Taken(input, start, read, i) && input[i] == BACKSLASH
    ensures if input[i + 1] == LOWER_U && HexAt(input, i + 2) then Taken(input, start, read + [HexValue(input, i + 2)], i + 6)
            else Taken(input, start, read + [input[i + 1]], i + 2)
  {
    if input[i + 1] == LOWER_U && HexAt(input, i + 2) {
      PrependTwice(read, [HexValue(input, i + 2)], Unquote(input, i + 6));
    } else {
      PrependTwice(read, [input[i + 1]], Unquote(input, i + 2));
    }
  }

  /** Reads a quoted-string in segments between escapes, joined at the end. */
  method ReadQuotedAuthParamValue(input: Text, start: nat) returns (r: Result<Read, Error>)
    requires start <= |input|
    ensures r == Unquote(input, start)
  {
    hide HexValue;
    var i, segmentStart := start, start;
    var escaped := false;
    var parts: Text := [];
    ghost var read: Text := [];
    PrependNothing(Unquote(input, start));
    while i < |input|
      invariant start <= segmentStart <= i <= |input|
      invariant escaped ==> segmentStart == i && start < i && input[i - 1] == BACKSLASH
      invariant read == parts + input[segmentStart..i]
      invariant Taken(input, start, read, if escaped then i - 1 else i)
      decreases |input| - i
    {
      var unit := input[i];
      i := i + 1;
      if escaped {
        assert read == parts + [] == parts;
        TakeEscape(input, start, read, i - 2);
        if unit == LOWER_U && HexAt(input, i) {
          parts := parts + [HexValue(input, i)];
          i := i + 4;
        } else {
          parts := parts + [unit];
        }
        segmentStart := i;
        escaped := false;
        read := parts;
        assert input[i..i] == [];
      } else if unit == BACKSLASH {
        parts := parts + input[segmentStart..i - 1];
        segmentStart := i;
        escaped := true;
        assert input[i..i] == [];
      } else if unit == QUOTE {
        assert input[segmentStart..i - 1] + [] == input[segmentStart..i - 1];
        assert read + [] == read;
        return Ok(Read(parts + input[segmentStart..i - 1], i));
      } else {
        TakeUnit(input, start, read, i - 1);
        read := read + [unit];
        assert input[segmentStart..i] == input[segmentStart..i - 1] + [unit];
      }
    }
    return Err(UnterminatedQuote);
  }

  // ---- Parameters --------------------------------------------------------------

  /** The first place from `i` on whose unit does not satisfy `p`, or the length. */
  function SkipWhile(p: Unit -> bool, input: Text, i: nat): (j: nat)
    requires i <= |input|
    ensures i <= j <= |input| && (forall k :: i <= k < j ==> p(input[k])) && (j < |input| ==> !p(input[j]))
    decreases |input| - i
  {
    if i < |input| && p(input[i]) then SkipWhile(p, input, i + 1) else i
  }

  predicate IsSeparator(u: Unit) {
    IsSpace(u) || u == COMMA
  }

  predicate NotComma(u: Unit) {
    u != COMMA
  }

  function Trim(t: Text): Text {
    var start, end := SkipWhile(IsSpace, t, 0), Boundary(t, |t|) + 1;
    if start <= end then t[start..end] else []
  }

  /** `readAuthParamValue`: a quoted-string, or the trimmed text up to a comma. */
  function ReadValue(input: Text, i: nat): (r: Result<Read, Error>)
    requires i <= |input|
    ensures r.Ok? ==> i <= r.value.next <= |input|
  {
    if i < |input| && input[i] == QUOTE then Unquote(input, i + 1)
    else
      var end := SkipWhile(NotComma, input, i);
      Ok(Read(Trim(input[i..end]), end))
  }

  /** One turn of the parameter loop. */
  datatype Turn = Done | Failed(error: Error) | Parameter(key: Text, value: Text, next: nat)

  /** The parameter at `i`. A token without `=` starts another scheme, and ends the parameters. */
  function ReadParameter(input: Text, i: nat): (turn: Turn)
    requires i <= |input|
    ensures turn.Parameter? ==> i < turn.next <= |input|
  {
    var keyStart := SkipWhile(IsSeparator, input, i);
    if keyStart == |input| then Done
    else
      var keyEnd := SkipWhile(IsKeyUnit, input, keyStart);
      if keyEnd == keyStart then Failed(MalformedParameter)
      else
        var equals := SkipWhile(IsSpace, input, keyEnd);
        if equals == |input| || input[equals] != EQUALS then Done
        else
          var value := ReadValue(input, SkipWhile(IsSpace, input, equals + 1));
          if value.Err? then Failed(value.error)
          else Parameter(Lower(input[keyStart..keyEnd]), value.value.value, value.value.next)
  }

  /** The parameters from `i` on, added to those already read. */
  function ParseParams(input: Text, i: nat, read: map<Text, Text>): Result<map<Text, Text>, Error>
    requires i <= |input|
    decreases |input| - i
  {
    match ReadParameter(input, i)
    case Done => Ok(read)
    case Failed(error) => Err(error)
    case Parameter(key, value, next) =>
      if key in read then Err(DuplicateParameter) else ParseParams(input, next, read[key := value])
  }

  method ReadAuthParamValue(input: Text, start: nat) returns (r: Result<Read, Error>)
    requires start <= |input|
    ensures r == ReadValue(input, start)
  {
    if start < |input| && input[start] == QUOTE {
      r := ReadQuotedAuthParamValue(input, start + 1);
      return;
    }
    var i := start;
    while i < |input| && input[i] != COMMA
      invariant start <= i <= |input| && SkipWhile(NotComma, input, start) == SkipWhile(NotComma, input, i)
    {
      i := i + 1;
    }
    return Ok(Read(Trim(input[start..i]), i));
  }

  method Skip(p: Unit -> bool, input: Text, start: nat) returns (i: nat)
    requires start <= |input|
    ensures i == SkipWhile(p, input, start)
  {
    i := start;
    while i < |input| && p(input[i])
      invariant start <= i <= |input| && SkipWhile(p, input, start) == SkipWhile(p, input, i)
    {
      i := i + 1;
    }
  }

  method ReadAuthParam(input: Text, start: nat) returns (turn: Turn)
    requires start <= |input|
    ensures turn == ReadParameter(input, start)
  {
    hide ReadValue, SkipWhile, Lower, IsSeparator, IsKeyUnit, IsSpace;
    var keyStart := Skip(IsSeparator, input, start);
    if keyStart == |input| { return Done; }
    var keyEnd := Skip(IsKeyUnit, input, keyStart);
    if keyEnd == keyStart { return Failed(MalformedParameter); }
    var equals := Skip(IsSpace, input, keyEnd);
    if equals == |input| || input[equals] != EQUALS { return Done; }
    var valueStart := Skip(IsSpace, input, equals + 1);
    var value := ReadAuthParamValue(input, valueStart);
    if value.Err? { return Failed(value.error); }
    return Parameter(Lower(input[keyStart..keyEnd]), value.value.value, value.value.next);
  }

  method ParseAuthParams(input: Text) returns (r: Result<map<Text, Text>, Error>)
    ensures r == ParseParams(input, 0, map[])
  {
    hide ReadParameter;
    var result: map<Text, Text> := map[];
    var i := 0;
    while true
      invariant 0 <= i <= |input|
      invariant ParseParams(input, 0, map[]) == ParseParams(input, i, result)
      decreases |input| - i
    {
      var turn := ReadAuthParam(input, i);
      match turn {
        case Done => return Ok(result);
        case Failed(error) => return Err(error);
        case Parameter(key, value, next) =>
          if key in result { return Err(DuplicateParameter); }
          result := result[key := value];
          i := next;
      }
    }
  }
}
