/** Lists of challenges in one header value: Payment challenges and any others come back as exactly
    the Payment challenges, in order. */
module ChallengeLists {
  import opened Basics
  import opened Text
  import opened AuthScanners
  import opened ChallengeCodec
  import opened SchemeScan
  import opened ParameterRoundTrip
  import opened ChallengeRoundTrip

  /** A challenge in a header: a Payment challenge with whatever parameters, or one of another scheme. */
  datatype Item = Pay(paid: Paid) | Other(auth: Auth)

  function AuthOf(item: Item): Auth {
    match item
    case Pay(p) => WrittenAs(p)
    case Other(a) => a
  }

  function AuthsOf(items: seq<Item>): (auths: seq<Auth>)
    ensures |auths| == |items|
  {
    if items == [] then [] else [AuthOf(items[0])] + AuthsOf(items[1..])
  }

  predicate WellFormed(items: seq<Item>) {
    forall i :: 0 <= i < |items| ==> if items[i].Pay? then IsPaid(items[i].paid) else IsOther(items[i].auth)
  }

  /** The Payment challenges read back one by one, up to the first that is refused. */
  function Payments<R>(codec: Codec<R>, items: seq<Item>): Result<seq<Challenge<R>>, Error> {
    if items == [] then Ok([])
    else if items[0].Other? then Payments(codec, items[1..])
    else First(FromWritten(codec, items[0].paid), Payments(codec, items[1..]))
  }

  function First<R>(first: Result<Challenge<R>, Error>, rest: Result<seq<Challenge<R>>, Error>): Result<seq<Challenge<R>>, Error> {
    if first.Err? then Err(first.error) else if rest.Err? then rest else Ok([first.value] + rest.value)
  }

  // ---- The end of a chunk --------------------------------------------------------

  /** A challenge ends with a word or a quote, never with white space or a comma. */
  lemma EndOfAuth(a: Auth)
    requires IsAuth(a)
    ensures Render(a) != [] && !IsSeparator(Render(a)[|Render(a)| - 1])
  {
    match a
    case Bare(scheme) => assert scheme[|scheme| - 1] in scheme;
    case Token68(_, token) => assert token[|token| - 1] in token;
    case Params(_, params) => EndOfParams(params);
  }

  lemma {:induction false} EndOfParams(params: seq<Param>)
    requires params != []
    ensures RenderParams(params) != [] && RenderParams(params)[|RenderParams(params)| - 1] == QUOTE
    decreases |params|
  {
    if |params| > 1 {
      EndOfParams(params[1..]);
    }
  }

  lemma {:induction false} EndOfJoin(auths: seq<Auth>)
    requires auths != [] && forall a :: a in auths ==> IsAuth(a)
    ensures Join(auths) != [] && !IsSeparator(Join(auths)[|Join(auths)| - 1])
    decreases |auths|
  {
    hide IsAuth, Render, IsSeparator;
    EndOfAuth(auths[0]);
    if |auths| > 1 {
      EndOfJoin(auths[1..]);
    }
  }

  /** Cutting the comma off a chunk leaves the challenges in it. */
  lemma CutsTheComma(text: Text)
    requires text != [] && !IsSeparator(text[|text| - 1])
    ensures WithoutTrailingComma(text) == text && WithoutTrailingComma(text + BETWEEN) == text
  {
    BoundaryIs(text, |text|, |text| - 1);
    BoundaryIs(text + BETWEEN, |text| + 2, |text|);
    assert (text + BETWEEN)[..|text|] == text;
  }

  // ---- One chunk after another ---------------------------------------------------

  lemma {:induction false} JoinAppend(auths: seq<Auth>, a: Auth)
    requires auths != []
    ensures Join(auths + [a]) == Join(auths) + BETWEEN + Render(a)
    decreases |auths|
  {
    hide Render;
    if |auths| == 1 {
      assert auths + [a] == [auths[0], a] && [auths[0], a][1..] == [a];
    } else {
      var rest := auths[1..];
      assert (auths + [a])[1..] == rest + [a];
      JoinAppend(rest, a);
      JoinStep(auths);
      JoinStep(auths + [a]);
      assert Render(auths[0]) + BETWEEN + (Join(rest) + BETWEEN + Render(a)) == Render(auths[0]) + BETWEEN + Join(rest) + BETWEEN + Render(a);
    }
  }

  /** The challenges written so far in a chunk: a Payment challenge and the others after it. */
  predicate Chunk(value: Text, i: nat, c: Paid, others: seq<Auth>, j: nat) {
    && IsPaid(c) && i <= j <= |value| && value[i..j] == Join([WrittenAs(c)] + others)
    && forall a :: a in others ==> IsOther(a)
  }

  /** A chunk, with or without the ", " after it, deserializes to its Payment challenge. */
  lemma ChunkDeserializes<R>(codec: Codec<R>, value: Text, i: nat, c: Paid, others: seq<Auth>, j: nat)
    requires Chunk(value, i, c, others, j)
    ensures Deserialize(codec, WithoutTrailingComma(value[i..j])) == FromWritten(codec, c)
    ensures At(value, j, BETWEEN) ==> Deserialize(codec, WithoutTrailingComma(value[i..j + 2])) == FromWritten(codec, c)
  {
    hide Deserialize, FromWritten, IsPaid, WithoutTrailingComma, Join, IsAuth, IsPayment, WrittenAs;
    PaidIsAuth(c);
    EndOfJoin([WrittenAs(c)] + others);
    CutsTheComma(value[i..j]);
    DeserializeFirst(codec, c, others);
    if At(value, j, BETWEEN) {
      assert value[j..j + 2] == BETWEEN;
      assert value[i..j + 2] == value[i..j] + BETWEEN;
    }
  }

  /** What follows a chunk: nothing, or ", " and the rest of the items. */
  predicate Follows(value: Text, j: nat, rest: seq<Item>) {
    && j <= |value|
    && value[j..] == if rest == [] then [] else BETWEEN + Join(AuthsOf(rest))
  }

  predicate InOrder(starts: seq<nat>, from: nat, to: nat) {
    && (forall a :: 0 <= a < |starts| ==> from <= starts[a] <= to)
    && (forall a, b :: 0 <= a < b < |starts| ==> starts[a] < starts[b])
  }

  lemma {:induction false} PlacesInOrder(auths: seq<Auth>, p: nat, end: nat)
    requires auths == [] || p + |Join(auths)| <= end
    ensures InOrder(PaymentPlaces(auths, p), p, end)
    decreases |auths|
  {
    hide Render, IsPayment;
    if auths == [] {
      NoPlaces(p);
    } else {
      var next := p + |Render(auths[0])| + 2;
      PaymentPlacesStep(auths, p);
      if |auths| == 1 {
        NoPlaces(next);
      } else {
        JoinStep(auths);
        PlacesInOrder(auths[1..], next, end);
      }
    }
  }

  lemma FollowsStep(value: Text, j: nat, rest: seq<Item>)
    requires Follows(value, j, rest) && rest != []
    ensures var a := AuthOf(rest[0]);
            var next := j + 2 + |Render(a)|;
            && At(value, j, BETWEEN) && next <= |value| && value[j + 2..next] == Render(a)
            && Follows(value, next, rest[1..])
  {
    hide Render, Join, AuthOf;
    var a := AuthOf(rest[0]);
    var tail := Following(AuthsOf(rest[1..]));
    JoinFirst(a, AuthsOf(rest[1..]));
    assert value[j..] == BETWEEN + (Render(a) + tail);
    Slices(value, j, BETWEEN, Render(a) + tail);
    Slices(value, j + 2, Render(a), tail);
  }

  lemma Slices(value: Text, i: nat, a: Text, b: Text)
    requires i <= |value| && value[i..] == a + b
    ensures i + |a| <= |value| && value[i..i + |a|] == a && value[i + |a|..] == b && At(value, i, a)
  {
    assert |value[i..]| == |a| + |b|;
    assert value[i..i + |a|] == value[i..][..|a|] && value[i + |a|..] == value[i..][|a|..];
    forall k | 0 <= k < |a|
      ensures value[i + k] == a[k]
    {
      assert value[i..][k] == (a + b)[k];
    }
  }

  lemma ChunkGrows(value: Text, i: nat, c: Paid, others: seq<Auth>, j: nat, rest: seq<Item>)
    requires Chunk(value, i, c, others, j) && Follows(value, j, rest) && rest != [] && rest[0].Other? && IsOther(rest[0].auth)
    ensures Chunk(value, i, c, others + [rest[0].auth], j + 2 + |Render(rest[0].auth)|)
  {
    hide Render, Join, WrittenAs, IsOther, Follows;
    var a := rest[0].auth;
    var next := j + 2 + |Render(a)|;
    FollowsStep(value, j, rest);
    JoinAppend([WrittenAs(c)] + others, a);
    assert [WrittenAs(c)] + (others + [a]) == [WrittenAs(c)] + others + [a];
    assert value[j..j + 2] == BETWEEN;
    assert value[i..next] == value[i..j] + value[j..j + 2] + value[j + 2..next];
  }

  lemma FollowsInOrder(value: Text, i: nat, j: nat, rest: seq<Item>)
    requires i <= j && Follows(value, j, rest)
    ensures InOrder([i] + PaymentPlaces(AuthsOf(rest), j + 2), i, |value|)
  {
    hide Join;
    assert |value[j..]| == |value| - j;
    PlacesInOrder(AuthsOf(rest), j + 2, |value|);
  }

  /** The list from a chunk on: the chunk's Payment challenge, then those of the rest. */
  lemma {:induction false} DeserializeChunks<R>(codec: Codec<R>, value: Text, i: nat, c: Paid, others: seq<Auth>, j: nat, rest: seq<Item>)
    requires Chunk(value, i, c, others, j) && Follows(value, j, rest) && WellFormed(rest)
    requires InOrder([i] + PaymentPlaces(AuthsOf(rest), j + 2), i, |value|)
    ensures DeserializeFrom(codec, value, [i] + PaymentPlaces(AuthsOf(rest), j + 2))
         == First(FromWritten(codec, c), Payments(codec, rest))
    decreases |rest|
  {
    hide Deserialize, FromWritten, IsPaid, WithoutTrailingComma, Join, Render, Chunk, Follows, IsOther, IsPayment, WrittenAs;
    var auths := AuthsOf(rest);
    var starts := [i] + PaymentPlaces(auths, j + 2);
    ChunkDeserializes(codec, value, i, c, others, j);
    if rest == [] {
      NoPlaces(j + 2);
      WholeRest(value, j);
      assert starts == [i];
    } else {
      var a := AuthOf(rest[0]);
      var next := j + 2 + |Render(a)|;
      FollowsStep(value, j, rest);
      PaymentPlacesStep(auths, j + 2);
      assert auths[1..] == AuthsOf(rest[1..]);
      if rest[0].Other? {
        assert IsOther(rest[0].auth);
        OtherIsNoPayment(rest[0].auth);
        assert starts == [i] + PaymentPlaces(auths[1..], next + 2);
        ChunkGrows(value, i, c, others, j, rest);
        DeserializeChunks(codec, value, i, c, others + [rest[0].auth], next, rest[1..]);
      } else {
        var c' := rest[0].paid;
        PaidIsAuth(c');
        var starts' := [j + 2] + PaymentPlaces(auths[1..], next + 2);
        assert starts == [i] + starts';
        NewChunk(value, j + 2, c', next);
        FollowsInOrder(value, j + 2, next, rest[1..]);
        DeserializeChunks(codec, value, j + 2, c', [], next, rest[1..]);
        FromTwo(codec, value, starts);
      }
    }
  }

  lemma OtherIsNoPayment(a: Auth)
    requires IsOther(a)
    ensures forall i: nat :: OwnPlace(a, i) == []
  {
  }

  lemma WholeRest(value: Text, j: nat)
    requires Follows(value, j, [])
    ensures j == |value|
  {
    assert |value[j..]| == |value| - j;
  }

  lemma NewChunk(value: Text, i: nat, c: Paid, j: nat)
    requires IsPaid(c) && i <= j <= |value| && value[i..j] == Render(WrittenAs(c))
    ensures Chunk(value, i, c, [], j)
  {
    hide Render, WrittenAs;
    JoinFirst(WrittenAs(c), []);
  }

  lemma FromTwo<R>(codec: Codec<R>, value: Text, starts: seq<nat>)
    requires |starts| > 1 && InOrder(starts, starts[0], |value|)
    ensures DeserializeFrom(codec, value, starts)
         == First(Deserialize(codec, WithoutTrailingComma(value[starts[0]..starts[1]])), DeserializeFrom(codec, value, starts[1..]))
  {
    hide Deserialize;
  }

  // ---- The whole header ----------------------------------------------------------

  lemma FollowingFollows(value: Text, j: nat, rest: seq<Item>)
    requires j <= |value| && value[j..] == Following(AuthsOf(rest))
    ensures Follows(value, j, rest)
  {
    hide Join;
  }

  lemma WellFormedStep(items: seq<Item>)
    requires items != [] && WellFormed(items)
    ensures WellFormed(items[1..])
    ensures if items[0].Pay? then IsPaid(items[0].paid) else IsOther(items[0].auth)
  {
    hide IsPaid, IsOther;
  }

  lemma NoStartsLeft<R>(codec: Codec<R>, value: Text)
    ensures DeserializeFrom(codec, value, []) == Ok([])
    ensures AuthsOf([]) == []
  {
  }

  lemma AuthsOfStep(items: seq<Item>)
    requires items != []
    ensures AuthsOf(items)[0] == AuthOf(items[0]) && AuthsOf(items)[1..] == AuthsOf(items[1..])
    ensures AuthsOf(items) == [AuthOf(items[0])] + AuthsOf(items[1..])
  {
  }

  /** Other schemes before the first Payment challenge are skipped. */
  lemma {:induction false} DeserializeAfterOthers<R>(codec: Codec<R>, value: Text, p: nat, items: seq<Item>)
    requires p <= |value| && items != [] && value[p..] == Join(AuthsOf(items)) && WellFormed(items)
    requires InOrder(PaymentPlaces(AuthsOf(items), p), p, |value|)
    ensures DeserializeFrom(codec, value, PaymentPlaces(AuthsOf(items), p)) == Payments(codec, items)
    decreases |items|
  {
    hide Deserialize, DeserializeFrom, FromWritten, IsPaid, Join, Render, IsOther, IsPayment, WrittenAs, Follows, WellFormed, PaymentPlaces, AuthsOf;
    WellFormedStep(items);
    AuthsOfStep(items);
    var a, rest := AuthOf(items[0]), items[1..];
    var next := p + |Render(a)|;
    var tail := Following(AuthsOf(rest));
    JoinFirst(a, AuthsOf(rest));
    Slices(value, p, Render(a), tail);
    PaymentPlacesStep(AuthsOf(items), p);
    FollowingFollows(value, next, rest);
    if items[0].Pay? {
      PaidIsAuth(items[0].paid);
      NewChunk(value, p, items[0].paid, next);
      FollowsInOrder(value, p, next, rest);
      DeserializeChunks(codec, value, p, items[0].paid, [], next, rest);
    } else {
      OtherIsNoPayment(items[0].auth);
      if rest == [] {
        NoPlaces(next + 2);
        NoStartsLeft(codec, value);
      } else {
        var auths := AuthsOf(rest);
        Slices(value, next, BETWEEN, Join(auths));
        assert |value[next + 2..]| == |value| - (next + 2);
        PlacesInOrder(auths, next + 2, |value|);
        assert PaymentPlaces(AuthsOf(items), p) == PaymentPlaces(auths, next + 2);
        DeserializeAfterOthers(codec, value, next + 2, rest);
      }
    }
  }

  lemma {:induction false} AuthsAreWellFormed(items: seq<Item>)
    requires WellFormed(items)
    ensures AllWellFormed(AuthsOf(items))
    decreases |items|
  {
    hide IsAuth, WrittenAs, IsPayment;
    if items != [] {
      if items[0].Pay? {
        PaidIsAuth(items[0].paid);
      }
      AuthsAreWellFormed(items[1..]);
    }
  }

  lemma {:induction false} SomePaymentStarts(items: seq<Item>, k: nat, p: nat)
    requires k < |items| && items[k].Pay? && IsPaid(items[k].paid)
    ensures PaymentPlaces(AuthsOf(items), p) != []
    decreases k
  {
    hide WrittenAs, Render;
    PaymentPlacesStep(AuthsOf(items), p);
    if k == 0 {
      PaidIsAuth(items[0].paid);
    } else {
      SomePaymentStarts(items[1..], k - 1, p + |Render(AuthOf(items[0]))| + 2);
    }
  }

  /** A header of Payment challenges and well-formed challenges of other schemes, in any
      order: `deserializeList` reads exactly the Payment challenges, in order. */
  lemma ReadsExactlyThePayments<R>(codec: Codec<R>, items: seq<Item>)
    requires WellFormed(items) && exists k :: 0 <= k < |items| && items[k].Pay?
    ensures DeserializeList(codec, Join(AuthsOf(items))) == Payments(codec, items)
  {
    hide SchemeStarts, Join, PaymentPlaces, DeserializeFrom, Payments, AllWellFormed;
    var auths := AuthsOf(items);
    var value := Join(auths);
    AuthsAreWellFormed(items);
    ExactlyThePaymentsStart(auths);
    PlacesInOrder(auths, 0, |value|);
    var k :| 0 <= k < |items| && items[k].Pay?;
    SomePaymentStarts(items, k, 0);
    assert value[0..] == value;
    DeserializeAfterOthers(codec, value, 0, items);
  }

  /** A value with other schemes alone is refused: it has no Payment challenge to read. */
  lemma OtherSchemesAreRefused<R>(codec: Codec<R>, auths: seq<Auth>)
    requires forall a :: a in auths ==> IsOther(a)
    ensures Deserialize(codec, Join(auths)) == Err(MissingScheme)
    ensures DeserializeList(codec, Join(auths)) == Err(NoSchemes)
  {
    hide SchemeStarts, Join, ParseParams, FromParams, DeserializeFrom, PaymentPlaces;
    if auths == [] {
      NothingStarts();
    } else {
      assert AllWellFormed(auths);
      ExactlyThePaymentsStart(auths);
      NoPaymentPlaces(auths, 0);
    }
  }

  lemma NothingStarts()
    ensures SchemeStarts(Join([])) == []
  {
  }

  lemma {:induction false} NoPaymentPlaces(auths: seq<Auth>, p: nat)
    requires forall a :: a in auths ==> IsOther(a)
    ensures PaymentPlaces(auths, p) == []
    decreases |auths|
  {
    hide IsOther, Render;
    if auths != [] {
      PaymentPlacesStep(auths, p);
      OtherIsNoPayment(auths[0]);
      NoPaymentPlaces(auths[1..], p + |Render(auths[0])| + 2);
    }
  }

  /** A list that repeats a parameter in one of its Payment challenges is refused. */
  lemma {:induction false} RepeatsRefuseTheList<R>(codec: Codec<R>, items: seq<Item>, k: nat)
    requires k < |items| && items[k].Pay? && !DistinctKeys(items[k].paid.params)
    ensures Payments(codec, items).Err?
    ensures (forall i :: 0 <= i < k && items[i].Pay? ==> FromWritten(codec, items[i].paid).Ok?)
            ==> Payments(codec, items) == Err(DuplicateParameter)
    decreases k
  {
    hide FromWritten, DistinctKeys;
    if k == 0 {
      RepeatedParametersAreRefused(codec, items[0].paid);
    } else {
      assert items[1..][k - 1] == items[k];
      assert forall i :: 0 <= i < k - 1 ==> items[1..][i] == items[i + 1];
      RepeatsRefuseTheList(codec, items[1..], k - 1);
    }
  }

  /** So is the header value: `deserializeList` throws, for the repetition if nothing before it is refused. */
  lemma RepeatedParametersRefuseTheHeader<R>(codec: Codec<R>, items: seq<Item>, k: nat)
    requires WellFormed(items) && k < |items| && items[k].Pay? && !DistinctKeys(items[k].paid.params)
    ensures DeserializeList(codec, Join(AuthsOf(items))).Err?
    ensures (forall i :: 0 <= i < k && items[i].Pay? ==> FromWritten(codec, items[i].paid).Ok?)
            ==> DeserializeList(codec, Join(AuthsOf(items))) == Err(DuplicateParameter)
  {
    hide DeserializeList, Join, FromWritten, DistinctKeys, WellFormed;
    ReadsExactlyThePayments(codec, items);
    RepeatsRefuseTheList(codec, items, k);
  }

  // ---- Printed challenges -----------------------------------------------------------

  /** A challenge offered in a header: a Payment challenge, or one of another scheme as written. */
  datatype Offer<R> = Offered(challenge: Challenge<R>) | Foreign(auth: Auth)

  function ItemOf<R>(codec: Codec<R>, offer: Offer<R>): Item {
    match offer
    case Offered(c) => Pay(PaidOf(codec, c))
    case Foreign(a) => Other(a)
  }

  function ItemsOf<R>(codec: Codec<R>, offers: seq<Offer<R>>): (items: seq<Item>)
    ensures |items| == |offers| && forall i :: 0 <= i < |items| ==> items[i] == ItemOf(codec, offers[i])
  {
    seq(|offers|, i requires 0 <= i < |offers| => ItemOf(codec, offers[i]))
  }

  predicate OthersWellFormed<R>(offers: seq<Offer<R>>) {
    forall i :: 0 <= i < |offers| && offers[i].Foreign? ==> IsOther(offers[i].auth)
  }

  /** The text of one offer. */
  function Printed<R>(codec: Codec<R>, offer: Offer<R>): Result<Text, Error> {
    match offer
    case Offered(c) => Serialize(codec, c)
    case Foreign(a) => Ok(Render(a))
  }

  /** Every offer printed, joined with ", ". */
  function PrintedHeader<R>(codec: Codec<R>, offers: seq<Offer<R>>): Result<Text, Error> {
    if offers == [] then Ok([])
    else
      var first, rest := Printed(codec, offers[0]), PrintedHeader(codec, offers[1..]);
      if first.Err? then first else if rest.Err? then rest
      else Ok(if |offers| == 1 then first.value else first.value + BETWEEN + rest.value)
  }

  lemma {:induction false} PrintedHeaderIsJoin<R>(codec: Codec<R>, offers: seq<Offer<R>>)
    requires PrintedHeader(codec, offers).Ok?
    ensures PrintedHeader(codec, offers).value == Join(AuthsOf(ItemsOf(codec, offers)))
    decreases |offers|
  {
    hide Render, ParamsOf, HasLineBreak;
    if offers != [] {
      PrintedHeaderIsJoin(codec, offers[1..]);
      assert ItemsOf(codec, offers)[1..] == ItemsOf(codec, offers[1..]);
      if |offers| > 1 {
        JoinStep(AuthsOf(ItemsOf(codec, offers)));
      }
    }
  }

  /** The Payment challenges of a list, in normal form. */
  function NormalForms<R>(codec: Codec<R>, offers: seq<Offer<R>>): seq<Challenge<R>> {
    if offers == [] then []
    else if offers[0].Foreign? then NormalForms(codec, offers[1..])
    else [Normalize(codec, offers[0].challenge)] + NormalForms(codec, offers[1..])
  }

  predicate AllValid<R>(codec: Codec<R>, offers: seq<Offer<R>>) {
    forall i :: 0 <= i < |offers| && offers[i].Offered? ==> Valid(codec, offers[i].challenge)
  }

  ghost predicate AllDecode<R>(codec: Codec<R>, offers: seq<Offer<R>>) {
    forall i :: 0 <= i < |offers| && offers[i].Offered? ==>
                  codec.decode(codec.encode(offers[i].challenge.request)) == Some(offers[i].challenge.request)
  }

  lemma {:induction false} PaymentsAreNormal<R>(codec: Codec<R>, offers: seq<Offer<R>>)
    requires AllDecode(codec, offers)
    ensures Payments(codec, ItemsOf(codec, offers)).Ok? <==> AllValid(codec, offers)
    ensures AllValid(codec, offers) ==> Payments(codec, ItemsOf(codec, offers)) == Ok(NormalForms(codec, offers))
    decreases |offers|
  {
    hide FromParams, ReadBack, Valid, Normalize, FromWritten;
    if offers != [] {
      PaymentsAreNormal(codec, offers[1..]);
      assert ItemsOf(codec, offers)[1..] == ItemsOf(codec, offers[1..]);
      if offers[0].Offered? {
        PrintedIsPaid(codec, offers[0].challenge);
        ReadBackIsNormal(codec, offers[0].challenge);
      }
      assert AllValid(codec, offers) <==> (offers[0].Offered? ==> Valid(codec, offers[0].challenge)) && AllValid(codec, offers[1..]) by {
        assert forall i :: 0 < i < |offers| ==> offers[i] == offers[1..][i - 1];
      }
    }
  }

  lemma OffersAreWellFormed<R>(codec: Codec<R>, offers: seq<Offer<R>>)
    requires OthersWellFormed(offers)
    ensures WellFormed(ItemsOf(codec, offers))
    ensures forall k :: 0 <= k < |offers| ==> (offers[k].Offered? <==> ItemsOf(codec, offers)[k].Pay?)
  {
    hide IsPaid, IsOther, PaidOf;
    forall i | 0 <= i < |offers| && offers[i].Offered?
      ensures IsPaid(PaidOf(codec, offers[i].challenge))
    {
      PrintedIsPaid(codec, offers[i].challenge);
    }
  }

  /** The law of the codec. Serialize any offers, join them with ", " and deserialize the list: the
      Payment challenges come back in order and in normal form exactly when all are valid. */
  lemma ListRoundTrip<R>(codec: Codec<R>, offers: seq<Offer<R>>)
    requires OthersWellFormed(offers) && exists k :: 0 <= k < |offers| && offers[k].Offered?
    requires AllDecode(codec, offers) && PrintedHeader(codec, offers).Ok?
    ensures DeserializeList(codec, PrintedHeader(codec, offers).value).Ok? <==> AllValid(codec, offers)
    ensures AllValid(codec, offers) ==> DeserializeList(codec, PrintedHeader(codec, offers).value) == Ok(NormalForms(codec, offers))
  {
    hide DeserializeList, Join, Payments, AllValid, NormalForms, PrintedHeader, WellFormed, AllDecode, AuthsOf;
    PrintedHeaderIsJoin(codec, offers);
    OffersAreWellFormed(codec, offers);
    var items := ItemsOf(codec, offers);
    var k :| 0 <= k < |offers| && offers[k].Offered?;
    assert 0 <= k < |items| && items[k].Pay?;
    ReadsExactlyThePayments(codec, items);
    PaymentsAreNormal(codec, offers);
  }
}
