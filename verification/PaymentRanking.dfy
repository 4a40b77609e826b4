/** Which offers a client prefers (src/internal/AcceptPayment.ts:146-289). q-values are thousandths. */
module PaymentRanking {
  import opened Basics
  import opened Text

  datatype Entry = Entry(methodName: Text, intent: Text, q: nat, index: nat)

  datatype Offer = Offer(methodName: Text, intent: Text)

  const ANY: Text := [STAR]

  predicate Matches(offer: Offer, p: Entry) {
    && (p.methodName == ANY || p.methodName == offer.methodName)
    && (p.intent == ANY || p.intent == offer.intent)
  }

  function Specificity(p: Entry): nat {
    (if p.methodName != ANY then 1 else 0) + (if p.intent != ANY then 1 else 0)
  }

  /** `best` matches, and no matching preference is more specific, or as specific with a greater q. */
  predicate IsBest(offer: Offer, preferences: seq<Entry>, best: Option<Entry>) {
    if best.None? then forall p | p in preferences :: !Matches(offer, p)
    else
      && best.value in preferences
      && Matches(offer, best.value)
      && forall p | p in preferences && Matches(offer, p) ::
           || Specificity(p) < Specificity(best.value)
           || (Specificity(p) == Specificity(best.value) && p.q <= best.value.q)
  }

  method BestMatch(offer: Offer, preferences: seq<Entry>) returns (best: Option<Entry>)
    ensures IsBest(offer, preferences, best)
    ensures best.Some? ==> forall p | p in preferences && Matches(offer, p) &&
              Specificity(p) == Specificity(best.value) && p.q == best.value.q :: best.value.index <= p.index
    ensures Q(offer, preferences) == if best.Some? then best.value.q else 0
  {
    best := None;
    for i := 0 to |preferences|
      invariant IsBest(offer, preferences[..i], best)
      invariant best.Some? ==> forall p | p in preferences[..i] && Matches(offer, p) &&
                  Specificity(p) == Specificity(best.value) && p.q == best.value.q :: best.value.index <= p.index
    {
      var p := preferences[i];
      assert preferences[..i + 1] == preferences[..i] + [p];
      if Matches(offer, p) {
        if || best.None?
           || Specificity(p) > Specificity(best.value)
           || (Specificity(p) == Specificity(best.value) && p.q > best.value.q)
           || (Specificity(p) == Specificity(best.value) && p.q == best.value.q && p.index < best.value.index)
        {
          best := Some(p);
        }
      }
    }
    assert preferences[..|preferences|] == preferences;
    BestQIsUnique(offer, preferences, best, BestOf(offer, preferences));
  }

  lemma {:induction false} BestExists(offer: Offer, preferences: seq<Entry>)
    ensures exists best :: IsBest(offer, preferences, best)
  {
    if preferences == [] {
      assert IsBest(offer, preferences, None);
    } else {
      var last := preferences[|preferences| - 1];
      var before := preferences[..|preferences| - 1];
      assert preferences == before + [last];
      BestExists(offer, before);
      var best :| IsBest(offer, before, best);
      assert IsBest(offer, preferences, best) || IsBest(offer, preferences, Some(last));
    }
  }

  ghost function BestOf(offer: Offer, preferences: seq<Entry>): (best: Option<Entry>)
    ensures IsBest(offer, preferences, best)
  {
    BestExists(offer, preferences);
    var best :| IsBest(offer, preferences, best); best
  }

  /** The weight of an offer: the greatest q among its most specific matching preferences, 0 without any. */
  ghost function Q(offer: Offer, preferences: seq<Entry>): nat {
    var best := BestOf(offer, preferences);
    if best.Some? then best.value.q else 0
  }

  lemma BestQIsUnique(offer: Offer, preferences: seq<Entry>, a: Option<Entry>, b: Option<Entry>)
    requires IsBest(offer, preferences, a) && IsBest(offer, preferences, b)
    ensures a.Some? == b.Some? && (a.Some? ==> a.value.q == b.value.q)
  {
  }

  /** Preferences count as a set: neither their order nor repeating them matters. */
  lemma QIgnoresOrder(offer: Offer, a: seq<Entry>, b: seq<Entry>)
    requires forall p :: p in a <==> p in b
    ensures Q(offer, a) == Q(offer, b)
  {
    BestQIsUnique(offer, a, BestOf(offer, a), BestOf(offer, b));
  }

  /** `q` is the greatest weight among the preferences written as one of `forms`. */
  ghost predicate GreatestOf(preferences: seq<Entry>, forms: set<(Text, Text)>, q: nat) {
    && (exists p :: p in preferences && (p.methodName, p.intent) in forms && p.q == q)
    && (forall p | p in preferences && (p.methodName, p.intent) in forms :: p.q <= q)
  }

  ghost predicate Lists(preferences: seq<Entry>, forms: set<(Text, Text)>) {
    exists p :: p in preferences && (p.methodName, p.intent) in forms
  }

  /** The weight by tiers: the greatest q written for the method and intent by name; else for one of
      them with a wildcard for the other; else for two wildcards; else nothing. */
  lemma WeightByTiers(offer: Offer, preferences: seq<Entry>)
    requires offer.methodName != ANY && offer.intent != ANY
    ensures
      var byName := {(offer.methodName, offer.intent)};
      var half := {(offer.methodName, ANY), (ANY, offer.intent)};
      var wild := {(ANY, ANY)};
      if Lists(preferences, byName) then GreatestOf(preferences, byName, Q(offer, preferences))
      else if Lists(preferences, half) then GreatestOf(preferences, half, Q(offer, preferences))
      else if Lists(preferences, wild) then GreatestOf(preferences, wild, Q(offer, preferences))
      else Q(offer, preferences) == 0
  {
    var best := BestOf(offer, preferences);
    assert forall p | p in preferences && Matches(offer, p) ::
        (Specificity(p) == 2 <==> (p.methodName, p.intent) in {(offer.methodName, offer.intent)})
        && (Specificity(p) == 1 <==> (p.methodName, p.intent) in {(offer.methodName, ANY), (ANY, offer.intent)})
        && (Specificity(p) == 0 <==> (p.methodName, p.intent) in {(ANY, ANY)});
    assert forall p | p in preferences && (p.methodName, p.intent) in
        {(offer.methodName, offer.intent), (offer.methodName, ANY), (ANY, offer.intent), (ANY, ANY)} :: Matches(offer, p);
  }

  // ---- Sorting --------------------------------------------------------------

  /** What a candidate is sorted by, besides its place in the list. */
  datatype Score = Score(protocol: nat, q: nat)

  predicate Before(scores: seq<Score>, i: nat, j: nat)
    requires i < |scores| && j < |scores|
  {
    || scores[i].protocol < scores[j].protocol
    || (scores[i].protocol == scores[j].protocol &&
        (scores[i].q > scores[j].q || (scores[i].q == scores[j].q && i < j)))
  }

  predicate Places(scores: seq<Score>, order: seq<nat>) {
    forall i | 0 <= i < |order| :: order[i] < |scores|
  }

  predicate Sorted(scores: seq<Score>, order: seq<nat>)
    requires Places(scores, order)
  {
    forall i, j | 0 <= i < j < |order| :: Before(scores, order[i], order[j])
  }

  function Insert(scores: seq<Score>, order: seq<nat>, x: nat): (r: seq<nat>)
    requires Places(scores, order) && x < |scores|
    ensures Places(scores, r)
    ensures forall y :: y in r <==> y in order || y == x
  {
    if order == [] then [x]
    else if Before(scores, x, order[0]) then [x] + order
    else [order[0]] + Insert(scores, order[1..], x)
  }

  lemma {:induction false} InsertSorts(scores: seq<Score>, order: seq<nat>, x: nat)
    requires Places(scores, order) && x < |scores|
    requires Sorted(scores, order) && x !in order
    ensures Sorted(scores, Insert(scores, order, x))
  {
    if order != [] && !Before(scores, x, order[0]) {
      InsertSorts(scores, order[1..], x);
      var rest := Insert(scores, order[1..], x);
      forall j | 0 <= j < |rest|
        ensures Before(scores, order[0], rest[j])
      {
        assert rest[j] in rest;
        assert rest[j] != x ==> exists k | 1 <= k < |order| :: order[k] == rest[j];
      }
    }
  }

  /** The list sorted, with ties in list order. */
  function Sort(scores: seq<Score>, list: seq<nat>): (order: seq<nat>)
    requires Places(scores, list)
    ensures Places(scores, order)
    ensures forall y :: y in order <==> y in list
  {
    if list == [] then []
    else Insert(scores, Sort(scores, list[..|list| - 1]), list[|list| - 1])
  }

  lemma {:induction false} SortSorts(scores: seq<Score>, list: seq<nat>)
    requires Places(scores, list)
    requires forall i, j | 0 <= i < j < |list| :: list[i] != list[j]
    ensures Sorted(scores, Sort(scores, list))
  {
    if list != [] {
      SortSorts(scores, list[..|list| - 1]);
      InsertSorts(scores, Sort(scores, list[..|list| - 1]), list[|list| - 1]);
    }
  }

  lemma HeadComesFirst(scores: seq<Score>, order: seq<nat>, x: nat)
    requires Places(scores, order) && Sorted(scores, order) && x in order
    ensures x < |scores| && (x == order[0] || Before(scores, order[0], x))
  {
  }

  lemma EmptyHoldsNothing(order: seq<nat>)
    ensures order == [] <==> forall x :: x !in order
  {
    if order != [] { assert order[0] in order; }
  }

  /** Being sorted and holding the same places leaves no choice. */
  lemma {:induction false} SortedIsUnique(scores: seq<Score>, a: seq<nat>, b: seq<nat>)
    requires Places(scores, a) && Places(scores, b)
    requires Sorted(scores, a) && Sorted(scores, b)
    requires forall x :: x in a <==> x in b
    ensures a == b
  {
    if a == [] || b == [] {
      EmptyHoldsNothing(a);
      EmptyHoldsNothing(b);
    } else {
      HeadComesFirst(scores, b, a[0]);
      HeadComesFirst(scores, a, b[0]);
      forall x
        ensures x in a[1..] <==> x in b[1..]
      {
        assert x in a[1..] ==> Before(scores, a[0], x);
        assert x in b[1..] ==> Before(scores, b[0], x);
        assert x in a <==> x == a[0] || x in a[1..];
        assert x in b <==> x == b[0] || x in b[1..];
      }
      SortedIsUnique(scores, a[1..], b[1..]);
    }
  }

  // ---- Ranking --------------------------------------------------------------

  /** The offers `rank` returns, as places in the list of offers: those of positive weight, by falling
      weight, ties in offer order. */
  ghost predicate IsRanking(offers: seq<Offer>, preferences: seq<Entry>, ranking: seq<nat>) {
    && (forall i :: i in ranking <==> 0 <= i < |offers| && Q(offers[i], preferences) > 0)
    && (forall a, b | 0 <= a < b < |ranking| && ranking[a] < |offers| && ranking[b] < |offers| ::
          var first := Q(offers[ranking[a]], preferences);
          var second := Q(offers[ranking[b]], preferences);
          first > second || (first == second && ranking[a] < ranking[b]))
  }

  /** The offers at the places of the ranking. */
  ghost predicate Ranks(offers: seq<Offer>, preferences: seq<Entry>, ranked: seq<Offer>, ranking: seq<nat>) {
    && IsRanking(offers, preferences, ranking)
    && |ranked| == |ranking|
    && forall k | 0 <= k < |ranked| :: ranking[k] < |offers| && ranked[k] == offers[ranking[k]]
  }

  method Rank(offers: seq<Offer>, preferences: seq<Entry>) returns (ranked: seq<Offer>)
    ensures exists ranking :: Ranks(offers, preferences, ranked, ranking)
  {
    var scores: seq<Score> := [];
    var kept: seq<nat> := [];
    for i := 0 to |offers|
      invariant |scores| == i
      invariant forall k | 0 <= k < i :: scores[k] == Score(0, Q(offers[k], preferences))
      invariant forall k :: k in kept <==> 0 <= k < i && Q(offers[k], preferences) > 0
      invariant forall k | 0 <= k < |kept| :: kept[k] < i
      invariant forall j, k | 0 <= j < k < |kept| :: kept[j] < kept[k]
    {
      var best := BestMatch(offers[i], preferences);
      scores := scores + [Score(0, if best.Some? then best.value.q else 0)];
      if best.Some? && best.value.q > 0 { kept := kept + [i]; }
    }
    var order := Sort(scores, kept);
    SortSorts(scores, kept);
    ranked := seq(|order|, k requires 0 <= k < |order| => offers[order[k]]);
    assert Ranks(offers, preferences, ranked, order);
  }

  lemma RankingIsSorted(offers: seq<Offer>, preferences: seq<Entry>, ranking: seq<nat>, scores: seq<Score>)
    requires IsRanking(offers, preferences, ranking)
    requires |scores| == |offers|
    requires forall i | 0 <= i < |offers| :: scores[i] == Score(0, Q(offers[i], preferences))
    ensures Places(scores, ranking) && Sorted(scores, ranking)
  {
    hide Q;
    assert forall k | 0 <= k < |ranking| :: ranking[k] in ranking;
  }

  /** There is one ranking, whatever the order of the preferences. */
  lemma RankingIgnoresPreferenceOrder(offers: seq<Offer>, a: seq<Entry>, b: seq<Entry>, x: seq<nat>, y: seq<nat>)
    requires forall p :: p in a <==> p in b
    requires IsRanking(offers, a, x) && IsRanking(offers, b, y)
    ensures x == y
  {
    hide Q;
    forall i | 0 <= i < |offers|
      ensures Q(offers[i], a) == Q(offers[i], b)
    {
      QIgnoresOrder(offers[i], a, b);
    }
    var scores := seq(|offers|, i requires 0 <= i < |offers| => Score(0, Q(offers[i], a)));
    RankingIsSorted(offers, a, x, scores);
    RankingIsSorted(offers, b, y, scores);
    assert forall i :: i in x <==> i in y;
    hide IsRanking;
    SortedIsUnique(scores, x, y);
  }

  /** The documented opt-out: an exact preference with q 0 keeps an offer out, whatever the wildcards say. */
  lemma ExactOptOutWins(offers: seq<Offer>, preferences: seq<Entry>, ranking: seq<nat>, i: nat)
    requires IsRanking(offers, preferences, ranking) && i < |offers|
    requires offers[i].methodName != ANY && offers[i].intent != ANY
    requires exists p :: p in preferences && p.methodName == offers[i].methodName && p.intent == offers[i].intent
    requires forall p | p in preferences && p.methodName == offers[i].methodName && p.intent == offers[i].intent :: p.q == 0
    ensures i !in ranking
  {
    var best := BestOf(offers[i], preferences);
    var p :| p in preferences && p.methodName == offers[i].methodName && p.intent == offers[i].intent;
    assert Matches(offers[i], p) && Specificity(p) == 2;
    assert best.Some? && Specificity(best.value) == 2;
  }
}
