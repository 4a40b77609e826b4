/** Pairing offered challenges with the client methods that can sign them
    (src/internal/AcceptPayment.ts:190-246, 287-289). */
module ChallengeSelection {
  import opened Basics
  import opened Text
  import opened PaymentRanking

  /** A challenge offers a payment; x402 challenges rank behind the protocol's own. */
  datatype Challenge = Challenge(offer: Offer, isX402: bool)

  /** A configured method and the challenges, by place, it would handle. */
  datatype Signer = Signer(name: Text, intent: Text, handles: nat -> bool)

  /** Places of a challenge and of the method that signs it. */
  datatype Candidate = Candidate(challenge: nat, signer: nat)

  /** `keyOf` throws this for a nameless value. */
  datatype Nameless = Nameless

  function KeyOf(name: Text, intent: Text): Text {
    name + [SLASH] + intent
  }

  predicate SameKey(offer: Offer, signer: Signer) {
    KeyOf(signer.name, signer.intent) == KeyOf(offer.methodName, offer.intent)
  }

  /** Keys match by method and intent: no name holds a slash. */
  lemma KeysMatchByName(offer: Offer, signer: Signer)
    requires SLASH !in offer.methodName && SLASH !in signer.name
    ensures SameKey(offer, signer) <==> offer.methodName == signer.name && offer.intent == signer.intent
  {
    var a, b := KeyOf(signer.name, signer.intent), KeyOf(offer.methodName, offer.intent);
    if a == b {
      FirstSlash(signer.name, signer.intent);
      FirstSlash(offer.methodName, offer.intent);
      assert signer.name == a[..|signer.name|] && offer.methodName == b[..|offer.methodName|];
      assert signer.intent == a[|signer.name| + 1..] && offer.intent == b[|offer.methodName| + 1..];
    }
  }

  lemma FirstSlash(name: Text, intent: Text)
    requires SLASH !in name
    ensures IndexOf(KeyOf(name, intent), SLASH, 0) == |name|
  {
    var key := KeyOf(name, intent);
    assert key[|name|] == SLASH;
    assert forall k :: 0 <= k < |name| ==> key[k] == name[k] && name[k] in name;
  }

  function ProtocolRank(c: Challenge): nat {
    if c.isX402 then 1 else 0
  }

  ghost function ScoreOf(c: Challenge, preferences: seq<Entry>): Score {
    Score(ProtocolRank(c), Q(c.offer, preferences))
  }

  /** A pair that may be offered: same key, positive weight, and a method that handles the challenge. */
  ghost predicate Eligible(challenges: seq<Challenge>, signers: seq<Signer>, preferences: seq<Entry>, c: Candidate) {
    && c.challenge < |challenges| && c.signer < |signers|
    && SameKey(challenges[c.challenge].offer, signers[c.signer])
    && Q(challenges[c.challenge].offer, preferences) > 0
    && signers[c.signer].handles(c.challenge)
  }

  /** Native before x402, then by falling weight, then as offered, then as configured. */
  ghost predicate Precedes(challenges: seq<Challenge>, preferences: seq<Entry>, a: Candidate, b: Candidate)
    requires a.challenge < |challenges| && b.challenge < |challenges|
  {
    var x := ScoreOf(challenges[a.challenge], preferences);
    var y := ScoreOf(challenges[b.challenge], preferences);
    || x.protocol < y.protocol
    || (x.protocol == y.protocol && x.q > y.q)
    || (x == y && a.challenge < b.challenge)
    || (a.challenge == b.challenge && a.signer < b.signer)
  }

  type SignersByKey = map<Text, seq<nat>>

  /** The places, in order, of those of the first `n` signers that have a key. */
  ghost predicate IsGroup(signers: seq<Signer>, n: nat, key: Text, group: seq<nat>)
    requires n <= |signers|
  {
    && (forall i: nat :: i in group <==> (i < n && KeyOf(signers[i].name, signers[i].intent) == key))
    && (forall a | 0 <= a < |group| :: group[a] < n)
    && (forall a, b | 0 <= a < b < |group| :: group[a] < group[b])
  }

  ghost predicate Grouped(signers: seq<Signer>, n: nat, groups: SignersByKey)
    requires n <= |signers|
  {
    forall key :: IsGroup(signers, n, key, if key in groups then groups[key] else [])
  }

  lemma GroupOneMore(signers: seq<Signer>, n: nat, key: Text, group: seq<nat>)
    requires n < |signers| && IsGroup(signers, n, key, group)
    ensures IsGroup(signers, n + 1, key,
                    if KeyOf(signers[n].name, signers[n].intent) == key then group + [n] else group)
  {
    hide KeyOf;
  }

  method GroupSigners(signers: seq<Signer>) returns (groups: Result<SignersByKey, Nameless>)
    ensures groups.Ok? <==> forall i | 0 <= i < |signers| :: signers[i].name != []
    ensures groups.Ok? ==> Grouped(signers, |signers|, groups.value)
  {
    hide IsGroup;
    var methodsByKey: SignersByKey := map[];
    NoGroups(signers);
    for i := 0 to |signers|
      invariant forall k | 0 <= k < i :: signers[k].name != []
      invariant Grouped(signers, i, methodsByKey)
    {
      if signers[i].name == [] { return Err(Nameless); }
      var key := KeyOf(signers[i].name, signers[i].intent);
      ghost var before := methodsByKey;
      if key in methodsByKey {
        methodsByKey := methodsByKey[key := methodsByKey[key] + [i]];
      } else {
        methodsByKey := methodsByKey[key := [i]];
      }
      forall k
        ensures IsGroup(signers, i + 1, k, if k in methodsByKey then methodsByKey[k] else [])
      {
        GroupOneMore(signers, i, k, if k in before then before[k] else []);
        assert [] + [i as nat] == [i as nat];
      }
    }
    return Ok(methodsByKey);
  }

  lemma NoGroups(signers: seq<Signer>)
    ensures Grouped(signers, 0, map[])
  {
  }

  ghost predicate ListOrder(candidates: seq<Candidate>) {
    forall i, j | 0 <= i < j < |candidates| ::
      candidates[i].challenge < candidates[j].challenge
      || (candidates[i].challenge == candidates[j].challenge && candidates[i].signer < candidates[j].signer)
  }

  /** The candidates of the first `n` challenges, in list order, with what each is sorted by. */
  ghost predicate Listed(challenges: seq<Challenge>, signers: seq<Signer>, preferences: seq<Entry>, n: nat,
                         candidates: seq<Candidate>, scores: seq<Score>)
  {
    && ListOrder(candidates)
    && (forall c :: c in candidates <==> c.challenge < n && Eligible(challenges, signers, preferences, c))
    && |scores| == |candidates|
    && (forall i | 0 <= i < |candidates| ::
          && candidates[i].challenge < |challenges|
          && scores[i] == ScoreOf(challenges[candidates[i].challenge], preferences))
  }

  /** The candidates of one challenge, after those of the challenges before it. */
  method AddCandidates(challenges: seq<Challenge>, signers: seq<Signer>, preferences: seq<Entry>, at: nat,
                       matching: seq<nat>, q: nat, givenCandidates: seq<Candidate>, givenScores: seq<Score>)
    returns (candidates: seq<Candidate>, scores: seq<Score>)
    requires at < |challenges|
    requires forall i: nat :: i in matching <==> (i < |signers| && SameKey(challenges[at].offer, signers[i]))
    requires forall a, b | 0 <= a < b < |matching| :: matching[a] < matching[b]
    requires q == Q(challenges[at].offer, preferences) > 0
    requires Listed(challenges, signers, preferences, at, givenCandidates, givenScores)
    ensures Listed(challenges, signers, preferences, at + 1, candidates, scores)
  {
    hide Q, SameKey, KeyOf, ProtocolRank;
    candidates, scores := givenCandidates, givenScores;
    for k := 0 to |matching|
      invariant forall c :: c in candidates <==>
                  (c in givenCandidates
                   || (c.challenge == at && c.signer < |signers| && c.signer in matching[..k] && signers[c.signer].handles(at)))
      invariant forall i | 0 <= i < |candidates| ::
                  candidates[i].challenge < at
                  || (candidates[i].challenge == at && exists j | 0 <= j < k :: matching[j] == candidates[i].signer)
      invariant ListOrder(candidates)
      invariant |scores| == |candidates|
      invariant forall i | 0 <= i < |candidates| ::
                  && candidates[i].challenge < |challenges|
                  && scores[i] == ScoreOf(challenges[candidates[i].challenge], preferences)
    {
      assert matching[k] in matching;
      assert matching[..k + 1] == matching[..k] + [matching[k]];
      if signers[matching[k]].handles(at) {
        candidates := candidates + [Candidate(at, matching[k])];
        scores := scores + [Score(ProtocolRank(challenges[at]), q)];
      }
    }
    assert matching[..|matching|] == matching;
  }

  /** The sort, by places in the list. */
  method SortCandidates(challenges: seq<Challenge>, signers: seq<Signer>, preferences: seq<Entry>,
                        candidates: seq<Candidate>, scores: seq<Score>)
    returns (selected: seq<Candidate>)
    requires Listed(challenges, signers, preferences, |challenges|, candidates, scores)
    ensures forall c :: c in selected <==> c in candidates
    ensures InOrder(challenges, preferences, selected)
  {
    var list := seq(|candidates|, i requires 0 <= i < |candidates| => i as nat);
    var order := Sort(scores, list);
    SortSorts(scores, list);
    selected := seq(|order|, k requires 0 <= k < |order| => candidates[order[k]]);
    forall c
      ensures c in selected <==> c in candidates
    {
      if c in candidates {
        var i :| 0 <= i < |candidates| && candidates[i] == c;
        assert list[i] in list && i in order;
        var k :| 0 <= k < |order| && order[k] == i;
        assert selected[k] == c;
      }
    }
    forall i, j | 0 <= i < j < |selected|
      ensures selected[i].challenge < |challenges| && selected[j].challenge < |challenges|
      ensures Precedes(challenges, preferences, selected[i], selected[j])
    {
      assert Before(scores, order[i], order[j]);
    }
  }

  ghost predicate InOrder(challenges: seq<Challenge>, preferences: seq<Entry>, selected: seq<Candidate>) {
    forall i, j | 0 <= i < j < |selected| ::
      && selected[i].challenge < |challenges| && selected[j].challenge < |challenges|
      && Precedes(challenges, preferences, selected[i], selected[j])
  }

  /** Exactly the eligible pairs, in order; it throws only for a nameless method or challenge. */
  method SelectCandidates(challenges: seq<Challenge>, signers: seq<Signer>, preferences: seq<Entry>)
    returns (selected: Result<seq<Candidate>, Nameless>)
    ensures selected.Err? <==>
              || (exists i :: 0 <= i < |signers| && signers[i].name == [])
              || (exists i :: 0 <= i < |challenges| && challenges[i].offer.methodName == [])
    ensures selected.Ok? ==> forall c :: c in selected.value <==> Eligible(challenges, signers, preferences, c)
    ensures selected.Ok? ==> InOrder(challenges, preferences, selected.value)
  {
    hide Q;
    var groups := GroupSigners(signers);
    if groups.Err? { return Err(Nameless); }
    var candidates: seq<Candidate> := [];
    var scores: seq<Score> := [];
    for i := 0 to |challenges|
      invariant forall k | 0 <= k < i :: challenges[k].offer.methodName != []
      invariant Listed(challenges, signers, preferences, i, candidates, scores)
    {
      var offer := challenges[i].offer;
      if offer.methodName == [] { return Err(Nameless); }
      var key := KeyOf(offer.methodName, offer.intent);
      var best := BestMatch(offer, preferences);
      assert IsGroup(signers, |signers|, key, if key in groups.value then groups.value[key] else []);
      if key in groups.value && best.Some? && best.value.q > 0 {
        candidates, scores := AddCandidates(challenges, signers, preferences, i, groups.value[key], best.value.q,
                                            candidates, scores);
      }
    }
    var sorted := SortCandidates(challenges, signers, preferences, candidates, scores);
    return Ok(sorted);
  }

  /** Native challenges come before x402 ones. */
  lemma NativeComesFirst(challenges: seq<Challenge>, preferences: seq<Entry>, selected: seq<Candidate>, i: nat, j: nat)
    requires InOrder(challenges, preferences, selected)
    requires i < |selected| && j < |selected| && i != j
    requires selected[i].challenge < |challenges| && selected[j].challenge < |challenges|
    requires !challenges[selected[i].challenge].isX402 && challenges[selected[j].challenge].isX402
    ensures i < j
  {
  }
}
