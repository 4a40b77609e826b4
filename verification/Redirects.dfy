/** Following redirects while preparing a payment request, without identity provers
    (src/client/Mppx.ts:648-754, 775-809; section 15.4 of RFC 9110). */
module Redirects {
  import opened Basics
  import opened Text

  type Origin(==, !new)

  datatype Url = Url(https: bool, origin: Origin, href: Text)

  /** Header names are in lower case, as `Headers` keeps them. */
  type Headers = map<Text, Text>

  datatype Body = TextBody(text: Text) | BytesBody(id: nat)

  datatype Request = Request(url: Url, methodName: Text, headers: Headers, body: Option<Body>)

  datatype Response = Response(hidden: bool, status: int, location: Option<Text>)

  const GET := Ascii("GET")
  const HEAD := Ascii("HEAD")
  const POST := Ascii("POST")
  const ACCEPT_PAYMENT := Ascii("accept-payment")
  const PAYMENT_SCHEME := Ascii("Payment ")

  const REDIRECT_STATUSES := {301, 302, 303, 307, 308}

  const BODY_HEADERS := [
    Ascii("content-encoding"), Ascii("content-language"), Ascii("content-length"),
    Ascii("content-location"), Ascii("content-type"), Ascii("transfer-encoding")]

  const CROSS_ORIGIN_HEADERS := [
    Ascii("authorization"), Ascii("cookie"), Ascii("cookie2"), Ascii("host"), Ascii("payment-authorization"),
    Ascii("payment-signature"), Ascii("proxy-authorization"), Ascii("x-payment")]

  /** What the caller supplies: the `Accept-Payment` value and where its policy injects it, the bound,
      and how a location resolves against the URL it came from (`None` when it is no valid URL). */
  datatype Config = Config(
    acceptPayment: Text,
    injects: Url -> bool,
    maxRedirects: int,
    resolve: (Text, Url) -> Option<Url>)

  datatype Redirect = Redirect(from: Url, status: int, to: Url)

  datatype Failure = InvalidBound | HiddenRedirect | TooManyRedirects | Downgrade | InvalidLocation

  /** The last request and its response, or why preparing stopped. */
  datatype Outcome =
    | Prepared(request: Request, response: Response)
    | Failed(failure: Failure)

  // ---- One redirect ---------------------------------------------------------

  function WithAcceptPayment(c: Config, explicit: bool, r: Request): Request {
    if explicit then r
    else
      var headers := r.headers - {ACCEPT_PAYMENT};
      r.(headers := if c.acceptPayment != [] && c.injects(r.url)
                    then headers[ACCEPT_PAYMENT := c.acceptPayment] else headers)
  }

  predicate SwitchesToGet(status: int, methodName: Text) {
    || ((status == 301 || status == 302) && methodName == POST)
    || (status == 303 && methodName != GET && methodName != HEAD)
  }

  /** A header that does not cross origins. */
  predicate IsCredential(name: Text, value: Text) {
    name in CROSS_ORIGIN_HEADERS || PAYMENT_SCHEME <= value
  }

  function Uncredentialed(headers: Headers): Headers {
    map name | name in headers && !IsCredential(name, headers[name]) :: headers[name]
  }

  /** An empty text body is no body. */
  function Carried(body: Option<Body>): Option<Body> {
    if body == Some(TextBody([])) then None else body
  }

  function Redirected(r: Request, status: int, to: Url): Request {
    var switches := SwitchesToGet(status, r.methodName);
    var headers := if switches then r.headers - (set name | name in BODY_HEADERS) else r.headers;
    Request(
      to,
      if switches then GET else r.methodName,
      if r.url.origin != to.origin then Uncredentialed(headers) else headers,
      if switches then None else Carried(r.body))
  }

  predicate IsRedirect(answer: Response) {
    answer.status in REDIRECT_STATUSES && answer.location.Some? && answer.location.value != []
  }

  /** Where a response leads a request that may still follow it. */
  function Target(c: Config, r: Request, answer: Response): Result<Url, Outcome> {
    if answer.hidden || answer.status == 0 then Err(Failed(HiddenRedirect))
    else if !IsRedirect(answer) then Err(Prepared(r, answer))
    else
      var to := c.resolve(answer.location.value, r.url);
      if to.None? then Err(Failed(InvalidLocation))
      else if r.url.https && !to.value.https then Err(Failed(Downgrade))
      else Ok(to.value)
  }

  // ---- The loop -------------------------------------------------------------

  /** The answer makes the loop follow one request with another. */
  predicate Leads(c: Config, explicit: bool, r: Request, answer: Response, next: Request) {
    var to := Target(c, r, answer);
    to.Ok? && next == WithAcceptPayment(c, explicit, Redirected(r, answer.status, to.value))
  }

  predicate Answered(server: seq<Request> -> Response, sent: seq<Request>, answers: seq<Response>) {
    |answers| == |sent| && forall i | 0 <= i < |sent| :: answers[i] == server(sent[..i + 1])
  }

  lemma AnsweredOneMore(server: seq<Request> -> Response, sent: seq<Request>, answers: seq<Response>, request: Request)
    requires Answered(server, sent, answers)
    ensures Answered(server, sent + [request], answers + [server(sent + [request])])
  {
    var longer := sent + [request];
    forall i | 0 <= i < |longer|
      ensures (answers + [server(longer)])[i] == server(longer[..i + 1])
    {
      assert longer[..i + 1] == if i < |sent| then sent[..i + 1] else longer;
    }
  }

  /** The requests sent so far: each leads to the next by the answer it got. */
  ghost predicate Follows(c: Config, explicit: bool, sent: seq<Request>, answers: seq<Response>) {
    && |answers| <= |sent| <= |answers| + 1
    && forall i | 0 <= i < |sent| - 1 :: Leads(c, explicit, sent[i], answers[i], sent[i + 1])
  }

  /** How the loop ends, by the last request, its answer and the redirects followed before. */
  ghost predicate Ends(c: Config, last: Request, answer: Response, followed: nat, outcome: Outcome) {
    if outcome == Failed(TooManyRedirects)
    then followed == c.maxRedirects && !answer.hidden && answer.status != 0 && IsRedirect(answer)
    else Target(c, last, answer) == Err(outcome)
  }

  lemma FollowsOneMore(c: Config, explicit: bool, sent: seq<Request>, answers: seq<Response>, answer: Response, next: Request)
    requires |sent| == |answers| + 1 && Follows(c, explicit, sent, answers)
    requires Leads(c, explicit, sent[|answers|], answer, next)
    ensures Follows(c, explicit, sent + [next], answers + [answer])
  {
    hide Leads;
  }

  lemma TargetCases(c: Config, r: Request, answer: Response)
    ensures answer.hidden || answer.status == 0 ==> Target(c, r, answer) == Err(Failed(HiddenRedirect))
    ensures !answer.hidden && answer.status != 0 && !IsRedirect(answer) ==> Target(c, r, answer) == Err(Prepared(r, answer))
    ensures !answer.hidden && answer.status != 0 && IsRedirect(answer) ==>
              var to := Resolve(c, answer, r.url);
              Target(c, r, answer) == if to.None? then Err(Failed(InvalidLocation))
                                      else if r.url.https && !to.value.https then Err(Failed(Downgrade))
                                      else Ok(to.value)
  {
  }

  lemma LeadsTo(c: Config, explicit: bool, r: Request, answer: Response, to: Url)
    requires Target(c, r, answer) == Ok(to)
    ensures
      var next := WithAcceptPayment(c, explicit, Redirected(r, answer.status, to));
      Leads(c, explicit, r, answer, next) && next.url == to
  {
  }

  method DropCredentials(given: Headers) returns (headers: Headers)
    ensures headers == Uncredentialed(given)
  {
    headers := given;
    var names := given.Keys;
    while names != {}
      invariant names <= given.Keys
      invariant headers == map name | name in given && (name in names || !IsCredential(name, given[name])) :: given[name]
      decreases |names|
    {
      var name :| name in names;
      if name in CROSS_ORIGIN_HEADERS || PAYMENT_SCHEME <= headers[name] { headers := headers - {name}; }
      names := names - {name};
    }
  }

  method DropBodyHeaders(given: Headers) returns (headers: Headers)
    ensures headers == given - (set name | name in BODY_HEADERS)
  {
    headers := given;
    for i := 0 to |BODY_HEADERS|
      invariant headers == given - (set name | name in BODY_HEADERS[..i])
    {
      assert BODY_HEADERS[..i + 1] == BODY_HEADERS[..i] + [BODY_HEADERS[i]];
      headers := headers - {BODY_HEADERS[i]};
    }
    assert BODY_HEADERS[..|BODY_HEADERS|] == BODY_HEADERS;
  }

  /** The next request, step by step. */
  method FollowTo(r: Request, status: int, to: Url) returns (next: Request)
    ensures next == Redirected(r, status, to)
  {
    var headers := r.headers;
    var methodName := r.methodName;
    var body := r.body;
    if SwitchesToGet(status, methodName) {
      methodName := GET;
      body := None;
      headers := DropBodyHeaders(headers);
    }
    if r.url.origin != to.origin { headers := DropCredentials(headers); }
    next := Request(to, methodName, headers, Carried(body));
  }

  function Resolve(c: Config, answer: Response, from: Url): Option<Url>
    requires IsRedirect(answer)
  {
    c.resolve(answer.location.value, from)
  }

  /** The reported redirects are the hops between the requests sent. */
  ghost predicate Recorded(redirects: seq<Redirect>, sent: seq<Request>, answers: seq<Response>) {
    && |redirects| + 1 == |sent| && |redirects| <= |answers|
    && forall i | 0 <= i < |redirects| :: redirects[i] == Redirect(sent[i].url, answers[i].status, sent[i + 1].url)
  }

  lemma RecordedAnswered(redirects: seq<Redirect>, sent: seq<Request>, answers: seq<Response>, answer: Response)
    requires Recorded(redirects, sent, answers)
    ensures Recorded(redirects, sent, answers + [answer])
  {
  }

  lemma RecordedOneMore(redirects: seq<Redirect>, sent: seq<Request>, answers: seq<Response>, next: Request)
    requires Recorded(redirects, sent, answers) && |answers| == |sent|
    ensures
      var last := |sent| - 1;
      Recorded(redirects + [Redirect(sent[last].url, answers[last].status, next.url)], sent + [next], answers)
  {
  }

  lemma Nothing(server: seq<Request> -> Response, request: Request)
    ensures Answered(server, [], []) && Recorded([], [request], [])
  {
  }

  /** The whole loop, against any server: it answers with what it makes of the requests so far. */
  method Prepare(c: Config, first: Request, server: seq<Request> -> Response)
    returns (outcome: Outcome, sent: seq<Request>, answers: seq<Response>, redirects: seq<Redirect>)
    ensures c.maxRedirects < 0 ==> outcome == Failed(InvalidBound) && sent == []
    ensures c.maxRedirects >= 0 ==> 1 <= |sent| <= c.maxRedirects + 1 && Answered(server, sent, answers)
    ensures c.maxRedirects >= 0 ==>
              var explicit := ACCEPT_PAYMENT in first.headers;
              sent[0] == WithAcceptPayment(c, explicit, first) && Follows(c, explicit, sent, answers)
    ensures c.maxRedirects >= 0 ==> Ends(c, sent[|sent| - 1], answers[|sent| - 1], |sent| - 1, outcome)
    ensures outcome.Prepared? ==> Recorded(redirects, sent, answers)
  {
    hide Target, Redirected, Leads, Answered, WithAcceptPayment, Recorded;
    sent, answers, redirects := [], [], [];
    if c.maxRedirects < 0 { return Failed(InvalidBound), sent, answers, redirects; }
    var explicit := ACCEPT_PAYMENT in first.headers;
    var request := WithAcceptPayment(c, explicit, first);
    Nothing(server, request);
    assert sent + [request] == [request];
    while true
      invariant |sent| == |answers| == |redirects| <= c.maxRedirects
      invariant Answered(server, sent, answers)
      invariant Follows(c, explicit, sent + [request], answers)
      invariant (sent + [request])[0] == WithAcceptPayment(c, explicit, first)
      invariant Recorded(redirects, sent + [request], answers)
      decreases c.maxRedirects - |redirects|
    {
      ghost var before := answers;
      AnsweredOneMore(server, sent, answers, request);
      sent := sent + [request];
      var answer := server(sent);
      answers := answers + [answer];
      RecordedAnswered(redirects, sent, before, answer);
      TargetCases(c, request, answer);
      if answer.hidden || answer.status == 0 { return Failed(HiddenRedirect), sent, answers, redirects; }
      if answer.status !in REDIRECT_STATUSES { return Prepared(request, answer), sent, answers, redirects; }
      if answer.location.None? || answer.location.value == [] {
        return Prepared(request, answer), sent, answers, redirects;
      }
      if |redirects| >= c.maxRedirects { return Failed(TooManyRedirects), sent, answers, redirects; }
      var resolved := Resolve(c, answer, request.url);
      if resolved.None? { return Failed(InvalidLocation), sent, answers, redirects; }
      var to := resolved.value;
      if request.url.https && !to.https { return Failed(Downgrade), sent, answers, redirects; }
      var next := FollowTo(request, answer.status, to);
      LeadsTo(c, explicit, request, answer, to);
      FollowsOneMore(c, explicit, sent, before, answer, WithAcceptPayment(c, explicit, next));
      RecordedOneMore(redirects, sent, answers, WithAcceptPayment(c, explicit, next));
      redirects := redirects + [Redirect(request.url, answer.status, to)];
      request := WithAcceptPayment(c, explicit, next);
    }
  }

  // ---- Safety of whole redirect runs ----------------------------------------

  /** Once on https, every later request is. */
  lemma {:induction false} HttpsIsNeverLeft(c: Config, explicit: bool, sent: seq<Request>, answers: seq<Response>, i: nat, j: nat)
    requires Follows(c, explicit, sent, answers)
    requires i <= j < |sent| && sent[i].url.https
    ensures sent[j].url.https
  {
    if i < j { HttpsIsNeverLeft(c, explicit, sent, answers, i, j - 1); }
  }

  /** No credential, apart from an `Accept-Payment` this loop injects itself. */
  ghost predicate NoCredentials(explicit: bool, headers: Headers) {
    && (forall name | name in CROSS_ORIGIN_HEADERS :: name !in headers)
    && (forall name | name in headers && (explicit || name != ACCEPT_PAYMENT) :: !(PAYMENT_SCHEME <= headers[name]))
  }

  lemma HopStripsCredentials(c: Config, explicit: bool, r: Request, answer: Response, next: Request)
    requires Leads(c, explicit, r, answer, next)
    requires r.url.origin != next.url.origin || NoCredentials(explicit, r.headers)
    ensures NoCredentials(explicit, next.headers)
  {
    AcceptPaymentIsNoListedHeader();
  }

  lemma AcceptPaymentIsNoListedHeader()
    ensures ACCEPT_PAYMENT !in CROSS_ORIGIN_HEADERS && ACCEPT_PAYMENT !in BODY_HEADERS
  {
    assert ACCEPT_PAYMENT[..3] == [0x61, 0x63, 0x63];
    assert forall i | 0 <= i < |CROSS_ORIGIN_HEADERS| :: CROSS_ORIGIN_HEADERS[i][1] != 0x63;
    assert forall i | 0 <= i < |BODY_HEADERS| :: BODY_HEADERS[i][1] != 0x63;
  }

  /** After the first hop to another origin, no request carries the listed credential headers or a
      value of the Payment scheme. */
  lemma {:induction false} CredentialsStayBehind(c: Config, explicit: bool, sent: seq<Request>, answers: seq<Response>,
                                                 hop: nat, j: nat)
    requires Follows(c, explicit, sent, answers)
    requires hop < j < |sent| && sent[hop].url.origin != sent[hop + 1].url.origin
    ensures NoCredentials(explicit, sent[j].headers)
    decreases j
  {
    hide Leads, NoCredentials;
    assert Leads(c, explicit, sent[j - 1], answers[j - 1], sent[j - 1 + 1]);
    if hop + 1 < j { CredentialsStayBehind(c, explicit, sent, answers, hop, j - 1); }
    HopStripsCredentials(c, explicit, sent[j - 1], answers[j - 1], sent[j]);
  }

  /** A GET without a body or the headers of one. */
  ghost predicate BareGet(r: Request) {
    r.methodName == GET && r.body.None? && forall name | name in BODY_HEADERS :: name !in r.headers
  }

  lemma HopKeepsBareGet(c: Config, explicit: bool, r: Request, answer: Response, next: Request)
    requires Leads(c, explicit, r, answer, next)
    requires SwitchesToGet(answer.status, r.methodName) || BareGet(r)
    ensures BareGet(next)
  {
    AcceptPaymentIsNoListedHeader();
    PreservingStatuses(answer.status, r.methodName);
  }

  /** After a switch to GET, no request carries a body or the headers of one, and all stay GET. */
  lemma {:induction false} GetCarriesNoBody(c: Config, explicit: bool, sent: seq<Request>, answers: seq<Response>,
                                            turn: nat, j: nat)
    requires Follows(c, explicit, sent, answers)
    requires turn < j < |sent| && SwitchesToGet(answers[turn].status, sent[turn].methodName)
    ensures BareGet(sent[j])
    decreases j
  {
    hide Leads, BareGet;
    assert Leads(c, explicit, sent[j - 1], answers[j - 1], sent[j - 1 + 1]);
    if turn + 1 < j { GetCarriesNoBody(c, explicit, sent, answers, turn, j - 1); }
    HopKeepsBareGet(c, explicit, sent[j - 1], answers[j - 1], sent[j]);
  }

  /** As long as no hop changes origin or turns to GET, every request repeats the first one's method,
      body and headers (but for an injected `Accept-Payment`). */
  lemma {:induction false} PlainHopsRepeatTheRequest(c: Config, explicit: bool, sent: seq<Request>, answers: seq<Response>, j: nat)
    requires Follows(c, explicit, sent, answers) && j < |sent|
    requires forall i | 0 <= i < j ::
               sent[i].url.origin == sent[i + 1].url.origin && !SwitchesToGet(answers[i].status, sent[i].methodName)
    ensures sent[j].methodName == sent[0].methodName
    ensures Carried(sent[j].body) == Carried(sent[0].body)
    ensures sent[j].headers - {ACCEPT_PAYMENT} == sent[0].headers - {ACCEPT_PAYMENT}
    ensures explicit ==> sent[j].headers == sent[0].headers
  {
    if j > 0 {
      PlainHopsRepeatTheRequest(c, explicit, sent, answers, j - 1);
      assert sent[j - 1 + 1] == sent[j];
    }
  }

  /** `Accept-Payment` goes exactly where the policy says, unless the caller set it, in which case no
      request carries another value. */
  lemma {:induction false} AcceptPaymentFollowsThePolicy(c: Config, explicit: bool, first: Request,
                                                         sent: seq<Request>, answers: seq<Response>, j: nat)
    requires Follows(c, explicit, sent, answers) && j < |sent|
    requires sent[0] == WithAcceptPayment(c, explicit, first) && explicit == (ACCEPT_PAYMENT in first.headers)
    ensures !explicit ==>
              (ACCEPT_PAYMENT in sent[j].headers <==> c.acceptPayment != [] && c.injects(sent[j].url))
    ensures !explicit && ACCEPT_PAYMENT in sent[j].headers ==> sent[j].headers[ACCEPT_PAYMENT] == c.acceptPayment
    ensures explicit && ACCEPT_PAYMENT in sent[j].headers ==>
              sent[j].headers[ACCEPT_PAYMENT] == first.headers[ACCEPT_PAYMENT]
    ensures explicit && (forall i | 0 <= i < j :: sent[i].url.origin == sent[i + 1].url.origin) ==>
              ACCEPT_PAYMENT in sent[j].headers
  {
    if j > 0 {
      AcceptPaymentFollowsThePolicy(c, explicit, first, sent, answers, j - 1);
      assert Leads(c, explicit, sent[j - 1], answers[j - 1], sent[j - 1 + 1]);
      AcceptPaymentIsNoListedHeader();
    }
  }

  /** Which answers are followed: the five redirects with a location that resolves, but from https to
      anything else. */
  lemma WhatIsFollowed(c: Config, r: Request, answer: Response)
    ensures Target(c, r, answer).Ok? <==>
              && !answer.hidden
              && (answer.status == 301 || answer.status == 302 || answer.status == 303 || answer.status == 307 || answer.status == 308)
              && answer.location.Some? && answer.location.value != []
              && c.resolve(answer.location.value, r.url).Some?
              && (r.url.https ==> c.resolve(answer.location.value, r.url).value.https)
    ensures Target(c, r, answer).Ok? ==> Some(Target(c, r, answer).value) == c.resolve(answer.location.value, r.url)
  {
  }

  /** How any other answer ends the run: a hidden one, or one without a status, as an error; an answer that
      is no redirect, or names no location, as the answer; and the rest as an error. */
  lemma WhatEndsTheRun(c: Config, r: Request, answer: Response)
    ensures
      var hidden := answer.hidden || answer.status == 0;
      var redirect :=
        && (answer.status == 301 || answer.status == 302 || answer.status == 303 || answer.status == 307 || answer.status == 308)
        && answer.location.Some? && answer.location.value != [];
      && (Target(c, r, answer) == Err(Failed(HiddenRedirect)) <==> hidden)
      && (Target(c, r, answer) == Err(Prepared(r, answer)) <==> !hidden && !redirect)
      && (Target(c, r, answer) == Err(Failed(InvalidLocation)) <==>
            !hidden && redirect && c.resolve(answer.location.value, r.url).None?)
      && (Target(c, r, answer) == Err(Failed(Downgrade)) <==>
            !hidden && redirect && c.resolve(answer.location.value, r.url).Some?
            && r.url.https && !c.resolve(answer.location.value, r.url).value.https)
  {
  }

  /** A POST answered 301 or 302, and anything but a GET or HEAD answered 303, goes on as a GET without a
      body; every other request keeps its method and body. */
  lemma MethodsGoOn(c: Config, explicit: bool, r: Request, answer: Response, next: Request)
    requires Leads(c, explicit, r, answer, next)
    ensures
      if ((answer.status == 301 || answer.status == 302) && r.methodName == Ascii("POST"))
         || (answer.status == 303 && r.methodName != Ascii("GET") && r.methodName != Ascii("HEAD"))
      then next.methodName == Ascii("GET") && next.body.None?
      else next.methodName == r.methodName && next.body == if r.body == Some(TextBody([])) then None else r.body
  {
  }

  /** A header that is no credential travels on every hop, unless it describes a body that is dropped. */
  lemma OrdinaryHeadersTravel(c: Config, explicit: bool, r: Request, answer: Response, next: Request, name: Text)
    requires Leads(c, explicit, r, answer, next)
    requires explicit || name != ACCEPT_PAYMENT
    requires name in r.headers
    requires name !in BODY_HEADERS || (r.methodName == next.methodName && next.methodName == GET)
    requires r.url.origin == next.url.origin || (name !in CROSS_ORIGIN_HEADERS && !(PAYMENT_SCHEME <= r.headers[name]))
    ensures name in next.headers && next.headers[name] == r.headers[name]
  {
    PreservingStatuses(answer.status, r.methodName);
    hide BODY_HEADERS, CROSS_ORIGIN_HEADERS;
  }

  /** So it does over a whole run. */
  lemma {:induction false} OrdinaryHeadersTravelOn(c: Config, explicit: bool, sent: seq<Request>, answers: seq<Response>,
                                                   name: Text, j: nat)
    requires Follows(c, explicit, sent, answers) && j < |sent|
    requires explicit || name != ACCEPT_PAYMENT
    requires name in sent[0].headers && name !in BODY_HEADERS && name !in CROSS_ORIGIN_HEADERS
    requires !(PAYMENT_SCHEME <= sent[0].headers[name])
    ensures name in sent[j].headers && sent[j].headers[name] == sent[0].headers[name]
  {
    if j > 0 {
      OrdinaryHeadersTravelOn(c, explicit, sent, answers, name, j - 1);
      assert Leads(c, explicit, sent[j - 1], answers[j - 1], sent[j - 1 + 1]);
      hide Leads, BODY_HEADERS, CROSS_ORIGIN_HEADERS, PAYMENT_SCHEME;
      OrdinaryHeadersTravel(c, explicit, sent[j - 1], answers[j - 1], sent[j], name);
    }
  }

  /** No hop adds a header, but an `Accept-Payment` this loop injects. */
  lemma HopsAddNoHeaders(c: Config, explicit: bool, r: Request, answer: Response, next: Request, name: Text)
    requires Leads(c, explicit, r, answer, next)
    ensures name in next.headers && (explicit || name != ACCEPT_PAYMENT) ==> name in r.headers && next.headers[name] == r.headers[name]
  {
    hide BODY_HEADERS, CROSS_ORIGIN_HEADERS;
  }

  /** 307 and 308 never change the method. */
  lemma PreservingStatuses(status: int, methodName: Text)
    ensures status == 307 || status == 308 ==> !SwitchesToGet(status, methodName)
    ensures methodName == GET || methodName == HEAD ==> !SwitchesToGet(status, methodName)
  {
    assert |GET| == 3 && |POST| == 4 && HEAD[0] == 0x48 && POST[0] == 0x50;
  }
}
