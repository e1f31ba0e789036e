/**
  The `useAxios` hook: a per-screen request manager holding the last
  response body, a loading flag and a transient alert.

  The HTTP call is an opaque `Outcome` (a body or an error message), and
  one request runs at a time: `Start` is followed by one `Resolve`. Every
  alert `showAlert` raises schedules its own five-second timer, which is
  never cancelled; the firing of the oldest pending timer is a `Hide` event.
  `D` is the type of response bodies, `P` the type of request payloads.
 */
module Requests {
  import opened Optional

  /** The alert record `{ show, message, type }`. */
  datatype Alert = Alert(show: bool, message: string, kind: string)

  /**
    The three pieces of hook state, `data`, `alert` and `loading`, with the
    timers the hook has scheduled and that have not fired yet. Alerts are
    numbered from 1 in the order they are raised: `raised` is the number of
    the current one, and `timers` lists, oldest first, the number of the
    alert each pending timer was scheduled for.
   */
  datatype RequestState<D> = RequestState(data: Option<D>, alert: Alert, loading: bool, raised: nat, timers: seq<nat>)

  /** The axios method a verb calls. */
  datatype Method = Get | Post | Put | Delete

  /** A call through the hook's public verbs `get`, `post`, `update`, `remove`. */
  datatype Call<P> =
    | GetCall(endpoint: string)
    | PostCall(endpoint: string, payload: P)
    | UpdateCall(endpoint: string, payload: P)
    | RemoveCall(endpoint: string)

  /** What goes over the wire: a method, a full URL and the payload argument (`null` when absent). */
  datatype HttpRequest<P> = HttpRequest(verb: Method, url: string, payload: Option<P>)

  /** How the awaited axios call settles. */
  datatype Outcome<D> = Success(body: D) | Failure(message: string)

  /** Request start, request settlement, and the firing of the oldest pending alert timer. */
  datatype Event<D> = Start | Resolve(outcome: Outcome<D>) | Hide

  /** The hook's state and the request it sent, after one `makeRequest`. */
  datatype Exchange<P, D> = Exchange(request: HttpRequest<P>, after: RequestState<D>)

  const SuccessMessage: string := "Book added successfully"
  const SuccessKind: string := "success"
  const ErrorPrefix: string := "Error: "
  const ErrorKind: string := "error"

  /** The state a fresh hook starts from. */
  function Initial<D>(): RequestState<D> {
    RequestState(None, Alert(false, "", ""), false, 0, [])
  }

  /** Nothing is loading and no alert is on screen. */
  predicate Idle<D>(s: RequestState<D>) {
    !s.loading && !s.alert.show
  }

  /** The request target: base URL, a slash, then the endpoint. */
  function Url(baseUrl: string, endpoint: string): (u: string)
    ensures |u| == |baseUrl| + 1 + |endpoint|
    ensures u[..|baseUrl|] == baseUrl
    ensures u[|baseUrl|] == '/'
    ensures u[|baseUrl| + 1..] == endpoint
  {
    baseUrl + "/" + endpoint
  }

  /** The request a verb sends: `get`/`remove` pass no payload, `post`/`update` forward theirs. */
  function ToHttp<P>(baseUrl: string, call: Call<P>): (r: HttpRequest<P>)
    ensures r.url == Url(baseUrl, call.endpoint)
    ensures r.payload.Some? <==> call.PostCall? || call.UpdateCall?
  {
    match call
    case GetCall(e) => HttpRequest(Get, Url(baseUrl, e), None)
    case PostCall(e, p) => HttpRequest(Post, Url(baseUrl, e), Some(p))
    case UpdateCall(e, p) => HttpRequest(Put, Url(baseUrl, e), Some(p))
    case RemoveCall(e) => HttpRequest(Delete, Url(baseUrl, e), None)
  }

  /**
    The call a request came from, recovered from the request alone: the
    inverse of `ToHttp` for a fixed base URL.
   */
  function FromHttp<P>(baseUrl: string, r: HttpRequest<P>): Option<Call<P>> {
    if |r.url| <= |baseUrl| || r.url[..|baseUrl|] != baseUrl || r.url[|baseUrl|] != '/' then
      None
    else
      var e := r.url[|baseUrl| + 1..];
      match (r.verb, r.payload)
      case (Get, None) => Some(GetCall(e))
      case (Post, Some(p)) => Some(PostCall(e, p))
      case (Put, Some(p)) => Some(UpdateCall(e, p))
      case (Delete, None) => Some(RemoveCall(e))
      case _ => None
  }

  /** Every verb's request determines the verb, the endpoint and the payload. */
  lemma FromHttpToHttp<P>(baseUrl: string, call: Call<P>)
    ensures FromHttp(baseUrl, ToHttp(baseUrl, call)) == Some(call)
  {
  }

  /** So distinct calls against one base URL never send the same request. */
  lemma ToHttpInjective<P>(baseUrl: string, c1: Call<P>, c2: Call<P>)
    ensures ToHttp(baseUrl, c1) == ToHttp(baseUrl, c2) <==> c1 == c2
  {
    if ToHttp(baseUrl, c1) == ToHttp(baseUrl, c2) {
      FromHttpToHttp(baseUrl, c1);
      FromHttpToHttp(baseUrl, c2);
    }
  }

  /**
    `showAlert`: a new alert is shown with the given message and type, and
    a timer for it joins the end of the pending timers; no pending timer is
    cancelled, and data and loading are untouched.
   */
  function ShowAlert<D>(s: RequestState<D>, message: string, kind: string): (r: RequestState<D>)
    ensures r.alert == Alert(true, message, kind)
    ensures r.raised == s.raised + 1
    ensures r.timers == s.timers + [r.raised]
    ensures r.data == s.data && r.loading == s.loading
  {
    s.(alert := Alert(true, message, kind), raised := s.raised + 1, timers := s.timers + [s.raised + 1])
  }

  /**
    The oldest pending timer fires: it hides whatever alert is current,
    whichever alert scheduled it, keeping the message and type. With no
    timer pending nothing can fire and nothing changes.
   */
  function HideAlert<D>(s: RequestState<D>): (r: RequestState<D>)
    ensures s.timers != [] ==> !r.alert.show && r.timers == s.timers[1..]
    ensures s.timers == [] ==> r == s
    ensures r.alert.message == s.alert.message && r.alert.kind == s.alert.kind
    ensures r.data == s.data && r.loading == s.loading && r.raised == s.raised
  {
    if s.timers == [] then s
    else s.(alert := s.alert.(show := false), timers := s.timers[1..])
  }

  /** The alert an outcome raises: a fixed success text for every verb, or the error text. */
  function AlertFor<D>(o: Outcome<D>): (a: Alert)
    ensures a.show
    ensures a.kind == SuccessKind <==> o.Success?
    ensures a.kind == ErrorKind <==> o.Failure?
    ensures o.Success? ==> a.message == SuccessMessage
    ensures o.Failure? ==> ErrorPrefix <= a.message && a.message[|ErrorPrefix|..] == o.message
  {
    match o
    case Success(_) => Alert(true, SuccessMessage, SuccessKind)
    case Failure(m) => Alert(true, ErrorPrefix + m, ErrorKind)
  }

  /** The transition for one event. */
  function Step<D>(s: RequestState<D>, e: Event<D>): (r: RequestState<D>)
    ensures e.Start? ==> r.loading && r.data == s.data && r.alert == s.alert && r.timers == s.timers
    ensures e.Start? ==> r == s.(loading := true)
    ensures e.Resolve? ==> !r.loading && r.alert.show
    ensures e.Resolve? ==> r.raised == s.raised + 1 && r.timers == s.timers + [r.raised]
    ensures e.Resolve? && e.outcome.Success? ==> r.data == Some(e.outcome.body)
    ensures e.Resolve? && e.outcome.Failure? ==> r.data == s.data
    ensures e.Resolve? ==> r.alert.kind == (if e.outcome.Success? then SuccessKind else ErrorKind)
    ensures e.Hide? ==> r == HideAlert(s)
  {
    match e
    case Start => s.(loading := true)
    case Resolve(Success(body)) => ShowAlert(s.(data := Some(body)), SuccessMessage, SuccessKind).(loading := false)
    case Resolve(Failure(m)) => ShowAlert(s, ErrorPrefix + m, ErrorKind).(loading := false)
    case Hide => HideAlert(s)
  }

  /**
    `makeRequest`: loading goes on, the request is sent, the outcome is
    folded into the state and loading goes off. It always returns a state:
    a failure becomes an alert, never an error for the caller.
   */
  function MakeRequest<P, D>(s: RequestState<D>, baseUrl: string, call: Call<P>, outcome: Outcome<D>): (x: Exchange<P, D>)
    ensures x.request.url == Url(baseUrl, call.endpoint)
    ensures FromHttp(baseUrl, x.request) == Some(call)
    ensures !x.after.loading
    ensures x.after.alert == AlertFor(outcome)
    ensures x.after.data == (if outcome.Success? then Some(outcome.body) else s.data)
    ensures x.after.timers == s.timers + [s.raised + 1]
  {
    FromHttpToHttp(baseUrl, call);
    Exchange(ToHttp(baseUrl, call), Step(Step(s, Start), Resolve(outcome)))
  }

  /** The success alert does not depend on the verb: a `get` announces "Book added successfully" too. */
  lemma SuccessAlertIgnoresVerb<P, D>(s: RequestState<D>, baseUrl: string, c1: Call<P>, c2: Call<P>, body: D)
    ensures MakeRequest(s, baseUrl, c1, Success(body)).after == MakeRequest(s, baseUrl, c2, Success(body)).after
    ensures MakeRequest(s, baseUrl, c1, Success(body)).after.alert.message == SuccessMessage
  {
  }

  // ---------------------------------------------------------------------
  // Event traces
  // ---------------------------------------------------------------------

  /** The state after the events of `t`, in order. */
  function Run<D>(s: RequestState<D>, t: seq<Event<D>>): RequestState<D>
    decreases |t|
  {
    if t == [] then s else Run(Step(s, t[0]), t[1..])
  }

  /** Running one more event is one more step. */
  lemma {:induction false} RunSnoc<D>(s: RequestState<D>, t: seq<Event<D>>, e: Event<D>)
    ensures Run(s, t + [e]) == Step(Run(s, t), e)
    decreases |t|
  {
    if t != [] {
      assert (t + [e])[1..] == t[1..] + [e];
      RunSnoc(Step(s, t[0]), t[1..], e);
    }
  }

  /** The body of the last successful outcome in `t`, if any. */
  function LastSuccess<D>(t: seq<Event<D>>): Option<D>
    decreases |t|
  {
    if t == [] then None
    else match t[|t| - 1]
      case Resolve(Success(body)) => Some(body)
      case _ => LastSuccess(t[..|t| - 1])
  }

  /**
    The last `Start` or `Resolve` in `t`. With one request at a time, a
    `Start` here means that request has not settled yet.
   */
  function LastLifecycle<D>(t: seq<Event<D>>): Option<Event<D>>
    decreases |t|
  {
    if t == [] then None
    else if t[|t| - 1].Hide? then LastLifecycle(t[..|t| - 1])
    else Some(t[|t| - 1])
  }

  /** The last `Resolve` or `Hide` in `t`: whether the alert is on screen. */
  function LastAlertEvent<D>(t: seq<Event<D>>): Option<Event<D>>
    decreases |t|
  {
    if t == [] then None
    else if t[|t| - 1].Start? then LastAlertEvent(t[..|t| - 1])
    else Some(t[|t| - 1])
  }

  /** The outcome of the last `Resolve` in `t`. */
  function LastOutcome<D>(t: seq<Event<D>>): Option<Outcome<D>>
    decreases |t|
  {
    if t == [] then None
    else if t[|t| - 1].Resolve? then Some(t[|t| - 1].outcome)
    else LastOutcome(t[..|t| - 1])
  }

  /** The number of timers pending after `t`: each `Resolve` schedules one, each `Hide` consumes one. */
  function Pending<D>(s: RequestState<D>, t: seq<Event<D>>): int
    decreases |t|
  {
    if t == [] then |s.timers|
    else Pending(s, t[..|t| - 1]) + (match t[|t| - 1] case Start => 0 case Resolve(_) => 1 case Hide => -1)
  }

  /** Every `Hide` in `t` is the firing of a timer that is pending at that point. */
  ghost predicate Feasible<D>(s: RequestState<D>, t: seq<Event<D>>)
    decreases |t|
  {
    t == [] || (Feasible(s, t[..|t| - 1]) && (t[|t| - 1].Hide? ==> Pending(s, t[..|t| - 1]) > 0))
  }

  /** In a feasible trace the hook holds exactly the pending timers. */
  lemma {:induction false} TimersArePending<D>(s: RequestState<D>, t: seq<Event<D>>)
    requires Feasible(s, t)
    ensures |Run(s, t).timers| == Pending(s, t)
    decreases |t|
  {
    if t != [] {
      var init := t[..|t| - 1];
      assert t == init + [t[|t| - 1]];
      RunSnoc(s, init, t[|t| - 1]);
      TimersArePending(s, init);
    }
  }

  /** `data` is the body of the latest success; failures never clear it. */
  lemma {:induction false} DataIsLastSuccess<D>(s: RequestState<D>, t: seq<Event<D>>)
    ensures Run(s, t).data == (if LastSuccess(t).Some? then LastSuccess(t) else s.data)
    decreases |t|
  {
    if t != [] {
      var init := t[..|t| - 1];
      assert t == init + [t[|t| - 1]];
      RunSnoc(s, init, t[|t| - 1]);
      DataIsLastSuccess(s, init);
    }
  }

  /** `loading` is on exactly when the latest lifecycle event is a `Start`. */
  lemma {:induction false} LoadingIsOutstanding<D>(s: RequestState<D>, t: seq<Event<D>>)
    ensures Run(s, t).loading == (if LastLifecycle(t).Some? then LastLifecycle(t).value.Start? else s.loading)
    decreases |t|
  {
    if t != [] {
      var init := t[..|t| - 1];
      assert t == init + [t[|t| - 1]];
      RunSnoc(s, init, t[|t| - 1]);
      LoadingIsOutstanding(s, init);
    }
  }

  /**
    The alert shows the latest outcome's message and type, and is visible
    exactly when no timer has fired since that outcome.
   */
  lemma {:induction false} AlertFollowsLastOutcome<D>(s: RequestState<D>, t: seq<Event<D>>)
    requires Feasible(s, t)
    ensures Run(s, t).alert.show == (if LastAlertEvent(t).Some? then LastAlertEvent(t).value.Resolve? else s.alert.show)
    ensures LastOutcome(t).Some? ==>
      Run(s, t).alert.message == AlertFor(LastOutcome(t).value).message &&
      Run(s, t).alert.kind == AlertFor(LastOutcome(t).value).kind
    ensures LastOutcome(t).None? ==>
      Run(s, t).alert.message == s.alert.message && Run(s, t).alert.kind == s.alert.kind
    decreases |t|
  {
    if t != [] {
      var init := t[..|t| - 1];
      assert t == init + [t[|t| - 1]];
      RunSnoc(s, init, t[|t| - 1]);
      AlertFollowsLastOutcome(s, init);
      if t[|t| - 1].Hide? {
        TimersArePending(s, init);
      }
    }
  }

  /** When the last alert event is a `Resolve`, its outcome is the last outcome. */
  lemma {:induction false} LastAlertEventIsLastOutcome<D>(t: seq<Event<D>>)
    ensures LastAlertEvent(t).Some? && LastAlertEvent(t).value.Resolve? ==>
      LastOutcome(t) == Some(LastAlertEvent(t).value.outcome)
    decreases |t|
  {
    if t != [] && t[|t| - 1].Start? {
      LastAlertEventIsLastOutcome(t[..|t| - 1]);
    }
  }

  /** `makeRequest` is the two-event trace `Start`, `Resolve`. */
  lemma MakeRequestIsStartThenResolve<P, D>(s: RequestState<D>, baseUrl: string, call: Call<P>, outcome: Outcome<D>)
    ensures MakeRequest(s, baseUrl, call, outcome).after == Run(s, [Start, Resolve(outcome)])
  {
    var t: seq<Event<D>> := [Start, Resolve(outcome)];
    assert t[1..] == [Resolve(outcome)];
    assert t[1..][1..] == [];
    assert Run(s, t) == Run(Step(s, Start), t[1..]);
    assert Run(Step(s, Start), t[1..]) == Run(Step(Step(s, Start), Resolve(outcome)), []);
  }

  /**
    A second firing leaves the alert as the first left it, and no firing
    touches data or loading.
   */
  lemma HideIdempotent<D>(s: RequestState<D>)
    ensures Step(Step(s, Hide), Hide).alert == Step(s, Hide).alert
    ensures Step(s, Hide).data == s.data && Step(s, Hide).loading == s.loading
  {
  }

  /** A fresh hook is idle with no timer pending, so no timer can fire on it. */
  lemma InitialIsIdle<D>()
    ensures Idle(Initial<D>())
    ensures Initial<D>().data.None?
    ensures Initial<D>().alert == Alert(false, "", "")
    ensures Step(Initial<D>(), Hide) == Initial<D>()
    ensures !Feasible(Initial<D>(), [Hide])
  {
    var t: seq<Event<D>> := [Hide];
    assert t[..0] == [];
  }

  /**
    Timers are never cancelled and all have the same delay, so they fire
    oldest first. Two requests in quick succession raise alerts 1 and 2
    and leave both timers pending; the timer that fires first is alert 1's,
    and it hides alert 2 while alert 2's own timer is still pending.
   */
  lemma EarlierTimerHidesLaterAlert<D>(first: Outcome<D>, second: Outcome<D>)
    ensures var both := Run(Initial<D>(), [Start, Resolve(first), Start, Resolve(second)]);
      && both.raised == 2
      && both.timers == [1, 2]
      && both.alert == AlertFor(second)
    ensures var after := Run(Initial<D>(), [Start, Resolve(first), Start, Resolve(second), Hide]);
      && after.timers == [2]
      && after.alert == AlertFor(second).(show := false)
  {
    var s0 := Initial<D>();
    var t := [Start, Resolve(first), Start, Resolve(second), Hide];
    var s1 := Step(s0, Start);
    var s2 := Step(s1, Resolve(first));
    var s3 := Step(s2, Start);
    var s4 := Step(s3, Resolve(second));
    var s5 := Step(s4, Hide);
    assert s2.timers == [1];
    assert s4.timers == [1, 2];
    assert s4.timers[1..] == [2];
    assert t[1..][1..][1..][1..][1..] == [];
    assert Run(s0, t) == Run(s1, t[1..]) == Run(s2, t[2..]) == Run(s3, t[3..]) == Run(s4, t[4..]) == s5;
    var t4 := t[..4];
    assert t4 == [Start, Resolve(first), Start, Resolve(second)];
    assert Run(s0, t4) == Run(s1, t4[1..]) == Run(s2, t4[2..]) == Run(s3, t4[3..]) == Run(s4, t4[4..]) == s4;
  }
}
