/**
 * The exported wrapper of index.js. `Adapt` gives, for a settled handler and
 * the collaborators' behaviour, the ordered calls the wrapper makes; `Run`
 * follows the wrapper statement by statement and is proved to make exactly
 * those calls.
 */
module Adapter {
  import opened Wrappers
  import opened JsValues
  import opened Effects

  /**
   * How `await fn(req, res, next, ...args)` settled: `fn` threw synchronously,
   * its promise rejected, or it produced a value (directly or by fulfilment).
   */
  datatype Outcome = Threw(error: JsValue) | Rejected(error: JsValue) | Resolved(value: JsValue)

  /**
   * Collaborator call number `at` (counted from 0 over every call on `res` and
   * the call `req.csrfToken()`) throws `error` synchronously.
   */
  datatype Fault = Fault(at: nat, error: JsValue)

  /** What the wrapper observes of its collaborators: the token `req.csrfToken()` returns, and at most one throwing call */
  datatype Collaborators = Collaborators(token: JsValue, fault: Option<Fault>)

  predicate Throws(c: Collaborators, n: nat) {
    c.fault.Some? && c.fault.value.at == n
  }

  /** The handler result after destructuring, with its defaults applied */
  datatype Fields = Fields(
    status: JsValue,
    body: JsValue,
    headers: JsValue,
    cookies: JsValue,
    render: JsValue,
    renderLocals: JsValue,
    redirect: JsValue,
    csrf: JsValue)

  /**
   * The destructuring declaration of the wrapper: a TypeError (None) on a
   * nullish result; otherwise each field read, with `statusCode` defaulting
   * to 200, `cookies` to `[]` and `renderLocals` to `{}`.
   */
  function Destructure(result: JsValue): (r: Option<Fields>)
    ensures r.None? <==> Nullish(result)
  {
    if Nullish(result) then None
    else Some(Fields(
      status := OrDefault(Read(result, "statusCode"), Num(200)),
      body := Read(result, "body"),
      headers := Read(result, "headers"),
      cookies := OrDefault(Read(result, "cookies"), Arr([])),
      render := Read(result, "render"),
      renderLocals := OrDefault(Read(result, "renderLocals"), Obj(map[])),
      redirect := Read(result, "redirect"),
      csrf := Read(result, "csrf")))
  }

  /** The collaborator calls of a run, in order, and the TypeError (if any) raised after the last of them */
  datatype Plan = Plan(calls: seq<Effect>, abort: Option<Failure>)

  /** `res.cookie(x.name, x.value, x.options)` for one cookie entry */
  function CookieOf(x: JsValue): Effect
    requires !Nullish(x)
  {
    Cookie(Read(x, "name"), Read(x, "value"), Read(x, "options"))
  }

  /**
   * `xs.forEach(x => res.cookie(x.name, x.value, x.options))`: one cookie call
   * per entry, in order, up to the first nullish entry, where reading
   * `x.name` throws.
   */
  function ForEachCookie(xs: seq<JsValue>): (p: Plan)
    ensures |p.calls| <= |xs|
    ensures forall j :: 0 <= j < |p.calls| ==> !Nullish(xs[j]) && p.calls[j] == CookieOf(xs[j])
    ensures p.abort.None? ==> |p.calls| == |xs|
    ensures p.abort.Some? ==> |p.calls| < |xs| && Nullish(xs[|p.calls|]) && p.abort == Some(TypeError(CookieEntryNullish))
    decreases |xs|
  {
    if |xs| == 0 then Plan([], None)
    else if Nullish(xs[0]) then Plan([], Some(TypeError(CookieEntryNullish)))
    else
      var rest := ForEachCookie(xs[1..]);
      Plan([CookieOf(xs[0])] + rest.calls, rest.abort)
  }

  /** One cookie call per entry, in entry order: the reference the `forEach` is checked against */
  function CookieTrace(xs: seq<JsValue>): seq<Effect>
    requires forall j :: 0 <= j < |xs| ==> !Nullish(xs[j])
  {
    seq(|xs|, j requires 0 <= j < |xs| => CookieOf(xs[j]))
  }

  /** The calls of the cookie step are exactly the reference calls for the entries it reached */
  lemma PlannedCookies(xs: seq<JsValue>)
    ensures var p := ForEachCookie(xs);
            && (forall j :: 0 <= j < |p.calls| ==> !Nullish(xs[j]))
            && p.calls == CookieTrace(xs[..|p.calls|])
  {
    var p := ForEachCookie(xs);
    var n := |p.calls|;
    assert forall j :: 0 <= j < n ==> xs[..n][j] == xs[j];
  }

  /** The cookie step: `forEach` exists on arrays only */
  function CookieCalls(cookies: JsValue): Plan {
    if cookies.Arr? then ForEachCookie(cookies.items)
    else Plan([], Some(TypeError(CookiesNotArray)))
  }

  /** The status and header steps, which cannot raise */
  function Prelude(f: Fields): seq<Effect> {
    StatusPart(f) + HeaderPart(f)
  }

  /** `res.status(statusCode)`: made unless `redirect` is truthy */
  function StatusPart(f: Fields): seq<Effect> {
    if Truthy(f.redirect) then [] else [Status(f.status)]
  }

  /** `res.set(headers)`: made when `headers` is truthy */
  function HeaderPart(f: Fields): seq<Effect> {
    if Truthy(f.headers) then [Set(f.headers)] else []
  }

  /** The call that ends a run without a redirect: render, else send the body, else send nothing */
  function Respond(f: Fields, locals: JsValue): Effect {
    if Truthy(f.render) then Render(f.render, locals)
    else if Truthy(f.body) then Send(Some(f.body))
    else Send(None)
  }

  /** The steps after the cookies: redirect, or the token fetch followed by the response */
  function Finish(f: Fields, token: JsValue): Plan {
    if Truthy(f.redirect) then
      match Spread(f.redirect)
      case None => Plan([], Some(TypeError(RedirectNotIterable)))
      case Some(args) => Plan([Redirect(args)], None)
    else if Truthy(f.csrf) then
      match AssignProperty(f.renderLocals, "csrf", token)
      case None => Plan([CsrfToken], Some(TypeError(LocalsNullish)))
      case Some(locals) => Plan([CsrfToken, Respond(f, locals)], None)
    else Plan([Respond(f, f.renderLocals)], None)
  }

  /** Every call the wrapper makes for a destructured result when no collaborator throws */
  function PlanFor(f: Fields, token: JsValue): Plan {
    var cookies := CookieCalls(f.cookies);
    if cookies.abort.Some? then Plan(Prelude(f) + cookies.calls, cookies.abort)
    else
      var fin := Finish(f, token);
      Plan(Prelude(f) + cookies.calls + fin.calls, fin.abort)
  }

  /**
   * The trace of a plan: a throwing call at position `at` is not recorded
   * and the error goes to `next`; a TypeError after the last call goes to
   * `next` too.
   */
  function Execute(p: Plan, fault: Option<Fault>): seq<Effect> {
    if fault.Some? && fault.value.at < |p.calls| then
      p.calls[..fault.value.at] + [Next(Raised(fault.value.error))]
    else
      match p.abort
      case Some(err) => p.calls + [Next(err)]
      case None => p.calls
  }

  /** The calls the wrapper makes, in order, for a settled handler */
  function Adapt(o: Outcome, c: Collaborators): seq<Effect> {
    match o
    case Threw(e) => [Next(Raised(e))]
    case Rejected(e) => [Next(Raised(e))]
    case Resolved(v) =>
      match Destructure(v)
      case None => [Next(TypeError(ResultNullish))]
      case Some(f) => Execute(PlanFor(f, c.token), c.fault)
  }

  /** No collaborator call before number `n` throws */
  predicate QuietBefore(c: Collaborators, n: nat) {
    c.fault.Some? ==> c.fault.value.at >= n
  }

  /**
   * The wrapper, statement by statement (lines 1-13 and the `catch`). Each
   * `throw` lands in the `catch` and ends the run with `next(e)`.
   */
  method Run(o: Outcome, c: Collaborators) returns (trace: seq<Effect>)
    ensures trace == Adapt(o, c)
  {
    if !o.Resolved? {
      return [Next(Raised(o.error))];
    }
    var fields := Destructure(o.value);
    if fields.None? {
      return [Next(TypeError(ResultNullish))];
    }
    trace := Dispatch(fields.value, c);
  }

  /**
   * Lines 15-18 of the wrapper: status, headers, then the cookie step. Every
   * collaborator call is preceded by the check whether it throws.
   */
  method Dispatch(f: Fields, c: Collaborators) returns (trace: seq<Effect>)
    ensures trace == Execute(PlanFor(f, c.token), c.fault)
  {
    trace := [];
    if !Truthy(f.redirect) {
      if Throws(c, |trace|) {
        return trace + [Next(Raised(c.fault.value.error))];
      }
      trace := trace + [Status(f.status)];
    }
    if Truthy(f.headers) {
      if Throws(c, |trace|) {
        return trace + [Next(Raised(c.fault.value.error))];
      }
      trace := trace + [Set(f.headers)];
    }
    if !f.cookies.Arr? {
      return trace + [Next(TypeError(CookiesNotArray))];
    }
    var finished;
    trace, finished := SetCookies(f, c, trace);
    if !finished {
      trace := Conclude(f, c, trace);
    }
  }

  /** A nullish cookie entry ends the run with the TypeError, after the calls for the entries before it */
  lemma StopAtEntry(f: Fields, xs: seq<JsValue>, c: Collaborators, i: nat)
    requires f.cookies == Arr(xs) && i < |xs| && Nullish(xs[i])
    requires forall j :: 0 <= j < i ==> !Nullish(xs[j])
    requires QuietBefore(c, |Prelude(f)| + i)
    ensures Execute(PlanFor(f, c.token), c.fault)
              == Prelude(f) + CookieTrace(xs[..i]) + [Next(TypeError(CookieEntryNullish))]
  {
    var p := ForEachCookie(xs);
    PlannedCookies(xs);
    assert |p.calls| == i && p.abort.Some?;
  }

  /** A plan whose cookie step is reached starts with the prelude and the cookie calls */
  lemma PlanStart(f: Fields, token: JsValue)
    requires f.cookies.Arr?
    ensures var head := Prelude(f) + ForEachCookie(f.cookies.items).calls;
            var plan := PlanFor(f, token);
            |head| <= |plan.calls| && plan.calls[..|head|] == head
  {
  }

  /** With no nullish entry up to `i`, the cookie calls reach entry `i`, and those before it are the reference calls */
  lemma ReachEntry(xs: seq<JsValue>, i: nat)
    requires i < |xs| && forall j :: 0 <= j <= i ==> !Nullish(xs[j])
    ensures i < |ForEachCookie(xs).calls| && ForEachCookie(xs).calls[..i] == CookieTrace(xs[..i])
  {
    var calls := ForEachCookie(xs).calls;
    PlannedCookies(xs);
    assert calls[..i] == CookieTrace(xs[..|calls|])[..i];
  }

  /** A throwing call inside a known prefix of a plan cuts the run there */
  lemma CutInside(p: Plan, fault: Option<Fault>, a: seq<Effect>, b: seq<Effect>, n: nat)
    requires |a + b| <= |p.calls| && p.calls[..|a + b|] == a + b && n < |b|
    requires fault.Some? && fault.value.at == |a| + n
    ensures Execute(p, fault) == a + b[..n] + [Next(Raised(fault.value.error))]
  {
    assert p.calls[..|a| + n] == (a + b)[..|a| + n] == a + b[..n];
  }

  /** The cookie call for a non-nullish entry throws: the run ends with `next`, after the calls before it */
  lemma ThrowAtEntry(f: Fields, xs: seq<JsValue>, c: Collaborators, i: nat)
    requires f.cookies == Arr(xs) && i < |xs| && !Nullish(xs[i])
    requires forall j :: 0 <= j < i ==> !Nullish(xs[j])
    requires Throws(c, |Prelude(f)| + i)
    ensures Execute(PlanFor(f, c.token), c.fault)
              == Prelude(f) + CookieTrace(xs[..i]) + [Next(Raised(c.fault.value.error))]
  {
    ReachEntry(xs, i);
    PlanStart(f, c.token);
    CutInside(PlanFor(f, c.token), c.fault, Prelude(f), ForEachCookie(xs).calls, i);
  }

  /**
   * The iteration of the `forEach` of line 18: it sets the cookies in entry
   * order and stops (`stopped`) at entry `i` when that entry is nullish or
   * its cookie call throws. Nothing is recorded for the entry it stops at.
   */
  method CookieLoop(xs: seq<JsValue>, c: Collaborators, prelude: seq<Effect>) returns (trace: seq<Effect>, i: nat, stopped: bool)
    requires QuietBefore(c, |prelude|)
    ensures i <= |xs| && forall j :: 0 <= j < i ==> !Nullish(xs[j])
    ensures trace == prelude + CookieTrace(xs[..i])
    ensures QuietBefore(c, |trace|)
    ensures stopped ==> i < |xs| && (Nullish(xs[i]) || Throws(c, |trace|))
    ensures !stopped ==> i == |xs|
  {
    trace := prelude;
    i := 0;
    while i < |xs|
      invariant 0 <= i <= |xs|
      invariant forall j :: 0 <= j < i ==> !Nullish(xs[j])
      invariant trace == prelude + CookieTrace(xs[..i])
      invariant QuietBefore(c, |trace|)
    {
      if Nullish(xs[i]) || Throws(c, |trace|) {
        return trace, i, true;
      }
      assert CookieTrace(xs[..i + 1]) == CookieTrace(xs[..i]) + [CookieOf(xs[i])];
      trace := trace + [CookieOf(xs[i])];
      i := i + 1;
    }
    stopped := false;
  }

  /**
   * The `forEach` of line 18. `finished` reports that the run ended inside
   * the loop, with `next` as its last call: reading the name of a nullish
   * entry raises a TypeError before its cookie call is made.
   */
  method SetCookies(f: Fields, c: Collaborators, prelude: seq<Effect>) returns (trace: seq<Effect>, finished: bool)
    requires f.cookies.Arr?
    requires prelude == Prelude(f) && QuietBefore(c, |prelude|)
    ensures finished ==> trace == Execute(PlanFor(f, c.token), c.fault)
    ensures !finished ==> CookieCalls(f.cookies).abort.None? && trace == prelude + CookieCalls(f.cookies).calls
    ensures !finished ==> QuietBefore(c, |trace|)
  {
    var xs := f.cookies.items;
    var i, stopped;
    trace, i, stopped := CookieLoop(xs, c, prelude);
    if stopped {
      if Nullish(xs[i]) {
        StopAtEntry(f, xs, c, i);
        return trace + [Next(TypeError(CookieEntryNullish))], true;
      }
      ThrowAtEntry(f, xs, c, i);
      return trace + [Next(Raised(c.fault.value.error))], true;
    }
    PlannedCookies(xs);
    assert xs[..i] == xs;
    finished := false;
  }

  /** Lines 20-24 of the wrapper: redirect, or the token fetch and then render or send */
  method Conclude(f: Fields, c: Collaborators, before: seq<Effect>) returns (trace: seq<Effect>)
    requires CookieCalls(f.cookies).abort.None?
    requires before == Prelude(f) + CookieCalls(f.cookies).calls && QuietBefore(c, |before|)
    ensures trace == Execute(PlanFor(f, c.token), c.fault)
  {
    trace := before;
    if Truthy(f.redirect) {
      var args := Spread(f.redirect);
      if args.None? {
        return trace + [Next(TypeError(RedirectNotIterable))];
      }
      if Throws(c, |trace|) {
        return trace + [Next(Raised(c.fault.value.error))];
      }
      return trace + [Redirect(args.value)];
    }
    var locals := f.renderLocals;
    if Truthy(f.csrf) {
      if Throws(c, |trace|) {
        return trace + [Next(Raised(c.fault.value.error))];
      }
      trace := trace + [CsrfToken];
      var updated := AssignProperty(locals, "csrf", c.token);
      if updated.None? {
        return trace + [Next(TypeError(LocalsNullish))];
      }
      locals := updated.value;
    }
    if Throws(c, |trace|) {
      return trace + [Next(Raised(c.fault.value.error))];
    }
    if Truthy(f.render) {
      return trace + [Render(f.render, locals)];
    }
    if Truthy(f.body) {
      return trace + [Send(Some(f.body))];
    }
    return trace + [Send(None)];
  }
}
