/**
 * What the wrapper promises about the calls it makes: error forwarding,
 * ordering, the status/redirect exclusion, cookie order, the terminal
 * priority, the csrf merge, and how a throwing collaborator cuts the run.
 */
module AdapterProperties {
  import opened Wrappers
  import opened JsValues
  import opened Effects
  import opened Adapter

  /** The status the wrapper sets: `statusCode`, or 200 when it is undefined */
  function StatusCode(v: JsValue): JsValue
    requires !Nullish(v)
  {
    if Read(v, "statusCode").Undefined? then Num(200) else Read(v, "statusCode")
  }

  /** A `cookies` field iterated to the end: absent, or an array with no nullish entry */
  predicate CookiesIterable(v: JsValue)
    requires !Nullish(v)
  {
    var cs := Read(v, "cookies");
    cs.Undefined? || (cs.Arr? && forall j :: 0 <= j < |cs.items| ==> !Nullish(cs.items[j]))
  }

  /** The entries of `cookies`, none when it is absent */
  function CookieEntries(v: JsValue): seq<JsValue>
    requires !Nullish(v)
  {
    var cs := Read(v, "cookies");
    if cs.Arr? then cs.items else []
  }

  /** The status call: made unless `redirect` is truthy */
  function StatusTrace(v: JsValue): seq<Effect>
    requires !Nullish(v)
  {
    if Truthy(Read(v, "redirect")) then [] else [Status(StatusCode(v))]
  }

  /** The header call: the whole `headers` value in one call, when it is truthy */
  function HeaderTrace(v: JsValue): seq<Effect>
    requires !Nullish(v)
  {
    if Truthy(Read(v, "headers")) then [Set(Read(v, "headers"))] else []
  }

  /** With iterable cookies, the plan is prelude, one call per cookie, then the finishing calls */
  lemma IterablePlan(v: JsValue, token: JsValue)
    requires !Nullish(v) && CookiesIterable(v)
    ensures var f := Destructure(v).value;
            && f.cookies == Arr(CookieEntries(v))
            && CookieCalls(f.cookies) == Plan(CookieTrace(CookieEntries(v)), None)
            && PlanFor(f, token) == Plan(Prelude(f) + CookieTrace(CookieEntries(v)) + Finish(f, token).calls, Finish(f, token).abort)
  {
    var f := Destructure(v).value;
    var xs := CookieEntries(v);
    assert f.cookies == Arr(xs);
    var p := ForEachCookie(xs);
    assert p.abort.None?;
    assert p.calls == CookieTrace(xs);
  }

  /** Without a redirect or a token fetch, a run where nothing throws is the prelude, one call per cookie, then the response */
  lemma DirectRun(f: Fields, token: JsValue)
    requires !Truthy(f.redirect) && !Truthy(f.csrf)
    requires f.cookies.Arr? && forall j :: 0 <= j < |f.cookies.items| ==> !Nullish(f.cookies.items[j])
    ensures Execute(PlanFor(f, token), None) == Prelude(f) + CookieTrace(f.cookies.items) + [Respond(f, f.renderLocals)]
  {
    var p := ForEachCookie(f.cookies.items);
    assert p.abort.None?;
    assert p.calls == CookieTrace(f.cookies.items);
  }

  /** The destructured fields, read back from the handler's result */
  lemma FieldsOf(v: JsValue)
    requires !Nullish(v)
    ensures var f := Destructure(v).value;
            && f.status == StatusCode(v)
            && f.body == Read(v, "body")
            && f.headers == Read(v, "headers")
            && f.render == Read(v, "render")
            && f.renderLocals == OrDefault(Read(v, "renderLocals"), Obj(map[]))
            && f.redirect == Read(v, "redirect")
            && f.csrf == Read(v, "csrf")
            && f.cookies == OrDefault(Read(v, "cookies"), Arr([]))
  {
  }

  /** The prelude is the status call, unless there is a redirect, then the header call */
  lemma PreludeContents(v: JsValue)
    requires !Nullish(v)
    ensures Prelude(Destructure(v).value) == StatusTrace(v) + HeaderTrace(v)
  {
  }

  /**
   * A handler that throws or rejects leads to `next(e)` and nothing else; a
   * nullish result leads to `next` with the TypeError of the destructuring.
   * Conversely any response call at all means the handler produced a
   * non-nullish value.
   */
  lemma HandlerFailureOnlyCallsNext(o: Outcome, c: Collaborators)
    ensures !o.Resolved? ==> Adapt(o, c) == [Next(Raised(o.error))]
    ensures o.Resolved? && Nullish(o.value) ==> Adapt(o, c) == [Next(TypeError(ResultNullish))]
    ensures (exists i :: 0 <= i < |Adapt(o, c)| && !Adapt(o, c)[i].Next?) ==> o.Resolved? && !Nullish(o.value)
  {
  }

  /** The finishing calls: at most the token fetch and then one terminal call */
  lemma FinishShape(f: Fields, token: JsValue)
    ensures var fin := Finish(f, token);
            && InOrder(fin.calls)
            && (forall i :: 0 <= i < |fin.calls| ==> 3 <= Rank(KindOf(fin.calls[i])) && !fin.calls[i].Next?)
            && (forall i :: 0 <= i < |fin.calls| && (i < |fin.calls| - 1 || fin.abort.Some?) ==> fin.calls[i].CsrfToken?)
            && (fin.abort.None? ==> |fin.calls| > 0 && IsTerminal(fin.calls[|fin.calls| - 1]))
  {
  }

  /** The status, header and cookie calls come in order and none is terminal */
  lemma SetupShape(f: Fields)
    ensures var calls := Prelude(f) + CookieCalls(f.cookies).calls;
            && InOrder(calls)
            && (forall i :: 0 <= i < |calls| ==> Rank(KindOf(calls[i])) < 3 && !calls[i].Next?)
  {
    var ck := CookieCalls(f.cookies);
    assert forall i :: 0 <= i < |ck.calls| ==> ck.calls[i].Cookie?;
    InOrderJoin(Prelude(f), ck.calls);
  }

  /** A plan whose calls keep the fixed order and end in a terminal call exactly when it completes */
  predicate Shaped(p: Plan) {
    && InOrder(p.calls)
    && (forall i :: 0 <= i < |p.calls| && (i < |p.calls| - 1 || p.abort.Some?) ==> Rank(KindOf(p.calls[i])) < 4)
    && (p.abort.None? ==> |p.calls| > 0 && IsTerminal(p.calls[|p.calls| - 1]))
  }

  /** The calls a plan makes keep the fixed order, only a complete plan ends in a terminal call, and no call is `next` */
  lemma PlanShape(f: Fields, token: JsValue)
    ensures Shaped(PlanFor(f, token))
    ensures var p := PlanFor(f, token); forall i :: 0 <= i < |p.calls| ==> !p.calls[i].Next?
  {
    var setup := Prelude(f) + CookieCalls(f.cookies).calls;
    SetupShape(f);
    if CookieCalls(f.cookies).abort.None? {
      var fin := Finish(f, token);
      FinishShape(f, token);
      InOrderJoin(setup, fin.calls);
      var calls := setup + fin.calls;
      assert PlanFor(f, token) == Plan(calls, fin.abort);
      forall i | 0 <= i < |calls|
        ensures (i < |calls| - 1 || fin.abort.Some?) ==> Rank(KindOf(calls[i])) < 4
        ensures !calls[i].Next?
      {
        if i >= |setup| {
          assert calls[i] == fin.calls[i - |setup|];
        }
      }
      if fin.abort.None? {
        assert calls[|calls| - 1] == fin.calls[|fin.calls| - 1];
      }
    }
  }

  /** Cutting a shaped plan at a throwing call, or ending it with its TypeError, leaves a well-formed trace */
  lemma ExecuteWellFormed(p: Plan, fault: Option<Fault>)
    requires Shaped(p)
    ensures WellFormed(Execute(p, fault))
  {
    if fault.Some? && fault.value.at < |p.calls| {
      var k := fault.value.at;
      InOrderJoin(p.calls[..k], [Next(Raised(fault.value.error))]);
    } else if p.abort.Some? {
      InOrderJoin(p.calls, [Next(p.abort.value)]);
    }
  }

  /** A handler that produced a non-nullish value: the trace is its plan, run against the collaborators */
  lemma ResolvedTrace(v: JsValue, c: Collaborators)
    requires !Nullish(v)
    ensures Adapt(Resolved(v), c) == Execute(PlanFor(Destructure(v).value, c.token), c.fault)
  {
  }

  /** Every run, whatever the handler and the collaborators do, yields a well-formed trace */
  lemma AdaptWellFormed(o: Outcome, c: Collaborators)
    ensures WellFormed(Adapt(o, c))
  {
    if o.Resolved? && !Nullish(o.value) {
      var f := Destructure(o.value).value;
      PlanShape(f, c.token);
      ExecuteWellFormed(PlanFor(f, c.token), c.fault);
      ResolvedTrace(o.value, c);
    }
  }

  /** Without a throwing collaborator, a run starts with its prelude, and every later call is a cookie or comes after the cookies */
  lemma QuietSplit(f: Fields, token: JsValue)
    ensures var t := Execute(PlanFor(f, token), None);
            && |Prelude(f)| <= |t| && t[..|Prelude(f)|] == Prelude(f)
            && forall i :: |Prelude(f)| <= i < |t| ==> Rank(KindOf(t[i])) >= 2
  {
    var ck := CookieCalls(f.cookies);
    assert forall i :: 0 <= i < |ck.calls| ==> ck.calls[i].Cookie?;
    if ck.abort.None? {
      FinishShape(f, token);
    }
  }

  /** The status and header calls of the prelude */
  lemma PreludeParts(f: Fields)
    ensures Only(Prelude(f), StatusKind) == StatusPart(f)
    ensures Only(Prelude(f), SetKind) == HeaderPart(f)
  {
    var s, h := StatusPart(f), HeaderPart(f);
    assert Prelude(f) == [] + s + h;
    assert Prelude(f) == s + h + [];
    OnlyLayout([], s, h, StatusKind);
    OnlyLayout(s, h, [], SetKind);
  }

  /** The status call of a run without a throwing collaborator, from the destructured fields */
  lemma QuietStatus(f: Fields, token: JsValue)
    ensures var t := Execute(PlanFor(f, token), None);
            && Only(t, StatusKind) == StatusPart(f)
            && (!Truthy(f.redirect) ==> t[0] == Status(f.status))
  {
    var t := Execute(PlanFor(f, token), None);
    QuietSplit(f, token);
    assert forall i :: |Prelude(f)| <= i < |t| ==> KindOf(t[i]) != StatusKind;
    OnlyPrefix(t, Prelude(f), StatusKind);
    PreludeParts(f);
  }

  /** The header call of a run without a throwing collaborator, from the destructured fields */
  lemma QuietHeaders(f: Fields, token: JsValue)
    ensures var t := Execute(PlanFor(f, token), None);
            && Only(t, SetKind) == HeaderPart(f)
            && (Truthy(f.headers) ==> t[|StatusPart(f)|] == Set(f.headers))
  {
    var t := Execute(PlanFor(f, token), None);
    QuietSplit(f, token);
    assert forall i :: |Prelude(f)| <= i < |t| ==> KindOf(t[i]) != SetKind;
    OnlyPrefix(t, Prelude(f), SetKind);
    PreludeParts(f);
  }

  /** The status call is made exactly when `redirect` is falsy, once, as the first call, with `statusCode` or 200 */
  lemma StatusUnlessRedirect(v: JsValue, c: Collaborators)
    requires !Nullish(v) && c.fault.None?
    ensures var t := Adapt(Resolved(v), c);
            && Only(t, StatusKind) == (if Truthy(Read(v, "redirect")) then [] else [Status(StatusCode(v))])
            && (!Truthy(Read(v, "redirect")) ==> t[0] == Status(StatusCode(v)))
  {
    var f := Destructure(v).value;
    ResolvedTrace(v, c);
    FieldsOf(v);
    QuietStatus(f, c.token);
  }

  /** The header call is made once, with the whole `headers` value, when it is truthy, right after the status call */
  lemma HeadersSetOnce(v: JsValue, c: Collaborators)
    requires !Nullish(v) && c.fault.None?
    ensures var t := Adapt(Resolved(v), c);
            && Only(t, SetKind) == HeaderTrace(v)
            && (Truthy(Read(v, "headers")) ==> t[if Truthy(Read(v, "redirect")) then 0 else 1] == Set(Read(v, "headers")))
  {
    var f := Destructure(v).value;
    ResolvedTrace(v, c);
    FieldsOf(v);
    QuietHeaders(f, c.token);
  }

  /** The finishing calls, followed by `next` when a TypeError ends them */
  function Tail(f: Fields, token: JsValue): seq<Effect> {
    var fin := Finish(f, token);
    fin.calls + (if fin.abort.Some? then [Next(fin.abort.value)] else [])
  }

  /** The token fetch: made when `csrf` is truthy and there is no redirect */
  function TokenFetch(f: Fields): seq<Effect> {
    if Truthy(f.csrf) && !Truthy(f.redirect) then [CsrfToken] else []
  }

  /** The tail is the token fetch, if any, then one call that ends the run */
  lemma TailForm(f: Fields, token: JsValue)
    ensures var t := Tail(f, token);
            && |t| == |TokenFetch(f)| + 1
            && t == TokenFetch(f) + [t[|t| - 1]]
            && Rank(KindOf(t[|t| - 1])) == 4
  {
  }

  /** Without a throwing collaborator and with iterable cookies: prelude, one call per cookie, then the tail */
  lemma IterableTrace(v: JsValue, c: Collaborators)
    requires !Nullish(v) && CookiesIterable(v) && c.fault.None?
    ensures var f := Destructure(v).value;
            Adapt(Resolved(v), c) == Prelude(f) + CookieTrace(CookieEntries(v)) + Tail(f, c.token)
  {
    ResolvedTrace(v, c);
    IterablePlan(v, c.token);
  }

  /** The prelude holds only status and header calls */
  lemma PreludeKinds(f: Fields)
    ensures forall i :: 0 <= i < |Prelude(f)| ==> Rank(KindOf(Prelude(f)[i])) < 2
  {
  }

  /** The tail holds no status, header or cookie call */
  lemma TailKinds(f: Fields, token: JsValue)
    ensures forall i :: 0 <= i < |Tail(f, token)| ==> Rank(KindOf(Tail(f, token)[i])) >= 3
  {
    FinishShape(f, token);
  }

  /** One cookie call per entry of `cookies`, in entry order, with the entry's name, value and options; none when it is absent */
  lemma CookiesInOrder(v: JsValue, c: Collaborators)
    requires !Nullish(v) && CookiesIterable(v) && c.fault.None?
    ensures Only(Adapt(Resolved(v), c), CookieKind) == CookieTrace(CookieEntries(v))
    ensures |Only(Adapt(Resolved(v), c), CookieKind)| == |CookieEntries(v)|
  {
    var f := Destructure(v).value;
    var pre, cookies, tail := Prelude(f), CookieTrace(CookieEntries(v)), Tail(f, c.token);
    IterableTrace(v, c);
    PreludeKinds(f);
    TailKinds(f, c.token);
    assert forall i :: 0 <= i < |pre| ==> KindOf(pre[i]) != CookieKind;
    assert forall i :: 0 <= i < |cookies| ==> KindOf(cookies[i]) == CookieKind;
    assert forall i :: 0 <= i < |tail| ==> KindOf(tail[i]) != CookieKind;
    OnlyLayout(pre, cookies, tail, CookieKind);
  }

  /**
   * A nullish cookie entry stops the `forEach` there: the entries before it
   * are set, and `next` receives the TypeError of reading its name.
   */
  lemma CookieEntryNullishStops(v: JsValue, c: Collaborators, n: nat)
    requires !Nullish(v) && c.fault.None?
    requires Read(v, "cookies").Arr? && n < |Read(v, "cookies").items|
    requires Nullish(Read(v, "cookies").items[n])
    requires forall j :: 0 <= j < n ==> !Nullish(Read(v, "cookies").items[j])
    ensures Adapt(Resolved(v), c)
              == StatusTrace(v) + HeaderTrace(v) + CookieTrace(Read(v, "cookies").items[..n]) + [Next(TypeError(CookieEntryNullish))]
  {
    var f := Destructure(v).value;
    var xs := Read(v, "cookies").items;
    ResolvedTrace(v, c);
    FieldsOf(v);
    PreludeContents(v);
    var p := ForEachCookie(xs);
    assert |p.calls| == n;
    assert p.calls == CookieTrace(xs[..n]);
  }

  /** A `cookies` value other than an array or undefined: `forEach` is missing, and `next` gets the TypeError after the headers */
  lemma CookiesNotArrayStops(v: JsValue, c: Collaborators)
    requires !Nullish(v) && c.fault.None?
    requires !Read(v, "cookies").Undefined? && !Read(v, "cookies").Arr?
    ensures Adapt(Resolved(v), c) == StatusTrace(v) + HeaderTrace(v) + [Next(TypeError(CookiesNotArray))]
  {
    ResolvedTrace(v, c);
    FieldsOf(v);
    PreludeContents(v);
  }

  /**
   * A truthy `redirect` (an empty array included) suppresses the status
   * call and ends the run with the redirect, its arguments spread: no token
   * fetch, render or send follows, whatever the other fields hold.
   */
  lemma RedirectShortCircuits(v: JsValue, c: Collaborators)
    requires !Nullish(v) && CookiesIterable(v) && c.fault.None?
    requires Truthy(Read(v, "redirect"))
    ensures Adapt(Resolved(v), c)
              == HeaderTrace(v) + CookieTrace(CookieEntries(v))
                 + match Spread(Read(v, "redirect"))
                   case Some(args) => [Redirect(args)]
                   case None => [Next(TypeError(RedirectNotIterable))]
  {
    IterableTrace(v, c);
    FieldsOf(v);
    PreludeContents(v);
  }

  /** The token fetch of a trace laid out as prelude, cookies and tail */
  lemma TokenOfLayout(f: Fields, token: JsValue, cookies: seq<Effect>)
    requires forall i :: 0 <= i < |cookies| ==> cookies[i].Cookie?
    ensures var t := Prelude(f) + cookies + Tail(f, token);
            && Only(t, CsrfKind) == TokenFetch(f)
            && (TokenFetch(f) != [] ==> t[|Prelude(f)| + |cookies|] == CsrfToken)
  {
    var head := Prelude(f) + cookies;
    var tail := Tail(f, token);
    TailForm(f, token);
    var last := tail[|tail| - 1];
    PreludeKinds(f);
    forall i | 0 <= i < |head|
      ensures KindOf(head[i]) != CsrfKind
    {
      if i >= |Prelude(f)| {
        assert head[i] == cookies[i - |Prelude(f)|];
      }
    }
    assert KindOf(last) != CsrfKind;
    assert head + tail == head + TokenFetch(f) + [last];
    OnlyLayout(head, TokenFetch(f), [last], CsrfKind);
  }

  /**
   * Without a redirect, a truthy `csrf` fetches the token exactly once,
   * right after the last cookie, whether or not a render follows; otherwise
   * the token is never fetched.
   */
  lemma CsrfFetchedOnce(v: JsValue, c: Collaborators)
    requires !Nullish(v) && CookiesIterable(v) && c.fault.None?
    ensures var t := Adapt(Resolved(v), c);
            && Only(t, CsrfKind) == (if Truthy(Read(v, "csrf")) && !Truthy(Read(v, "redirect")) then [CsrfToken] else [])
            && (Truthy(Read(v, "csrf")) && !Truthy(Read(v, "redirect")) ==>
                  t[1 + |HeaderTrace(v)| + |CookieEntries(v)|] == CsrfToken)
  {
    var t := Adapt(Resolved(v), c);
    var f := Destructure(v).value;
    var cookies := CookieTrace(CookieEntries(v));
    IterableTrace(v, c);
    assert t == Prelude(f) + cookies + Tail(f, c.token);
    TokenOfLayout(f, c.token, cookies);
    FieldsOf(v);
    assert TokenFetch(f) == (if Truthy(Read(v, "csrf")) && !Truthy(Read(v, "redirect")) then [CsrfToken] else []);
    if TokenFetch(f) != [] {
      PreludeContents(v);
      assert |Prelude(f)| + |cookies| == 1 + |HeaderTrace(v)| + |CookieEntries(v)|;
    }
  }

  /** The locals handed to the view: `renderLocals` (default `{}`), with the token under `csrf` when it was fetched */
  function RenderLocals(v: JsValue, token: JsValue): JsValue
    requires !Nullish(v)
  {
    var base := OrDefault(Read(v, "renderLocals"), Obj(map[]));
    if Truthy(Read(v, "csrf")) && base.Obj? then Obj(base.props["csrf" := token]) else base
  }

  /**
   * Without a redirect, a truthy `render` ends the run with the render call
   * and its locals; no send or redirect is ever made.
   */
  lemma RenderWinsOverSend(v: JsValue, c: Collaborators)
    requires !Nullish(v) && CookiesIterable(v) && c.fault.None?
    requires !Truthy(Read(v, "redirect")) && Truthy(Read(v, "render"))
    requires Truthy(Read(v, "csrf")) ==> !Read(v, "renderLocals").Null?
    ensures var t := Adapt(Resolved(v), c);
            && t[|t| - 1] == Render(Read(v, "render"), RenderLocals(v, c.token))
            && forall i :: 0 <= i < |t| ==> !t[i].Send? && !t[i].Redirect?
  {
    var t := Adapt(Resolved(v), c);
    IterableTrace(v, c);
    FieldsOf(v);
    AdaptWellFormed(Resolved(v), c);
    WellFormedMeans(t);
  }

  /**
   * Without a redirect or a render, the run ends with `res.send(body)` for a
   * truthy body and with `res.send()` otherwise (`0`, `''`, `false`, `null`
   * and an absent body alike); it is the only terminal call.
   */
  lemma BodySentWhenTruthy(v: JsValue, c: Collaborators)
    requires !Nullish(v) && CookiesIterable(v) && c.fault.None?
    requires !Truthy(Read(v, "redirect")) && !Truthy(Read(v, "render"))
    requires Truthy(Read(v, "csrf")) ==> !Read(v, "renderLocals").Null?
    ensures var t := Adapt(Resolved(v), c);
            && t[|t| - 1] == Send(if Truthy(Read(v, "body")) then Some(Read(v, "body")) else None)
            && forall i :: 0 <= i < |t| - 1 ==> !IsTerminal(t[i])
  {
    var t := Adapt(Resolved(v), c);
    IterableTrace(v, c);
    FieldsOf(v);
    AdaptWellFormed(Resolved(v), c);
    WellFormedMeans(t);
  }

  /** A truthy `csrf` with `renderLocals: null`: the token is fetched, then storing it throws and `next` gets the TypeError */
  lemma CsrfOnNullLocals(v: JsValue, c: Collaborators)
    requires !Nullish(v) && CookiesIterable(v) && c.fault.None?
    requires !Truthy(Read(v, "redirect")) && Truthy(Read(v, "csrf")) && Read(v, "renderLocals").Null?
    ensures Adapt(Resolved(v), c)
              == [Status(StatusCode(v))] + HeaderTrace(v) + CookieTrace(CookieEntries(v)) + [CsrfToken, Next(TypeError(LocalsNullish))]
  {
    IterableTrace(v, c);
    FieldsOf(v);
    PreludeContents(v);
  }

  /**
   * A collaborator call that throws cuts the run: the calls before it are
   * those of the run where nothing throws, and `next` receives the error.
   * A fault numbered past the last call changes nothing.
   */
  lemma FaultCutsRun(o: Outcome, c: Collaborators)
    requires c.fault.Some?
    ensures var quiet := Adapt(o, c.(fault := None));
            var k := c.fault.value.at;
            Adapt(o, c) == if k < |quiet| && !quiet[k].Next? then quiet[..k] + [Next(Raised(c.fault.value.error))] else quiet
  {
    if o.Resolved? && !Nullish(o.value) {
      var f := Destructure(o.value).value;
      var p := PlanFor(f, c.token);
      PlanShape(f, c.token);
      ResolvedTrace(o.value, c);
      ResolvedTrace(o.value, c.(fault := None));
      var k := c.fault.value.at;
      var quiet := Execute(p, None);
      if k < |p.calls| {
        assert quiet[..|p.calls|] == p.calls;
        assert quiet[..k] == p.calls[..k];
      }
    }
  }
}
