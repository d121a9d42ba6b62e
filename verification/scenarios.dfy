/**
 * The scenarios of the repository's unit tests, replayed on the model with
 * collaborators that do not throw, and two edge cases the tests leave out
 * (an empty redirect array, a zero body). The token is irrelevant to all of
 * them. Each scenario with a non-nullish result is proved by first reading
 * off the destructured fields and then applying the general `DirectRun` or
 * `RedirectShortCircuits`; the error scenarios follow from the definitions.
 */
module Scenarios {
  import opened Wrappers
  import opened JsValues
  import opened Effects
  import opened Adapter
  import AdapterProperties

  /** A handler that throws synchronously: `next` gets the error, and nothing else is called */
  lemma SynchronousErrorGoesToNext(c: Collaborators)
    ensures var error := Obj(map["message" := Str("catch me!")]);
            Adapt(Threw(error), c) == [Next(Raised(error))]
  {
  }

  /** A handler whose promise rejects behaves the same */
  lemma AsynchronousErrorGoesToNext(c: Collaborators)
    ensures var error := Obj(map["message" := Str("catch me!")]);
            Adapt(Rejected(error), c) == [Next(Raised(error))]
  {
  }

  /**
   * A handler that calls `next('test')` itself and returns what `next`
   * returns, `undefined`: the adapter then forwards the TypeError of
   * destructuring `undefined`. The handler's own call is not the adapter's.
   */
  lemma HandlerCallingNext(c: Collaborators)
    ensures Adapt(Resolved(Undefined), c) == [Next(TypeError(ResultNullish))]
  {
  }

  /** `{ body: { id } }`: status 200 by default, then the body is sent */
  lemma DefaultStatusThenBody(c: Collaborators)
    requires c.fault.None?
    ensures var body := Obj(map["id" := Str("1")]);
            Adapt(Resolved(Obj(map["body" := body])), c) == [Status(Num(200)), Send(Some(body))]
  {
    var body := Obj(map["id" := Str("1")]);
    var result := Obj(map["body" := body]);
    var f := Fields(status := Num(200), body := body, headers := Undefined, cookies := Arr([]), render := Undefined, renderLocals := Obj(map[]), redirect := Undefined, csrf := Undefined);
    var m := result.props;
    assert "body" in m && m["body"] == body;
    assert "statusCode" !in m && "headers" !in m && "cookies" !in m && "render" !in m && "renderLocals" !in m && "redirect" !in m && "csrf" !in m;
    assert Destructure(result) == Some(f);
    AdapterProperties.ResolvedTrace(result, c);
    AdapterProperties.DirectRun(f, c.token);
  }

  /** `{ statusCode: 201, headers, body }`: status, headers, then the body */
  lemma StatusHeadersBody(c: Collaborators)
    requires c.fault.None?
    ensures var headers := Obj(map["X-My-Header" := Str("hello")]);
            var body := Obj(map["id" := Str("1")]);
            var result := Obj(map["statusCode" := Num(201), "headers" := headers, "body" := body]);
            Adapt(Resolved(result), c) == [Status(Num(201)), Set(headers), Send(Some(body))]
  {
    var headers := Obj(map["X-My-Header" := Str("hello")]);
    var body := Obj(map["id" := Str("1")]);
    var result := Obj(map["statusCode" := Num(201), "headers" := headers, "body" := body]);
    var f := Fields(status := Num(201), body := body, headers := headers, cookies := Arr([]), render := Undefined, renderLocals := Obj(map[]), redirect := Undefined, csrf := Undefined);
    var m := result.props;
    assert "statusCode" in m && m["statusCode"] == Num(201);
    assert "headers" in m && m["headers"] == headers;
    assert "body" in m && m["body"] == body;
    assert "cookies" !in m && "render" !in m && "renderLocals" !in m && "redirect" !in m && "csrf" !in m;
    assert Destructure(result) == Some(f);
    AdapterProperties.ResolvedTrace(result, c);
    AdapterProperties.DirectRun(f, c.token);
  }

  /** `{ statusCode: 201, cookies: [{ name: 'rememberme', value: 1 }] }`: the cookie, without options, then an empty send */
  lemma CookieWithoutOptions(c: Collaborators)
    requires c.fault.None?
    ensures var cookie := Obj(map["name" := Str("rememberme"), "value" := Num(1)]);
            var result := Obj(map["statusCode" := Num(201), "cookies" := Arr([cookie])]);
            Adapt(Resolved(result), c) == [Status(Num(201)), Cookie(Str("rememberme"), Num(1), Undefined), Send(None)]
  {
    var cookie := Obj(map["name" := Str("rememberme"), "value" := Num(1)]);
    var result := Obj(map["statusCode" := Num(201), "cookies" := Arr([cookie])]);
    var f := Fields(status := Num(201), body := Undefined, headers := Undefined, cookies := Arr([cookie]), render := Undefined, renderLocals := Obj(map[]), redirect := Undefined, csrf := Undefined);
    var m := result.props;
    assert "statusCode" in m && m["statusCode"] == Num(201);
    assert "cookies" in m && m["cookies"] == Arr([cookie]);
    assert "body" !in m && "headers" !in m && "render" !in m && "renderLocals" !in m && "redirect" !in m && "csrf" !in m;
    assert Destructure(result) == Some(f);
    var x := cookie.props;
    assert x["name"] == Str("rememberme") && x["value"] == Num(1) && "options" !in x;
    assert CookieOf(cookie) == Cookie(Str("rememberme"), Num(1), Undefined);
    assert Prelude(f) == [Status(Num(201))];
    assert CookieTrace([cookie]) == [CookieOf(cookie)];
    assert Respond(f, f.renderLocals) == Send(None);
    AdapterProperties.DirectRun(f, c.token);
    assert Execute(PlanFor(f, c.token), None) == [Status(Num(201)), Cookie(Str("rememberme"), Num(1), Undefined), Send(None)];
    AdapterProperties.ResolvedTrace(result, c);
  }

  /** `{ statusCode: 201, render: 'sign-up', renderLocals: { foo: 'bar' } }`: status, then one render with those locals */
  lemma RenderWithLocals(c: Collaborators)
    requires c.fault.None?
    ensures var locals := Obj(map["foo" := Str("bar")]);
            var result := Obj(map["statusCode" := Num(201), "render" := Str("sign-up"), "renderLocals" := locals]);
            Adapt(Resolved(result), c) == [Status(Num(201)), Render(Str("sign-up"), locals)]
  {
    var locals := Obj(map["foo" := Str("bar")]);
    var result := Obj(map["statusCode" := Num(201), "render" := Str("sign-up"), "renderLocals" := locals]);
    var f := Fields(status := Num(201), body := Undefined, headers := Undefined, cookies := Arr([]), render := Str("sign-up"), renderLocals := locals, redirect := Undefined, csrf := Undefined);
    var m := result.props;
    assert "statusCode" in m && m["statusCode"] == Num(201);
    assert "render" in m && m["render"] == Str("sign-up");
    assert "renderLocals" in m && m["renderLocals"] == locals;
    assert "body" !in m && "headers" !in m && "cookies" !in m && "redirect" !in m && "csrf" !in m;
    assert Destructure(result) == Some(f);
    AdapterProperties.ResolvedTrace(result, c);
    AdapterProperties.DirectRun(f, c.token);
  }

  /** The mounted route `{ statusCode: 302, body }`: without a redirect field, 302 is just a status and the body is sent */
  lemma FoundStatusWithoutRedirect(c: Collaborators)
    requires c.fault.None?
    ensures var body := Obj(map["hello" := Str("world")]);
            var result := Obj(map["statusCode" := Num(302), "body" := body]);
            Adapt(Resolved(result), c) == [Status(Num(302)), Send(Some(body))]
  {
    var body := Obj(map["hello" := Str("world")]);
    var result := Obj(map["statusCode" := Num(302), "body" := body]);
    var f := Fields(status := Num(302), body := body, headers := Undefined, cookies := Arr([]), render := Undefined, renderLocals := Obj(map[]), redirect := Undefined, csrf := Undefined);
    var m := result.props;
    assert "statusCode" in m && m["statusCode"] == Num(302);
    assert "body" in m && m["body"] == body;
    assert "headers" !in m && "cookies" !in m && "render" !in m && "renderLocals" !in m && "redirect" !in m && "csrf" !in m;
    assert Destructure(result) == Some(f);
    AdapterProperties.ResolvedTrace(result, c);
    AdapterProperties.DirectRun(f, c.token);
  }

  /** `{ redirect: [], csrf: true, render: 'home', body: 'hi' }`: an empty array is truthy, so the redirect alone ends the run */
  lemma EmptyRedirectWins(c: Collaborators)
    requires c.fault.None?
    ensures var result := Obj(map["redirect" := Arr([]), "csrf" := Bool(true), "render" := Str("home"), "body" := Str("hi")]);
            Adapt(Resolved(result), c) == [Redirect([])]
  {
    var result := Obj(map["redirect" := Arr([]), "csrf" := Bool(true), "render" := Str("home"), "body" := Str("hi")]);
    assert Read(result, "redirect") == Arr([]);
    assert Read(result, "headers") == Undefined && Read(result, "cookies") == Undefined;
    AdapterProperties.RedirectShortCircuits(result, c);
  }

  /** `{ body: 0 }`: a falsy body is not sent */
  lemma ZeroBodyIsNotSent(c: Collaborators)
    requires c.fault.None?
    ensures Adapt(Resolved(Obj(map["body" := Num(0)])), c) == [Status(Num(200)), Send(None)]
  {
    var result := Obj(map["body" := Num(0)]);
    var f := Fields(status := Num(200), body := Num(0), headers := Undefined, cookies := Arr([]), render := Undefined, renderLocals := Obj(map[]), redirect := Undefined, csrf := Undefined);
    var m := result.props;
    assert "body" in m && m["body"] == Num(0);
    assert "statusCode" !in m && "headers" !in m && "cookies" !in m && "render" !in m && "renderLocals" !in m && "redirect" !in m && "csrf" !in m;
    assert Destructure(result) == Some(f);
    AdapterProperties.ResolvedTrace(result, c);
    AdapterProperties.DirectRun(f, c.token);
  }
}
