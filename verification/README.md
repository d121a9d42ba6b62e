# async-express-controller, modelled in Dafny

The repository exports one function (index.js:1-28). It wraps an asynchronous
request handler `fn` and returns an Express-style handler `(req, res, next, ...args)`.
That handler awaits `fn`, destructures the descriptor object `fn` produced,
and turns it into calls on the response object: `res.status`, `res.set`,
`res.cookie` (once per cookie), and then exactly one of `res.redirect`,
`res.render` or `res.send`. Before the render or send it may call `req.csrfToken()`.
Anything thrown inside the `try` goes to `next`.

The model treats the wrapper as a pure function (the one in-place write it makes is listed under "Left out") from how the handler settled
(`Adapter.Outcome`) and how the collaborators behave (`Adapter.Collaborators`:
the token `req.csrfToken()` returns, and optionally one call that throws) to
the ordered list of calls made (`seq<Effects.Effect>`, ending in `Next(e)` when
the `catch` runs).

- `wrappers.dfy`: the `Option` type.
- `js_values.dfy` (`JsValues`): the JavaScript values the wrapper looks at,
  with `Truthy` (JavaScript's truthiness test), property reads and writes,
  destructuring defaults and argument spreading.
- `effects.dfy` (`Effects`): the recorded calls, the TypeErrors the runtime
  raises, and the fixed order every trace follows (`WellFormed`).
- `adapter.dfy` (`Adapter`): `Adapt` builds the trace from a plan, meaning
  the calls a run makes when no collaborator throws. `Run`, `Dispatch`,
  `SetCookies` (with its loop `CookieLoop`) and `Conclude` follow index.js statement by statement, and
  they are proved to produce exactly `Adapt`'s trace.
- `properties.dfy` (`AdapterProperties`): the properties the wrapper
  promises, stated over `Adapt` for every input.
- `scenarios.dfy` (`Scenarios`): the unit-test scenarios of index.test.js,
  replayed on the model, and two edge cases of index.js the tests do not
  cover (`EmptyRedirectWins`, `ZeroBodyIsNotSent`).

Every branch in index.js:15-24 is a truthiness test, and the model keeps it
that way. `0`, `''`, `false`, `null` and `undefined` are falsy. Every array and
object is truthy, including `[]`. So `redirect: []` suppresses the status
call and redirects with no arguments, and `body: 0` leads to `res.send()`.
The destructuring defaults (index.js:5, 8, 10) replace `undefined` only. For
example, `statusCode: null` leads to `res.status(null)`.

The runtime raises a TypeError, which goes to `next`, in these cases:
- the handler's value is `undefined` or `null`;
- `cookies` is neither undefined nor an array, so it has no `forEach`;
- a cookie entry is `undefined` or `null`;
- a truthy `redirect` is neither an array nor a string, so it cannot be spread;
- `renderLocals` is `null` when `csrf` is truthy. The token has already been
  fetched by then: the right-hand side of the assignment is evaluated before
  the store throws.

index.js has no `'use strict'`. So when `renderLocals` is a string, number or
boolean, the `csrf` assignment is silently dropped.

Every collaborator call sits inside the `try` block (index.js:2-27). So a
response method that throws synchronously also ends the run with `next(e)`,
and nothing after it runs. The property `FaultCutsRun` states this. In the
test at index.test.js:53-58 the handler calls `next('test')` and returns `undefined`, which is what the
test double returns. The wrapper does not go on to apply any effects: it
forwards the TypeError from destructuring `undefined`
(`Scenarios.HandlerCallingNext`). The handler's own call to `next` is not a
call the wrapper makes, so it is not part of the trace.

## Model

| member | source | states |
|---|---|---|
| JsValues.FalsyValues | index.js:15-24 | Among the values modelled, exactly five are falsy: `undefined`, `null`, `false`, `0`, `''`. Every array and every object is truthy. |
| JsValues.Truthy | index.js:15-24 | The truthiness test of every `if` in the wrapper. `FalsyValues` states which values fail it. |
| JsValues.GetProperty | index.js:4-13 | Reading a property throws exactly on `undefined` and `null`. An own property present on an object is returned, and any value other than `undefined` that it returns is an own property of an object. |
| JsValues.OrDefault | index.js:5-10 | `undefined` is replaced by the default, and only `undefined`. Every other value, `null` and `0` included, is kept. |
| JsValues.AssignProperty | index.js:21 | Assigning a property throws exactly on a nullish target. A target that is not an object is left unchanged (sloppy mode). |
| JsValues.AssignThenRead | index.js:21 | On an object, reading the assigned key gives back the assigned value. Every other key reads as before. |
| JsValues.Spread | index.js:20 | Spreading succeeds exactly for arrays and strings. An array gives its elements unchanged; a string gives its characters one by one. |
| Adapter.Destructure | index.js:4-13 | Destructuring fails exactly when the handler's value is `undefined` or `null`. |
| Adapter.ForEachCookie | index.js:18 | One cookie call per entry, in entry order, each with that entry's `name`, `value` and `options`. The calls stop at the first nullish entry, which raises a TypeError; with no nullish entry, every entry is set. |
| Adapter.Adapt | index.js:1-28 | The calls the wrapper makes for a settled handler and given collaborators. `AdaptWellFormed` states their order and single final call, `FaultCutsRun` how a throwing call cuts them, and `Run` that the statement-by-statement wrapper makes the same calls. |
| Adapter.Execute | index.js:2-27 | The `try`/`catch`: a throwing call ends the run with `next(e)`, and so does a runtime TypeError. `FaultCutsRun` states the cut in terms of the run where nothing throws. |
| Adapter.Finish | index.js:20-24 | The redirect, token, render and send steps. `RedirectShortCircuits`, `CsrfFetchedOnce`, `RenderWinsOverSend`, `BodySentWhenTruthy` and `CsrfOnNullLocals` state what they do in terms of the handler's result. |
| Adapter.Run | index.js:1-28 | Executing the wrapper statement by statement makes exactly the calls of `Adapt`, in the same order, for every handler outcome and collaborator behaviour. |
| Adapter.Dispatch | index.js:15-18 | For a destructured result, the status, header and cookie steps, followed by the rest of the run, make exactly the calls of the plan, cut at a throwing collaborator. |
| Adapter.PlannedCookies | index.js:18 | The cookie calls of the plan are, one for one and in entry order, the `res.cookie(x.name, x.value, x.options)` calls for the entries reached, and every entry reached is non-nullish. |
| Adapter.StopAtEntry | index.js:18 | When entry i is the first nullish entry and no collaborator call before it throws, the run is the prelude, the cookie calls for entries 0 to i-1, then `next` with the TypeError. |
| Adapter.ThrowAtEntry | index.js:18 | When the cookie call for entry i throws, the run is the prelude, the cookie calls for entries 0 to i-1, then `next` with the thrown error. |
| Adapter.CookieLoop | index.js:18 | The loop records one cookie call per entry, in entry order. It stops at the first entry that is nullish or whose call throws, without recording it; otherwise it visits every entry. |
| Adapter.SetCookies | index.js:18 | The cookie loop either ends the run as the plan does (at a nullish entry or a throwing call), or appends one cookie call per entry and leaves the later calls untouched. |
| Adapter.Conclude | index.js:20-24 | The redirect, token, render and send steps, taken after the cookies, complete the plan's trace. |
| AdapterProperties.DirectRun | index.js:15-24 | With no redirect, no `csrf` and cookie entries that are all non-nullish, a run where nothing throws is exactly the prelude (status, then headers), one cookie call per entry, then the render or send call with the unchanged `renderLocals`. |
| AdapterProperties.HandlerFailureOnlyCallsNext | index.js:2-27 | A handler that throws or rejects gives a trace that is exactly `next(e)`. A nullish result gives exactly `next` with the destructuring TypeError. Conversely, any response call means the handler produced a non-nullish value. |
| AdapterProperties.AdaptWellFormed | index.js:2-27 | Every trace is non-empty and keeps the order status, headers, cookies, token. It ends in exactly one call among redirect, render, send and `next`, and that call is last. |
| AdapterProperties.StatusUnlessRedirect | index.js:5-15 | The status call is made exactly when `redirect` is falsy. It is then made once, as the first call, with `statusCode`, or 200 when `statusCode` is undefined. |
| AdapterProperties.HeadersSetOnce | index.js:15-16 | The header call is made exactly when `headers` is truthy. It is made once, with the whole value, right after the status call (or first, when there is a redirect). |
| AdapterProperties.CookiesInOrder | index.js:8-18 | When `cookies` is absent or an array with no nullish entry (the other cases are `CookieEntryNullishStops` and `CookiesNotArrayStops`), the cookie calls are one per entry of `cookies`, in order, with each entry's name, value and options. There are as many calls as entries, and none when `cookies` is undefined. |
| AdapterProperties.CookieEntryNullishStops | index.js:18 | In a run where no collaborator throws: at the first nullish cookie entry, the earlier entries have been set and `next` receives a TypeError. No terminal call follows. |
| AdapterProperties.CookiesNotArrayStops | index.js:8-18 | In a run where no collaborator throws, a `cookies` value that is neither an array nor undefined makes `next` receive a TypeError right after the status and header calls. |
| AdapterProperties.RedirectShortCircuits | index.js:15-20 | When `cookies` is absent or an array with no nullish entry (the other cases are `CookieEntryNullishStops` and `CookiesNotArrayStops`), a truthy `redirect`, `[]` included, gives exactly the header call, the cookie calls and then `res.redirect(...redirect)`. There is no status call, token fetch, render or send. A non-iterable `redirect` gives a TypeError instead of the redirect. |
| AdapterProperties.CsrfFetchedOnce | index.js:18-21 | When `cookies` is absent or an array with no nullish entry (the other cases are `CookieEntryNullishStops` and `CookiesNotArrayStops`), the token is fetched exactly once when `csrf` is truthy and `redirect` is falsy, right after the last cookie, whether or not a render follows. Otherwise it is never fetched. |
| AdapterProperties.RenderWinsOverSend | index.js:20-22 | When `cookies` is absent or an array with no nullish entry (the other cases are `CookieEntryNullishStops` and `CookiesNotArrayStops`), there is no redirect, `render` is truthy, and `renderLocals` is not `null` if `csrf` is truthy (that case is `CsrfOnNullLocals`): the last call renders that view. Its locals are `renderLocals` (default `{}`); when the token was fetched and the locals are an object, `csrf` is set to the token and every other key is unchanged, while a string, number, boolean or array is passed on unchanged. No send or redirect call occurs. |
| AdapterProperties.BodySentWhenTruthy | index.js:20-24 | When `cookies` is absent or an array with no nullish entry (the other cases are `CookieEntryNullishStops` and `CookiesNotArrayStops`), there is no redirect or render, and `renderLocals` is not `null` if `csrf` is truthy (that case is `CsrfOnNullLocals`): the run ends with `res.send(body)` when the body is truthy and with `res.send()` otherwise. It is the only terminal call. |
| AdapterProperties.CsrfOnNullLocals | index.js:21 | In a run where no collaborator throws, when `cookies` is absent or an array with no nullish entry and `redirect` is falsy, a truthy `csrf` with `renderLocals: null` fetches the token. Storing it then throws, and `next` receives that TypeError. |
| AdapterProperties.FaultCutsRun | index.js:2-27 | When collaborator call number k throws, the trace is the first k calls of the run where nothing throws, followed by `next(e)`. A fault numbered past the last call changes nothing. |
| Scenarios.SynchronousErrorGoesToNext | index.test.js:33-41 | A handler that throws leads to `next(error)` and to no response call. |
| Scenarios.AsynchronousErrorGoesToNext | index.test.js:43-51 | A rejected handler leads to `next(error)` and to no response call. |
| Scenarios.HandlerCallingNext | index.test.js:53-58 | A handler returning what `next('test')` returns, `undefined`, makes the wrapper forward the destructuring TypeError. |
| Scenarios.DefaultStatusThenBody | index.test.js:60-67 | `{ body }` leads to `status(200)`, then `send(body)`. |
| Scenarios.StatusHeadersBody | index.test.js:69-79 | `{ statusCode: 201, headers, body }` leads to `status(201)`, then `set(headers)`, then `send(body)`. |
| Scenarios.CookieWithoutOptions | index.test.js:81-90 | One cookie entry gives `cookie('rememberme', 1, undefined)` between `status(201)` and an empty `send()`. |
| Scenarios.RenderWithLocals | index.test.js:92-98 | A render result gives `status(201)`, then exactly one `render('sign-up', { foo: 'bar' })`. |
| Scenarios.FoundStatusWithoutRedirect | index.test.js:110-123 | `{ statusCode: 302, body }` leads to status 302 and the body being sent. No redirect call is made. |
| Scenarios.EmptyRedirectWins | index.js:15-20 | `redirect: []` with `csrf`, `render` and `body` also set gives exactly one `res.redirect()` call. |
| Scenarios.ZeroBodyIsNotSent | index.js:23-24 | `{ body: 0 }` gives `status(200)`, then `send()` with no argument. |

## Left out

- Calling the handler with `(req, res, next, ...args)` (index.js:1, 3): the model starts from how that call settled. The extra positional arguments are passed through unchanged and are not modelled.
- Promise scheduling and the single `await`: the handler's outcome is taken as already settled. A rejected promise returned by `res.send` or `res.render` is not awaited, so it escapes the `try`. That is asynchronous runtime behaviour and is not modelled.
- Return values of the collaborator calls: the wrapper returns the result of its last call unexamined, so the model records calls only. The value returned by `next` is not modelled either, nor is a `next` that throws.
- Calls the handler makes on `res` or `next` itself: they are not calls of the wrapper.
- A response object that lacks one of the methods: every collaborator method is assumed to exist.
- More than one throwing collaborator call: after the first throw the run is over, so one fault covers every run.
- Numbers are integers: `NaN`, `-0`, fractional values and BigInt (whose `0n` is falsy), and their truthiness, are not modelled.
- Property reads see own properties of plain objects only. Getters, proxies and prototype chains are not modelled; none of the descriptor or cookie-entry keys the wrapper reads exist on the built-in prototypes (`forEach` does, on `Array.prototype`, and the model treats it as present exactly on arrays). Arrays without holes only, so `forEach` skipping holes is not modelled.
- Values with a callable `forEach` other than arrays, and iterables other than arrays and strings (Map, Set, generators): functions, and therefore such objects, are not part of `JsValue`. Neither are Symbols, which are always truthy. Strings are sequences of Unicode scalar values, so a JavaScript string holding a lone UTF-16 surrogate, and spreading it, are not modelled.
- JsValues.AssignProperty: an array used as `renderLocals` would receive a named `csrf` property, which `JsValue` cannot represent. The model passes the array on unchanged.
- JsValues.AssignProperty: the wrapper writes `csrf` in place into the `renderLocals` object the handler returned. The model builds a new object instead, so the write staying visible on the handler's object after the call is not modelled. For example, a handler that returns the same locals object on every request would keep a stale token on it.
- AdapterProperties.StatusUnlessRedirect: stated for runs where no collaborator throws. `FaultCutsRun` carries it over to throwing runs, as a prefix of the trace followed by `next`.
- AdapterProperties.HeadersSetOnce: stated for runs where no collaborator throws. `FaultCutsRun` carries it over to throwing runs, as a prefix of the trace followed by `next`.
- AdapterProperties.CookiesInOrder: stated for runs where no collaborator throws. `FaultCutsRun` carries it over to throwing runs, as a prefix of the trace followed by `next`.
- AdapterProperties.CookieEntryNullishStops: stated for runs where no collaborator throws. `FaultCutsRun` carries it over to throwing runs, as a prefix of the trace followed by `next`.
- AdapterProperties.CookiesNotArrayStops: stated for runs where no collaborator throws. `FaultCutsRun` carries it over to throwing runs, as a prefix of the trace followed by `next`.
- AdapterProperties.RedirectShortCircuits: stated for runs where no collaborator throws. `FaultCutsRun` carries it over to throwing runs, as a prefix of the trace followed by `next`.
- AdapterProperties.CsrfFetchedOnce: stated for runs where no collaborator throws. `FaultCutsRun` carries it over to throwing runs, as a prefix of the trace followed by `next`.
- AdapterProperties.RenderWinsOverSend: stated for runs where no collaborator throws. `FaultCutsRun` carries it over to throwing runs, as a prefix of the trace followed by `next`.
- AdapterProperties.BodySentWhenTruthy: stated for runs where no collaborator throws. `FaultCutsRun` carries it over to throwing runs, as a prefix of the trace followed by `next`.
- AdapterProperties.CsrfOnNullLocals: stated for runs where no collaborator throws. `FaultCutsRun` carries it over to throwing runs, as a prefix of the trace followed by `next`.
- The Express and supertest integration (index.test.js:100-130) beyond the descriptor-to-calls mapping: HTTP transport, routing and error middleware are outside the wrapper.
