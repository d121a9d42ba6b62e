/**
 * The calls the adapter makes on its collaborators, recorded in order, and
 * the shape every recorded trace has.
 */
module Effects {
  import opened Wrappers
  import opened JsValues

  /** Why the JavaScript runtime raised a TypeError inside the adapter's `try` block */
  datatype TypeErrorCause =
    | ResultNullish        // destructuring a handler result that is `undefined` or `null`
    | CookiesNotArray      // `cookies.forEach` on a value that is not an array
    | CookieEntryNullish   // `x.name` on a cookie entry that is `undefined` or `null`
    | RedirectNotIterable  // `...redirect` on a truthy value that is neither an array nor a string
    | LocalsNullish        // `renderLocals.csrf = …` when `renderLocals` is `null`

  /** The value the adapter passes to `next` */
  datatype Failure = Raised(value: JsValue) | TypeError(cause: TypeErrorCause)

  datatype Effect =
    | Status(code: JsValue)                                   // res.status(code)
    | Set(headers: JsValue)                                   // res.set(headers)
    | Cookie(name: JsValue, value: JsValue, options: JsValue) // res.cookie(name, value, options)
    | Redirect(args: seq<JsValue>)                            // res.redirect(...args)
    | CsrfToken                                               // req.csrfToken()
    | Render(view: JsValue, locals: JsValue)                  // res.render(view, locals)
    | Send(body: Option<JsValue>)                             // res.send(body) or res.send()
    | Next(error: Failure)                                    // next(error)

  datatype Kind = StatusKind | SetKind | CookieKind | CsrfKind | RedirectKind | RenderKind | SendKind | NextKind

  function KindOf(e: Effect): Kind {
    match e
    case Status(_) => StatusKind
    case Set(_) => SetKind
    case Cookie(_, _, _) => CookieKind
    case Redirect(_) => RedirectKind
    case CsrfToken => CsrfKind
    case Render(_, _) => RenderKind
    case Send(_) => SendKind
    case Next(_) => NextKind
  }

  /** The calls that end a successful run; the adapter returns their result */
  predicate IsTerminal(e: Effect) {
    e.Redirect? || e.Render? || e.Send?
  }

  /**
   * Position of each kind in the adapter's fixed order. The three terminal
   * calls and `next` share the last slot: a run ends in exactly one of them.
   */
  function Rank(k: Kind): nat {
    match k
    case StatusKind => 0
    case SetKind => 1
    case CookieKind => 2
    case CsrfKind => 3
    case RedirectKind => 4
    case RenderKind => 4
    case SendKind => 4
    case NextKind => 4
  }

  /** The effects of kind `k` in `t`, in trace order */
  function Only(t: seq<Effect>, k: Kind): (r: seq<Effect>)
    ensures |r| <= |t|
    decreases |t|
  {
    if |t| == 0 then []
    else Only(t[..|t| - 1], k) + (if KindOf(t[|t| - 1]) == k then [t[|t| - 1]] else [])
  }

  lemma {:induction false} OnlyAppend(a: seq<Effect>, b: seq<Effect>, k: Kind)
    ensures Only(a + b, k) == Only(a, k) + Only(b, k)
    decreases |b|
  {
    if |b| == 0 {
      assert a + b == a;
    } else {
      var b' := b[..|b| - 1];
      assert (a + b)[..|a + b| - 1] == a + b';
      assert (a + b)[|a + b| - 1] == b[|b| - 1];
      OnlyAppend(a, b', k);
    }
  }

  lemma {:induction false} OnlyAll(t: seq<Effect>, k: Kind)
    requires forall i :: 0 <= i < |t| ==> KindOf(t[i]) == k
    ensures Only(t, k) == t
    decreases |t|
  {
    if |t| > 0 {
      var init := t[..|t| - 1];
      assert forall i :: 0 <= i < |init| ==> init[i] == t[i];
      OnlyAll(init, k);
      assert Only(t, k) == Only(init, k) + [t[|t| - 1]];
      assert init + [t[|t| - 1]] == t;
    }
  }

  lemma {:induction false} OnlyNone(t: seq<Effect>, k: Kind)
    requires forall i :: 0 <= i < |t| ==> KindOf(t[i]) != k
    ensures Only(t, k) == []
    decreases |t|
  {
    if |t| > 0 {
      var init := t[..|t| - 1];
      assert forall i :: 0 <= i < |init| ==> init[i] == t[i];
      OnlyNone(init, k);
    }
  }

  /** Only the middle part contributes when the outer parts hold no effect of kind `k` */
  lemma OnlyMiddle(a: seq<Effect>, b: seq<Effect>, c: seq<Effect>, k: Kind)
    requires forall i :: 0 <= i < |a| ==> KindOf(a[i]) != k
    requires forall i :: 0 <= i < |c| ==> KindOf(c[i]) != k
    ensures Only(a + b + c, k) == Only(b, k)
  {
    OnlyAppend(a + b, c, k);
    OnlyAppend(a, b, k);
    OnlyNone(a, k);
    OnlyNone(c, k);
  }

  /** A trace laid out as three parts, where only the middle one holds effects of kind `k` */
  lemma OnlyLayout(a: seq<Effect>, b: seq<Effect>, c: seq<Effect>, k: Kind)
    requires forall i :: 0 <= i < |a| ==> KindOf(a[i]) != k
    requires forall i :: 0 <= i < |b| ==> KindOf(b[i]) == k
    requires forall i :: 0 <= i < |c| ==> KindOf(c[i]) != k
    ensures Only(a + b + c, k) == b
  {
    OnlyMiddle(a, b, c, k);
    OnlyAll(b, k);
  }

  /** Effects of kind `k` all lie in a prefix of the trace */
  lemma {:induction false} OnlyPrefix(t: seq<Effect>, pre: seq<Effect>, k: Kind)
    requires |pre| <= |t| && t[..|pre|] == pre
    requires forall i :: |pre| <= i < |t| ==> KindOf(t[i]) != k
    ensures Only(t, k) == Only(pre, k)
  {
    var rest := t[|pre|..];
    assert t == pre + rest;
    forall i | 0 <= i < |rest|
      ensures KindOf(rest[i]) != k
    {
      assert rest[i] == t[|pre| + i];
    }
    OnlyAppend(pre, rest, k);
    OnlyNone(rest, k);
  }

  /**
   * Kinds never go backwards in a trace, and only cookies repeat: so there is
   * at most one status, header and token call, in that order, and at most one
   * call among the terminal ones and `next`.
   */
  predicate InOrder(t: seq<Effect>) {
    forall i, j :: 0 <= i < j < |t| ==> Rank(KindOf(t[i])) < Rank(KindOf(t[j])) || (t[i].Cookie? && t[j].Cookie?)
  }

  /** A complete trace: ordered, and ending in exactly one terminal call or in `next` */
  predicate WellFormed(t: seq<Effect>) {
    && |t| > 0
    && InOrder(t)
    && (IsTerminal(t[|t| - 1]) || t[|t| - 1].Next?)
  }

  /** What well-formedness promises about a trace, spelled out */
  lemma WellFormedMeans(t: seq<Effect>)
    requires WellFormed(t)
    ensures forall i, j :: 0 <= i < |t| && 0 <= j < |t| && IsTerminal(t[i]) && IsTerminal(t[j]) ==> i == j
    ensures forall i :: 0 <= i < |t| && (IsTerminal(t[i]) || t[i].Next?) ==> i == |t| - 1
    ensures forall i, j :: 0 <= i < |t| && 0 <= j < |t| && t[i].Cookie? && t[j].CsrfToken? ==> i < j
    ensures forall i :: 0 <= i < |t| && t[i].Status? ==> i == 0
  {
    forall i | 0 < i < |t|
      ensures !t[i].Status?
    {
      assert Rank(KindOf(t[0])) < Rank(KindOf(t[i])) || (t[0].Cookie? && t[i].Cookie?);
    }
  }

  /** Joining two ordered traces whose kinds follow each other keeps the order */
  lemma InOrderJoin(a: seq<Effect>, b: seq<Effect>)
    requires InOrder(a) && InOrder(b)
    requires forall i, j :: 0 <= i < |a| && 0 <= j < |b| ==>
               Rank(KindOf(a[i])) < Rank(KindOf(b[j])) || (a[i].Cookie? && b[j].Cookie?)
    ensures InOrder(a + b)
  {
    var t := a + b;
    forall i, j | 0 <= i < j < |t|
      ensures Rank(KindOf(t[i])) < Rank(KindOf(t[j])) || (t[i].Cookie? && t[j].Cookie?)
    {
      if j < |a| {
        assert t[i] == a[i] && t[j] == a[j];
      } else if i < |a| {
        assert t[i] == a[i] && t[j] == b[j - |a|];
      } else {
        assert t[i] == b[i - |a|] && t[j] == b[j - |a|];
      }
    }
  }
}
