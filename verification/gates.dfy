/**
 * The two request gates of the project's middleware. Each looks only at
 * whether the session is authenticated and at the requested path, and either
 * answers with a redirect itself or hands the request on unchanged.
 */
module Gates {

  /** The paths the URL resolver gives for the named blog routes. */
  datatype Routes = Routes(index: string, login: string, register: string, dashboard: string)

  /** The dashboard path is neither the login nor the register path. */
  predicate Distinct(routes: Routes) {
    routes.dashboard != routes.login && routes.dashboard != routes.register
  }

  datatype Request = Request(authenticated: bool, path: string)

  datatype Decision = Redirect(target: string) | PassThrough

  /** RedirectAuthenticatedMiddleWare: signed-in users are sent home from the login and register pages. */
  function RedirectAuthenticated(routes: Routes, req: Request): (d: Decision)
    ensures d.Redirect? <==> req.authenticated && (req.path == routes.login || req.path == routes.register)
    ensures d.Redirect? ==> d.target == routes.index
  {
    if req.authenticated && req.path in [routes.login, routes.register] then Redirect(routes.index)
    else PassThrough
  }

  /** RestrictUnauthenticatedUserMiddleware: anonymous visitors are sent from the dashboard to login. */
  function RestrictUnauthenticated(routes: Routes, req: Request): (d: Decision)
    ensures d.Redirect? <==> !req.authenticated && req.path == routes.dashboard
    ensures d.Redirect? ==> d.target == routes.login
  {
    if !req.authenticated && req.path in [routes.dashboard] then Redirect(routes.login)
    else PassThrough
  }

  /** What the client receives: a gate's redirect, or the response of the view. */
  datatype Response<R> = Redirected(target: string) | Handled(response: R)

  /** One middleware layer: answer itself, or call the rest of the chain on the same state. */
  function Layer<S, R>(d: Decision, st: S, next: S -> (S, Response<R>)): (r: (S, Response<R>))
    ensures d.Redirect? ==> r == (st, Redirected(d.target))
    ensures d.PassThrough? ==> r == next(st)
  {
    match d
    case Redirect(target) => (st, Redirected(target))
    case PassThrough => next(st)
  }

  function Invoke<S, R>(handler: S -> (S, R), st: S): (S, Response<R>) {
    (handler(st).0, Handled(handler(st).1))
  }

  /** The chain with the authenticated-redirect gate outermost; `handler` is the view, a state transition. */
  function ServeRedirectFirst<S, R>(routes: Routes, req: Request, st: S, handler: S -> (S, R)): (S, Response<R>) {
    Layer(RedirectAuthenticated(routes, req), st,
      (st1: S) => Layer(RestrictUnauthenticated(routes, req), st1,
        (st2: S) => Invoke(handler, st2)))
  }

  /** The chain with the unauthenticated-block gate outermost. */
  function ServeRestrictFirst<S, R>(routes: Routes, req: Request, st: S, handler: S -> (S, R)): (S, Response<R>) {
    Layer(RestrictUnauthenticated(routes, req), st,
      (st1: S) => Layer(RedirectAuthenticated(routes, req), st1,
        (st2: S) => Invoke(handler, st2)))
  }

  /** For any request at most one gate redirects: one fires only for signed-in users, the other only for visitors. */
  lemma AtMostOneGateRedirects(routes: Routes, req: Request)
    ensures !(RedirectAuthenticated(routes, req).Redirect? && RestrictUnauthenticated(routes, req).Redirect?)
  {
  }

  /** Hence the order in which the two gates are installed does not change any response or any state. */
  lemma GateOrderIrrelevant<S, R>(routes: Routes, req: Request, st: S, handler: S -> (S, R))
    ensures ServeRedirectFirst(routes, req, st, handler) == ServeRestrictFirst(routes, req, st, handler)
  {
    AtMostOneGateRedirects(routes, req);
  }

  /**
   * When a gate redirects, the view is never invoked: the answer is the same for
   * every view, and the state is handed back untouched.
   */
  lemma RedirectSkipsHandler<S, R>(routes: Routes, req: Request, st: S, h1: S -> (S, R), h2: S -> (S, R))
    requires RedirectAuthenticated(routes, req).Redirect? || RestrictUnauthenticated(routes, req).Redirect?
    ensures ServeRedirectFirst(routes, req, st, h1).0 == st
    ensures ServeRedirectFirst(routes, req, st, h1).1.Redirected?
    ensures ServeRedirectFirst(routes, req, st, h1) == ServeRedirectFirst(routes, req, st, h2)
  {
  }

  /** Otherwise the gates add nothing: the client gets exactly what the view returns, on exactly the state it leaves. */
  lemma PassThroughIsTransparent<S, R>(routes: Routes, req: Request, st: S, handler: S -> (S, R))
    requires RedirectAuthenticated(routes, req).PassThrough? && RestrictUnauthenticated(routes, req).PassThrough?
    ensures ServeRedirectFirst(routes, req, st, handler) == (handler(st).0, Handled(handler(st).1))
  {
  }

  /** Visitors reach the login and register pages, and signed-in users reach the dashboard. */
  lemma NoRedirectForIntendedAudience(routes: Routes, req: Request)
    requires Distinct(routes)
    ensures !req.authenticated && (req.path == routes.login || req.path == routes.register) ==>
              RedirectAuthenticated(routes, req).PassThrough? && RestrictUnauthenticated(routes, req).PassThrough?
    ensures req.authenticated && req.path == routes.dashboard ==>
              RedirectAuthenticated(routes, req).PassThrough? && RestrictUnauthenticated(routes, req).PassThrough?
  {
  }
}
