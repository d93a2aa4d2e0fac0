/** The route gate in front of the admin pages: what it renders for an
    authentication state, and the error toast it shows at most once per mount. */
module ProtectedRoute {
  import opened Common

  /** What the authentication hook reports: still loading, a signed-in user
      or none, and whether that user has the admin role. */
  datatype Auth = Auth(isLoading: bool, hasUser: bool, isAdmin: bool)

  datatype Outcome = Checking | RedirectToLogin | RedirectToHome | RenderChildren

  /** The render decision. */
  function Decide(a: Auth, requireAdmin: bool): (r: Outcome)
    ensures a.isLoading ==> r == Checking
    ensures r == RedirectToLogin <==> !a.isLoading && !a.hasUser
    ensures r == RedirectToHome <==> !a.isLoading && a.hasUser && requireAdmin && !a.isAdmin
    ensures r == RenderChildren <==> !a.isLoading && a.hasUser && (!requireAdmin || a.isAdmin)
  {
    if a.isLoading then Checking
    else if !a.hasUser then RedirectToLogin
    else if requireAdmin && !a.isAdmin then RedirectToHome
    else RenderChildren
  }

  /** `requireAdmin` when the route does not set it. */
  const DefaultRequireAdmin := false

  /** Without `requireAdmin` every signed-in user passes, whatever the role. */
  lemma DefaultAdmitsAnyUser(a: Auth)
    requires !a.isLoading && a.hasUser
    ensures Decide(a, DefaultRequireAdmin) == RenderChildren
    ensures Decide(a.(isAdmin := !a.isAdmin), DefaultRequireAdmin) == RenderChildren
  {
  }

  const LoginToast := "Please log in to access this page"
  const AdminToast := "You do not have admin access"

  /** The toast the effect would show for a state if none has been shown yet. */
  function ToastFor(a: Auth, requireAdmin: bool): (r: Option<string>)
    ensures r == Some(LoginToast) <==> Decide(a, requireAdmin) == RedirectToLogin
    ensures r == Some(AdminToast) <==> Decide(a, requireAdmin) == RedirectToHome
    ensures r == None <==> Decide(a, requireAdmin) in {Checking, RenderChildren}
  {
    if !a.isLoading && !a.hasUser then Some(LoginToast)
    else if !a.isLoading && a.hasUser && requireAdmin && !a.isAdmin then Some(AdminToast)
    else None
  }

  /** One run of the effect: the flag afterwards and the toast shown, if any. */
  function EffectStep(shown: bool, a: Auth, requireAdmin: bool): (r: (bool, Option<string>))
    ensures r.1.Some? <==> !shown && ToastFor(a, requireAdmin).Some?
    ensures r.1.Some? ==> r.1 == ToastFor(a, requireAdmin)
    ensures r.0 <==> shown || r.1.Some?
  {
    if shown then (true, None)
    else match ToastFor(a, requireAdmin)
      case None => (false, None)
      case Some(t) => (true, Some(t))
  }

  /** The number of toasts a sequence of effect runs shows, from a flag. */
  function ToastCount(shown: bool, runs: seq<Auth>, requireAdmin: bool): nat
    decreases |runs|
  {
    if runs == [] then 0
    else
      var (next, t) := EffectStep(shown, runs[0], requireAdmin);
      (if t.Some? then 1 else 0) + ToastCount(next, runs[1..], requireAdmin)
  }

  /** Once the flag is set, no further toast appears. */
  lemma {:induction false} NoToastAfterShown(runs: seq<Auth>, requireAdmin: bool)
    ensures ToastCount(true, runs, requireAdmin) == 0
    decreases |runs|
  {
    if runs != [] {
      NoToastAfterShown(runs[1..], requireAdmin);
    }
  }

  /** However the authentication state changes during one mount, at most one
      toast is shown. */
  lemma {:induction false} AtMostOneToast(runs: seq<Auth>, requireAdmin: bool)
    ensures ToastCount(false, runs, requireAdmin) <= 1
    decreases |runs|
  {
    if runs != [] {
      var (next, t) := EffectStep(false, runs[0], requireAdmin);
      if t.Some? {
        NoToastAfterShown(runs[1..], requireAdmin);
      } else {
        AtMostOneToast(runs[1..], requireAdmin);
      }
    }
  }

  /** A mounted gate: its `hasShownToast` flag lives as long as the mount. */
  class Gate {
    var hasShownToast: bool
    const requireAdmin: bool

    constructor (requireAdmin: bool)
      ensures !hasShownToast && this.requireAdmin == requireAdmin
    {
      this.requireAdmin := requireAdmin;
      hasShownToast := false;
    }

    /** The effect, run when the authentication state changes. */
    method OnAuthChange(a: Auth) returns (toast: Option<string>)
      modifies this
      ensures (hasShownToast, toast) == EffectStep(old(hasShownToast), a, requireAdmin)
    {
      toast := None;
      if !a.isLoading && !a.hasUser && !hasShownToast {
        toast := Some(LoginToast);
        hasShownToast := true;
      } else if !a.isLoading && a.hasUser && requireAdmin && !a.isAdmin && !hasShownToast {
        toast := Some(AdminToast);
        hasShownToast := true;
      }
    }
  }
}
