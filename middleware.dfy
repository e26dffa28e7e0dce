/** The forced-password-change middleware (`ForcarTrocaSenhaMiddleware.__call__`):
    an authenticated user still flagged `must_change_password` is sent to the
    password-change page unless the request path starts with one of the allowed prefixes. */
module Middleware {
  import opened Text

  datatype Action = PassThrough | RedirectToPasswordChange

  const PasswordChangePrefix: string := "/trocar-senha/"

  /** `URLS_PERMITIDAS`, in declaration order. */
  const AllowedPrefixes: seq<string> := [PasswordChangePrefix, "/logout/", "/static/", "/admin/"]

  /** `any(path.startswith(url) for url in prefixes)`, scanned front to back. */
  function AnyPrefix(path: string, prefixes: seq<string>): (r: bool)
    ensures r <==> exists i :: 0 <= i < |prefixes| && StartsWith(path, prefixes[i])
  {
    if |prefixes| == 0 then false
    else if StartsWith(path, prefixes[0]) then true
    else
      var rest := AnyPrefix(path, prefixes[1..]);
      assert forall i :: 1 <= i < |prefixes| ==> prefixes[i] == prefixes[1..][i - 1];
      rest
  }

  /** The request's fate. `mustChange` is `getattr(user, 'must_change_password', False)`,
      so a user object without the flag counts as `false`. */
  function Decide(authenticated: bool, mustChange: bool, path: string): (r: Action)
    ensures r == RedirectToPasswordChange <==>
      authenticated && mustChange && forall i :: 0 <= i < |AllowedPrefixes| ==> !StartsWith(path, AllowedPrefixes[i])
  {
    if authenticated && mustChange && !AnyPrefix(path, AllowedPrefixes) then RedirectToPasswordChange
    else PassThrough
  }

  /** Paths under `/trocar-senha/`, where the password-change page is expected, are
      never redirected. */
  lemma PasswordChangePageReachable(authenticated: bool, mustChange: bool, path: string)
    requires StartsWith(path, PasswordChangePrefix)
    ensures Decide(authenticated, mustChange, path) == PassThrough
  {
    assert StartsWith(path, AllowedPrefixes[0]);
  }

  /** Users who have changed their password, and anonymous visitors, are never redirected. */
  lemma OnlyFlaggedUsersRedirected(authenticated: bool, mustChange: bool, path: string)
    requires Decide(authenticated, mustChange, path) == RedirectToPasswordChange
    ensures authenticated && mustChange
  {
  }

  /** Any path below an allowed prefix passes, whatever follows the prefix. */
  lemma AllowedSubtreePasses(authenticated: bool, mustChange: bool, k: nat, rest: string)
    requires k < |AllowedPrefixes|
    ensures Decide(authenticated, mustChange, AllowedPrefixes[k] + rest) == PassThrough
  {
    var path := AllowedPrefixes[k] + rest;
    assert path[..|AllowedPrefixes[k]|] == AllowedPrefixes[k];
  }

  /** The prefixes keep their trailing slash: "/admin" alone and the site root are redirected. */
  lemma PrefixNeedsTrailingSlash()
    ensures Decide(true, true, "/admin") == RedirectToPasswordChange
    ensures Decide(true, true, "/") == RedirectToPasswordChange
  {
    assert !StartsWith("/admin", AllowedPrefixes[3]);
    assert !StartsWith("/", AllowedPrefixes[0]);
  }

  /** The request path of the admin site as mounted (`panel-super-gesocial/`) starts with
      none of the allowed prefixes: `/admin/` does not exempt it. */
  lemma AdminMountNotExempt(rest: string)
    ensures Decide(true, true, "/panel-super-gesocial/" + rest) == RedirectToPasswordChange
  {
    var path := "/panel-super-gesocial/" + rest;
    assert path[1] == 'p';
    assert !StartsWith(path, AllowedPrefixes[0]) && !StartsWith(path, AllowedPrefixes[1]);
    assert !StartsWith(path, AllowedPrefixes[2]) && !StartsWith(path, AllowedPrefixes[3]);
  }

  /** What the client receives: the view's response, a redirect to a URL, or the
      `NoReverseMatch` error `redirect` raises for a name it cannot reverse. */
  datatype Response = Forward | RedirectTo(url: string) | NoReverseMatch

  /** The URL name the middleware redirects to. */
  const PasswordChangeName: string := "trocar_senha"

  /** The URL names of the site that reverse without arguments, with their paths: the
      patterns of `beneficios/urls.py` without a path parameter (the admin's names are
      namespaced `admin:`). */
  const SiteRoutes: map<string, string> := map[
    "login" := "/login/", "logout" := "/logout/", "dashboard" := "/",
    "pessoa_create" := "/pessoa/nova/", "usuarios_list" := "/usuarios/",
    "usuario_create" := "/usuarios/novo/", "beneficios_list" := "/beneficios/",
    "beneficio_create" := "/beneficios/novo/", "sobre" := "/sobre/",
    "memorandos_lista" := "/memorandos/"]

  /** The middleware's answer under the URL names `routes`: `redirect(name)` reverses the
      name, and a name with no `/` or `.` that does not reverse is re-raised. */
  function Respond(routes: map<string, string>, authenticated: bool, mustChange: bool, path: string): (r: Response)
    ensures Decide(authenticated, mustChange, path) == PassThrough ==> r == Forward
    ensures Decide(authenticated, mustChange, path) == RedirectToPasswordChange ==>
      if PasswordChangeName in routes then r == RedirectTo(routes[PasswordChangeName]) else r == NoReverseMatch
  {
    match Decide(authenticated, mustChange, path)
    case PassThrough => Forward
    case RedirectToPasswordChange =>
      if PasswordChangeName in routes then RedirectTo(routes[PasswordChangeName]) else NoReverseMatch
  }

  /** As written, no URL name `trocar_senha` exists, so every request the middleware
      means to redirect fails instead, starting with the home page of a new user. */
  lemma FlaggedUserGetsError(path: string)
    requires Decide(true, true, path) == RedirectToPasswordChange
    ensures Respond(SiteRoutes, true, true, path) == NoReverseMatch
    ensures Respond(SiteRoutes, true, true, "/") == NoReverseMatch
  {
    assert PasswordChangeName !in SiteRoutes;
    PrefixNeedsTrailingSlash();
  }

  /** The URL names with the password-change page the middleware expects, served under
      the prefix it exempts. */
  const CorrectedRoutes: map<string, string> := SiteRoutes[PasswordChangeName := PasswordChangePrefix]

  /** With the page routed, a flagged user is sent to `/trocar-senha/`, which is served
      without a further redirect; everyone else is served unchanged. */
  function Serve(authenticated: bool, mustChange: bool, path: string): (r: Response)
    ensures r == Forward || r == RedirectTo(PasswordChangePrefix)
    ensures r == RedirectTo(PasswordChangePrefix) <==> Decide(authenticated, mustChange, path) == RedirectToPasswordChange
  {
    Respond(CorrectedRoutes, authenticated, mustChange, path)
  }

  /** Following the corrected redirect reaches a page that is served: the redirect never
      loops and never fails. */
  lemma RedirectNeverLoops(authenticated: bool, mustChange: bool, path: string)
    ensures Serve(authenticated, mustChange, path).RedirectTo? ==>
      Serve(authenticated, mustChange, Serve(authenticated, mustChange, path).url) == Forward
  {
    var r := Serve(authenticated, mustChange, path);
    if r.RedirectTo? {
      assert StartsWith(r.url, PasswordChangePrefix) by { assert r.url[..|PasswordChangePrefix|] == PasswordChangePrefix; }
      PasswordChangePageReachable(authenticated, mustChange, r.url);
    }
  }
}
