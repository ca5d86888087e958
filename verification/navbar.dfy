/** The navigation bar's page logic: the pathname default, the page name
    shown in the middle of the bar, which primary link is highlighted, and
    which account actions are offered. */
module Navbar {
  import opened Domain

  datatype PageName = Dashboard | Tasks | SignIn | SignUp | Home

  datatype AccountAction = SignInLink | SignUpLink | LogoutButton

  /** The current pathname: a null or empty one reads as the root. */
  function CurrentPath(p: Option<string>): (r: string)
    ensures r != ""
    ensures !Truthy(p) ==> r == "/"
    ensures Truthy(p) ==> r == p.value
  {
    if Truthy(p) then p.value else "/"
  }

  /** String prefix test, character by character. */
  function StartsWith(s: string, prefix: string): (r: bool)
    ensures r <==> |prefix| <= |s| && s[..|prefix|] == prefix
  {
    if prefix == [] then true
    else if s == [] then false
    else s[0] == prefix[0] && StartsWith(s[1..], prefix[1..])
  }

  /** The name picked by `getPageMeta`: the first prefix test that matches wins. */
  function PageNameOf(pathname: string): (r: PageName)
    ensures r == Dashboard ==> StartsWith(pathname, "/dashboard")
    ensures r == Tasks ==> StartsWith(pathname, "/tasks")
    ensures r == SignIn ==> StartsWith(pathname, "/login") || StartsWith(pathname, "/signin")
    ensures r == SignUp ==> StartsWith(pathname, "/signup") || StartsWith(pathname, "/register")
    ensures r == Home <==>
              !StartsWith(pathname, "/dashboard") && !StartsWith(pathname, "/tasks") &&
              !StartsWith(pathname, "/login") && !StartsWith(pathname, "/signin") &&
              !StartsWith(pathname, "/signup") && !StartsWith(pathname, "/register")
  {
    if StartsWith(pathname, "/dashboard") then Dashboard
    else if StartsWith(pathname, "/tasks") then Tasks
    else if StartsWith(pathname, "/login") || StartsWith(pathname, "/signin") then SignIn
    else if StartsWith(pathname, "/signup") || StartsWith(pathname, "/register") then SignUp
    else Home
  }

  /** The primary link to `p` is highlighted. */
  function IsActive(pathname: string, p: string): (r: bool)
    ensures r <==> |p| <= |pathname| && pathname[..|p|] == p
  {
    StartsWith(pathname, p)
  }

  /** The account actions offered: logged out on the root, Sign In and Sign
      Up; logged out elsewhere, Sign In only; logged in, Logout only. */
  function AccountActions(hasSession: bool, pathname: string): (r: seq<AccountAction>)
    ensures LogoutButton in r <==> hasSession
    ensures SignInLink in r <==> !hasSession
    ensures SignUpLink in r <==> !hasSession && pathname == "/"
    ensures |r| == (if !hasSession && pathname == "/" then 2 else 1)
  {
    if !hasSession then
      if pathname == "/" then [SignInLink, SignUpLink] else [SignInLink]
    else [LogoutButton]
  }

  /** A pathname cannot start with two prefixes that differ at some
      position both of them have. */
  lemma Diverging(s: string, a: string, b: string, i: nat)
    requires i < |a| && i < |b| && a[i] != b[i]
    ensures !(StartsWith(s, a) && StartsWith(s, b))
  {
  }

  /** No two of the six prefixes agree up to the length of the shorter, so
      a pathname starts with the prefixes of at most one page name. */
  lemma PrefixesExclusive(s: string)
    ensures !(StartsWith(s, "/dashboard") && StartsWith(s, "/tasks"))
    ensures !(StartsWith(s, "/dashboard") && (StartsWith(s, "/login") || StartsWith(s, "/signin")))
    ensures !(StartsWith(s, "/dashboard") && (StartsWith(s, "/signup") || StartsWith(s, "/register")))
    ensures !(StartsWith(s, "/tasks") && (StartsWith(s, "/login") || StartsWith(s, "/signin")))
    ensures !(StartsWith(s, "/tasks") && (StartsWith(s, "/signup") || StartsWith(s, "/register")))
    ensures !((StartsWith(s, "/login") || StartsWith(s, "/signin")) && (StartsWith(s, "/signup") || StartsWith(s, "/register")))
  {
    Diverging(s, "/dashboard", "/tasks", 1);
    Diverging(s, "/dashboard", "/login", 1);
    Diverging(s, "/dashboard", "/signin", 1);
    Diverging(s, "/dashboard", "/signup", 1);
    Diverging(s, "/dashboard", "/register", 1);
    Diverging(s, "/tasks", "/login", 1);
    Diverging(s, "/tasks", "/signin", 1);
    Diverging(s, "/tasks", "/signup", 1);
    Diverging(s, "/tasks", "/register", 1);
    Diverging(s, "/login", "/signup", 1);
    Diverging(s, "/login", "/register", 1);
    Diverging(s, "/signin", "/signup", 5);
    Diverging(s, "/signin", "/register", 1);
  }

  /** Although `getPageMeta` tests in order, each name is chosen exactly
      when the pathname starts with one of that name's own prefixes, so the
      order of the tests does not change the result. */
  lemma PageNameByOwnPrefix(pathname: string)
    ensures PageNameOf(pathname) == Dashboard <==> StartsWith(pathname, "/dashboard")
    ensures PageNameOf(pathname) == Tasks <==> StartsWith(pathname, "/tasks")
    ensures PageNameOf(pathname) == SignIn <==> StartsWith(pathname, "/login") || StartsWith(pathname, "/signin")
    ensures PageNameOf(pathname) == SignUp <==> StartsWith(pathname, "/signup") || StartsWith(pathname, "/register")
    ensures PageNameOf(pathname) == Home <==>
              !StartsWith(pathname, "/dashboard") && !StartsWith(pathname, "/tasks") &&
              !StartsWith(pathname, "/login") && !StartsWith(pathname, "/signin") &&
              !StartsWith(pathname, "/signup") && !StartsWith(pathname, "/register")
  {
    PrefixesExclusive(pathname);
  }

  /** The highlighted primary link always agrees with the page name. */
  lemma ActiveLinkMatchesPage(pathname: string)
    ensures IsActive(pathname, "/dashboard") <==> PageNameOf(pathname) == Dashboard
    ensures IsActive(pathname, "/tasks") <==> PageNameOf(pathname) == Tasks
  {
    PageNameByOwnPrefix(pathname);
  }

  /** Sub-pages take the name of their section. */
  lemma SubPageNamedBySection()
    ensures PageNameOf("/tasks/completed") == Tasks
  {
    PageNameByOwnPrefix("/tasks/completed");
    assert "/tasks/completed"[..6] == "/tasks";
  }

  /** Without a pathname the bar shows the home page with both account
      links; elsewhere a logged-out visitor only gets Sign In. */
  lemma DefaultPathIsHome()
    ensures PageNameOf(CurrentPath(None)) == Home
    ensures AccountActions(false, CurrentPath(None)) == [SignInLink, SignUpLink]
    ensures AccountActions(false, "/tasks") == [SignInLink]
  {
  }
}
