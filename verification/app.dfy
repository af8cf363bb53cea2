/**
 * The session-gated route table. Paths match as the router matches them by default:
 * letters compared ignoring case, trailing slashes ignored, `:id` one non-empty
 * segment.
 */
module App {
  import opened Values
  import opened Text
  import Utils

  datatype Page = LoginPage | DashboardPage | NovaDemandaPage | EditarDemandaPage(id: string) | NoPage

  /** What is on screen: the page, and whether it sits inside the app layout. */
  datatype Screen = Screen(inLayout: bool, page: Page)

  /** The path without its trailing slashes. */
  function StripTrailing(path: string): (r: string)
    ensures r <= path
    ensures r == "" || r[|r| - 1] != '/'
    ensures forall i :: |r| <= i < |path| ==> path[i] == '/'
  {
    if path != [] && path[|path| - 1] == '/' then StripTrailing(path[..|path| - 1]) else path
  }

  predicate NoSlash(s: string) {
    forall i :: 0 <= i < |s| ==> s[i] != '/'
  }

  const EditPrefix: string := "/editardemanda/"

  /** The `:id` of an edit path, when the (stripped) path is the edit prefix and one non-empty segment. */
  function EditId(p: string): (r: Option<string>)
    ensures r.Some? ==>
      && r.value != ""
      && NoSlash(r.value)
      && |p| == |EditPrefix| + |r.value|
      && p == p[..|EditPrefix|] + r.value
      && ToLower(p[..|EditPrefix|]) == EditPrefix
  {
    if |p| > |EditPrefix| && ToLower(p[..|EditPrefix|]) == EditPrefix && NoSlash(p[|EditPrefix|..]) then
      Some(p[|EditPrefix|..])
    else None
  }

  /**
   * Without a user every path shows the login page, outside the layout. With a user
   * everything is inside the layout: "/" and "/login" show the dashboard,
   * "/novademanda" the creation form, "/editardemanda/:id" the edit page for that id,
   * and any other path no page.
   */
  function Route(hasUser: bool, path: string): (s: Screen)
    ensures !hasUser ==> s == Screen(false, LoginPage)
    ensures hasUser ==> s.inLayout && s.page != LoginPage
    ensures hasUser && ToLower(StripTrailing(path)) == "" ==> s.page == DashboardPage
    ensures hasUser && ToLower(StripTrailing(path)) == "/login" ==> s.page == DashboardPage
    ensures hasUser && ToLower(StripTrailing(path)) == "/novademanda" ==> s.page == NovaDemandaPage
    ensures s.page.EditarDemandaPage? ==> EditId(StripTrailing(path)) == Some(s.page.id)
    ensures hasUser && EditId(StripTrailing(path)).Some? ==>
      s.page == EditarDemandaPage(EditId(StripTrailing(path)).value)
  {
    if !hasUser then Screen(false, LoginPage)
    else
      var p := StripTrailing(path);
      var lp := ToLower(p);
      var page :=
        if lp == "" || lp == "/login" then DashboardPage
        else if lp == "/novademanda" then NovaDemandaPage
        else match EditId(p)
          case Some(id) => EditarDemandaPage(id)
          case None => NoPage;
      Screen(true, page)
  }

  /** Every edit link `/editardemanda/{id}` reaches the edit page for that very id. */
  lemma EditLinkRoundTrip(id: string)
    requires id != "" && NoSlash(id)
    ensures Route(true, EditPrefix + id) == Screen(true, EditarDemandaPage(id))
  {
    var path := EditPrefix + id;
    assert path[|path| - 1] == id[|id| - 1];
    assert StripTrailing(path) == path;
    assert path[..|EditPrefix|] == EditPrefix;
    assert path[|EditPrefix|..] == id;
    assert ToLower(EditPrefix) == EditPrefix;
    assert EditId(path) == Some(id);
  }

  /** The app's own navigation targets land where intended, including the page URL helper's capitalised form. */
  lemma NavigationTargets()
    ensures Route(true, "/").page == DashboardPage
    ensures Route(true, "/novademanda").page == NovaDemandaPage
    ensures Route(true, Utils.CreatePageUrl("Dashboard")).page == DashboardPage
    ensures Route(true, Utils.CreatePageUrl("NovaDemanda")).page == NovaDemandaPage
  {
    RootIsDashboard();
    FormPathIsForm("/novademanda");
    assert Utils.CreatePageUrl("NovaDemanda") == "/NovaDemanda";
    FormPathIsForm("/NovaDemanda");
  }

  lemma RootIsDashboard()
    ensures Route(true, "/").page == DashboardPage
  {
    assert StripTrailing("/") == "";
  }

  /** A path that lower-cases to "/novademanda", without a trailing slash, opens the creation form. */
  lemma FormPathIsForm(p: string)
    requires |p| == 12 && p[11] != '/' && ToLower(p) == "/novademanda"
    ensures Route(true, p).page == NovaDemandaPage
  {
    assert StripTrailing(p) == p;
  }
}
