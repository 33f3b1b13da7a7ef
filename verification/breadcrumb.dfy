/** The breadcrumb trail of the dashboard layout: which pages show it and
    which items it lists for a path. */
module Breadcrumbs {
  import opened Wrappers
  import opened Text

  datatype Crumb = Crumb(name: string, href: string)

  /** A rendered entry: a link, or the plain-text current page. */
  datatype Entry = Link(name: string, href: string) | Current(name: string)

  const Home := Crumb("Dashboard", "/dashboard")

  /** Authentication pages, by prefix: "/login-x" is hidden as well. */
  predicate Hidden(path: string) {
    StartsWith(path, "/login") || StartsWith(path, "/register")
  }

  /** The item list for a visible page; None when nothing is rendered. */
  function Items(path: string): (r: Option<seq<Crumb>>)
    ensures r.None? <==> Hidden(path)
    ensures r.Some? ==> 1 <= |r.value| <= 2 && r.value[0] == Home
    ensures r.Some? ==> forall i :: 1 <= i < |r.value| ==> r.value[i].href == path
  {
    if Hidden(path) then None
    else
      DetailPrefixesExclusive(path);
      var withProduct := [Home] + (if StartsWith(path, "/products/") then [Crumb("Produto", path)] else []);
      Some(withProduct + (if StartsWith(path, "/generations/") then [Crumb("Geração", path)] else []))
  }

  /** A path starts with at most one of the two detail prefixes. */
  lemma DetailPrefixesExclusive(path: string)
    ensures !(StartsWith(path, "/products/") && StartsWith(path, "/generations/"))
  {
    if StartsWith(path, "/products/") {
      DiffersAt(path, "/generations/", 1);
    }
  }

  lemma DiffersAt(s: string, prefix: string, i: nat)
    requires i < |prefix| && i < |s| && s[i] != prefix[i]
    ensures !StartsWith(s, prefix)
  {
    if |prefix| <= |s| {
      assert s[..|prefix|][i] == s[i];
    }
  }

  /** A second item appears exactly on product and generation pages, with
      the label of the kind of page. */
  lemma ItemsOfDetailPage(path: string)
    requires !Hidden(path)
    ensures |Items(path).value| == 2 <==> StartsWith(path, "/products/") || StartsWith(path, "/generations/")
    ensures StartsWith(path, "/products/") ==> Items(path).value == [Home, Crumb("Produto", path)]
    ensures StartsWith(path, "/generations/") ==> Items(path).value == [Home, Crumb("Geração", path)]
  {
    DetailPrefixesExclusive(path);
  }

  /** The list page "/products" (no trailing slash) adds nothing. */
  lemma ProductListHasOnlyHome()
    ensures Items("/products") == Some([Home])
  {
    var p := "/products";
    assert |p| < |"/products/"|;
    DiffersAt(p, "/generations/", 1);
    DiffersAt(p, "/login", 1);
    DiffersAt(p, "/register", 1);
    assert !Hidden(p) && !StartsWith(p, "/products/");
    assert [Home] + [] + [] == [Home];
  }

  /** What the navigation shows: the home link, then every item after the
      first, the last of them as plain text and the others as links. */
  function Render(items: seq<Crumb>): (r: seq<Entry>)
    requires |items| >= 1
    ensures |r| == |items|
    ensures r[0] == Link("Dashboard", "/dashboard")
    ensures |items| > 1 ==> r[|r| - 1] == Current(items[|items| - 1].name)
    ensures forall i :: 1 <= i < |items| - 1 ==> r[i] == Link(items[i].name, items[i].href)
  {
    [Link("Dashboard", "/dashboard")]
      + seq(|items| - 1, k requires 0 <= k < |items| - 1 =>
          if k == |items| - 2 then Current(items[k + 1].name) else Link(items[k + 1].name, items[k + 1].href))
  }

  /** On a detail page the trail is the home link and the page's label as
      plain text; elsewhere it is the home link alone. */
  lemma RenderedTrail(path: string)
    requires !Hidden(path)
    ensures StartsWith(path, "/products/")
        ==> Render(Items(path).value) == [Link("Dashboard", "/dashboard"), Current("Produto")]
    ensures StartsWith(path, "/generations/")
        ==> Render(Items(path).value) == [Link("Dashboard", "/dashboard"), Current("Geração")]
    ensures !StartsWith(path, "/products/") && !StartsWith(path, "/generations/")
        ==> Render(Items(path).value) == [Link("Dashboard", "/dashboard")]
  {
    ItemsOfDetailPage(path);
  }
}
