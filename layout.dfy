/** The page layout's navigation bar: which entry is highlighted for the
    current location. */
module Layout {

  /** An entry of the navigation bar (its icon is not modelled). */
  datatype NavigationItem = NavigationItem(path: string, caption: string)

  const Root: string := "/"

  const NavigationItems: seq<NavigationItem> := [
    NavigationItem("/", "Dashboard"),
    NavigationItem("/assessments", "Assessments"),
    NavigationItem("/communication", "Communication"),
    NavigationItem("/projects", "Projects"),
    NavigationItem("/feedback", "Feedback"),
    NavigationItem("/settings", "Settings")
  ]

  /** Whether the entry for `path` is highlighted at location `pathname`:
      the root only on itself, any other path on every location that
      starts with it. */
  function IsActive(pathname: string, path: string): bool
  {
    if path == Root then pathname == Root else path <= pathname
  }

  /** The entries highlighted at `pathname`, in bar order. */
  function ActiveItems(pathname: string, items: seq<NavigationItem>): (r: seq<NavigationItem>)
    ensures forall x :: x in r <==> x in items && IsActive(pathname, x.path)
    ensures r == [] <==> forall x :: x in items ==> !IsActive(pathname, x.path)
  {
    if items == [] then []
    else if IsActive(pathname, items[0].path) then [items[0]] + ActiveItems(pathname, items[1..])
    else ActiveItems(pathname, items[1..])
  }

  lemma RootActiveIff(pathname: string)
    ensures IsActive(pathname, Root) <==> pathname == Root
  {
  }

  lemma NonRootActiveIff(pathname: string, path: string)
    requires path != Root
    ensures IsActive(pathname, path) <==> |path| <= |pathname| && pathname[..|path|] == path
  {
  }

  /** Every path is highlighted on its own page. */
  lemma ActiveOnItself(path: string)
    ensures IsActive(path, path)
  {
  }

  /** Matching is by characters, not by path segments: nested pages keep
      their section highlighted, and so does any longer name. */
  lemma PrefixNotSegmentAware()
    ensures IsActive("/assessments/7", "/assessments")
    ensures IsActive("/projectsX", "/projects")
    ensures !IsActive("/projects", "/")
  {
    assert "/projects" <= "/projectsX" by {
      assert "/projectsX"[..|"/projects"|] == "/projects";
    }
    assert "/assessments" <= "/assessments/7" by {
      assert "/assessments/7"[..|"/assessments"|] == "/assessments";
    }
  }

  /** Two prefixes of one string are prefixes of each other. */
  lemma PrefixesAreComparable(a: string, b: string, s: string)
    requires a <= s && b <= s
    ensures a <= b || b <= a
  {
    if |a| <= |b| {
      assert b[..|a|] == s[..|a|] == a;
    } else {
      assert a[..|b|] == s[..|b|] == b;
    }
  }

  /** Two entries that no location can highlight together: beside the
      root, a path that is not a prefix of the root; otherwise two paths
      neither of which starts with the other. */
  predicate Exclusive(p: string, q: string)
  {
    if p == Root then !(q <= Root)
    else if q == Root then !(p <= Root)
    else !(p <= q) && !(q <= p)
  }

  lemma ExclusiveNeverBothActive(p: string, q: string, pathname: string)
    requires Exclusive(p, q)
    ensures !(IsActive(pathname, p) && IsActive(pathname, q))
  {
    if p != Root && q != Root && p <= pathname && q <= pathname {
      PrefixesAreComparable(p, q, pathname);
    }
  }

  predicate PairwiseExclusive(items: seq<NavigationItem>)
  {
    forall i, j :: 0 <= i < j < |items| ==> Exclusive(items[i].path, items[j].path)
  }

  lemma {:induction false} AtMostOneActiveOf(pathname: string, items: seq<NavigationItem>)
    requires PairwiseExclusive(items)
    ensures |ActiveItems(pathname, items)| <= 1
  {
    if items != [] {
      var rest := items[1..];
      assert PairwiseExclusive(rest) by {
        forall i, j | 0 <= i < j < |rest| ensures Exclusive(rest[i].path, rest[j].path) {
          assert rest[i] == items[i + 1] && rest[j] == items[j + 1];
        }
      }
      AtMostOneActiveOf(pathname, rest);
      if IsActive(pathname, items[0].path) {
        forall x | x in rest ensures !IsActive(pathname, x.path) {
          var j :| 0 <= j < |rest| && rest[j] == x;
          assert items[j + 1] == x;
          ExclusiveNeverBothActive(items[0].path, x.path, pathname);
        }
      }
    }
  }

  lemma NavigationItemsPairwiseExclusive()
    ensures PairwiseExclusive(NavigationItems)
  {
    var ps := ["/", "/assessments", "/communication", "/projects", "/feedback", "/settings"];
    assert forall i :: 0 <= i < |ps| ==> NavigationItems[i].path == ps[i];
    // The paths other than the root differ in their second character.
    forall i, j | 0 <= i < j < |ps| ensures Exclusive(ps[i], ps[j]) {
      if i > 0 {
        assert ps[i][1] != ps[j][1];
      }
    }
  }

  /** The bar never highlights two entries at once. */
  lemma AtMostOneNavigationItemActive(pathname: string)
    ensures |ActiveItems(pathname, NavigationItems)| <= 1
  {
    NavigationItemsPairwiseExclusive();
    AtMostOneActiveOf(pathname, NavigationItems);
  }
}
