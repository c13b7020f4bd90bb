/** The active-route rule of the navigation sidebar
    (src/components/AppSidebar.tsx): which menu entry is highlighted for the
    current location, and the class string each entry gets. The location
    comes from the router; here it is a parameter. */
module AppSidebar {
  import opened JsString

  /** The URLs of the menu entries, in menu order: the overview, the movie
      screening, the health screening, the art event and the house
      numbering. */
  const MenuUrls: seq<string> :=
    ["/", "/movie-screening", "/health-screening", "/art-event", "/house-numbering"]

  const ActiveClass: string :=
    "bg-gradient-to-r from-blue-500 to-teal-500 text-white font-medium shadow-lg"
  const InactiveClass: string :=
    "hover:bg-gray-100 text-gray-700 hover:text-gray-900 transition-all duration-200"

  /** `isActive(path)` at location `currentPath`. */
  function IsActive(currentPath: string, path: string): bool
  {
    if path == "/" && currentPath == "/" then true
    else if path != "/" && StartsWith(currentPath, path) then true
    else false
  }

  /** `getNavCls(path)` at location `currentPath`: the gradient class
      string exactly for an active entry, the hover class string otherwise. */
  function NavClass(currentPath: string, path: string): (r: string)
    ensures r == ActiveClass <==> IsActive(currentPath, path)
    ensures r == InactiveClass <==> !IsActive(currentPath, path)
  {
    assert |ActiveClass| != |InactiveClass|;
    if IsActive(currentPath, path) then ActiveClass else InactiveClass
  }

  /** The root entry is active exactly on the root itself. */
  lemma RootActive(currentPath: string)
    ensures IsActive(currentPath, "/") <==> currentPath == "/"
  {
  }

  /** Any other entry is active exactly on the locations its URL is a prefix
      of, so a longer location sharing the prefix (a sub-page, or merely a
      longer name) matches too. */
  lemma PrefixActive(currentPath: string, path: string)
    requires path != "/"
    ensures IsActive(currentPath, path) <==> path <= currentPath
    ensures IsActive(path + currentPath, path)
  {
    assert path <= path + currentPath;
  }

  /** The root entry is never active on another page. */
  lemma RootInactiveElsewhere(currentPath: string)
    requires currentPath != "/"
    ensures !IsActive(currentPath, "/")
    ensures NavClass(currentPath, "/") == InactiveClass
  {
  }

  /** Two prefixes of one text are prefixes of each other. */
  lemma PrefixesComparable(a: string, b: string, s: string)
    requires a <= s && b <= s
    ensures a <= b || b <= a
  {
    if |a| <= |b| {
      assert a == s[..|a|] == b[..|a|];
    } else {
      assert b == s[..|b|] == a[..|b|];
    }
  }

  /** No menu URL other than the root is a prefix of another one. */
  lemma MenuUrlsUnrelated(i: nat, j: nat)
    requires 1 <= i < |MenuUrls| && 1 <= j < |MenuUrls| && i != j
    ensures !(MenuUrls[i] <= MenuUrls[j])
  {
    var a := MenuUrls[i];
    var b := MenuUrls[j];
    if |a| <= |b| {
      assert a[1] != b[1] || a[2] != b[2];
    }
  }

  /** At most one menu entry is highlighted at any location. */
  lemma AtMostOneActive(currentPath: string, i: nat, j: nat)
    requires i < |MenuUrls| && j < |MenuUrls|
    requires IsActive(currentPath, MenuUrls[i]) && IsActive(currentPath, MenuUrls[j])
    ensures i == j
  {
    if i != j {
      if i != 0 && j != 0 {
        PrefixesComparable(MenuUrls[i], MenuUrls[j], currentPath);
        MenuUrlsUnrelated(i, j);
        MenuUrlsUnrelated(j, i);
      }
    }
  }

  /** On the page of a menu entry, or any page below it, that entry is the
      highlighted one. */
  lemma OwnPageActive(i: nat, rest: string)
    requires i < |MenuUrls|
    requires i == 0 ==> rest == ""
    ensures IsActive(MenuUrls[i] + rest, MenuUrls[i])
    ensures forall j :: 0 <= j < |MenuUrls| && j != i ==> !IsActive(MenuUrls[i] + rest, MenuUrls[j])
  {
    var here := MenuUrls[i] + rest;
    if i == 0 {
      assert here == "/";
    } else {
      PrefixActive(rest, MenuUrls[i]);
    }
    forall j | 0 <= j < |MenuUrls| && j != i
      ensures !IsActive(here, MenuUrls[j])
    {
      if IsActive(here, MenuUrls[j]) {
        AtMostOneActive(here, i, j);
      }
    }
  }
}
