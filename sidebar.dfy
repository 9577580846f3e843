/**
 * The sidebar's navigation table and its active-entry rule: an entry is
 * highlighted when the current path is its URL or lies below it.
 */
module Sidebar {
  import Text

  datatype NavItem = NavItem(title: string, url: string)

  /** The three entries, top to bottom. */
  const Navigation: seq<NavItem> := [
    NavItem("Dashboard", "/"),
    NavItem("Class Schedule", "/schedule"),
    NavItem("Events", "/events")
  ]

  /**
   * `isActive(url)` for the current `pathname`: the path is the entry's URL,
   * or the URL followed by a `/` begins the path.
   */
  function IsActive(pathname: string, url: string): (active: bool)
    ensures active <==>
              || pathname == url
              || (|url| < |pathname| && pathname[..|url|] == url && pathname[|url|] == '/')
  {
    assert |url + "/"| == |url| + 1;
    assert (url + "/")[..|url|] == url;
    assert |url| < |pathname| ==> pathname[..|url| + 1][..|url|] == pathname[..|url|];
    pathname == url || Text.StartsWith(pathname, url + "/")
  }

  /** An entry is active on its own path. */
  lemma ExactPathActive(url: string)
    ensures IsActive(url, url)
  {
  }

  /** An entry is active anywhere below its path: `/schedule/x` activates `/schedule`. */
  lemma SubpathActive(url: string, rest: string)
    ensures IsActive(url + "/" + rest, url)
  {
    assert (url + "/" + rest)[..|url + "/"|] == url + "/";
  }

  /**
   * A path that extends an entry's URL by anything other than a `/`, such as
   * `/eventsX` for `/events`, does not activate it.
   */
  lemma TextualPrefixNotActive(url: string, rest: string)
    requires rest != [] && rest[0] != '/'
    ensures !IsActive(url + rest, url)
  {
    var p := url + rest;
    assert p[|url|] == rest[0];
    assert (url + "/")[|url|] == '/';
  }

  /** The root entry is active only on "/" itself and on paths that begin "//". */
  lemma RootActiveOnlyAtRoot(pathname: string)
    ensures IsActive(pathname, "/") <==> pathname == "/" || Text.StartsWith(pathname, "//")
  {
    assert "/" + "/" == "//";
  }

  /** For any path, no two entries of the table are active together. */
  lemma AtMostOneEntryActive(pathname: string, i: nat, j: nat)
    requires i < j < |Navigation|
    ensures !(IsActive(pathname, Navigation[i].url) && IsActive(pathname, Navigation[j].url))
  {
    assert Navigation[0].url == "/" && Navigation[1].url == "/schedule" && Navigation[2].url == "/events";
    if IsActive(pathname, "/") {
      assert |pathname| == 1 || pathname[1] == '/';
    }
    if IsActive(pathname, "/schedule") {
      assert |pathname| > 1 && pathname[1] == 's';
    }
    if IsActive(pathname, "/events") {
      assert |pathname| > 1 && pathname[1] == 'e';
    }
  }

  /**
   * `navigation.map(item => isActive(item.url))`: the highlight flag of each
   * entry, of which at most one is set.
   */
  function ActiveFlags(pathname: string): (flags: seq<bool>)
    ensures |flags| == |Navigation|
    ensures forall i :: 0 <= i < |flags| ==> flags[i] == IsActive(pathname, Navigation[i].url)
    ensures forall i, j :: 0 <= i < j < |flags| && flags[i] ==> !flags[j]
  {
    forall i, j | 0 <= i < j < |Navigation|
      ensures !(IsActive(pathname, Navigation[i].url) && IsActive(pathname, Navigation[j].url))
    {
      AtMostOneEntryActive(pathname, i, j);
    }
    seq(|Navigation|, i requires 0 <= i < |Navigation| => IsActive(pathname, Navigation[i].url))
  }
}
