/** The side menu: its six items and the test that highlights the item
    of the current location. */
module Navigation {
  import opened Wrappers

  /** A menu entry; the icon is left out. */
  datatype MenuItem = MenuItem(text: string, path: string)

  const HomePath: string := "/"

  /** The configured items, in display order. */
  const MenuItems: seq<MenuItem> := [
    MenuItem("Home", HomePath),
    MenuItem("Order Tracking", "/tracking/1"),
    MenuItem("Inventory", "/inventory"),
    MenuItem("Suppliers", "/suppliers"),
    MenuItem("Payments", "/payments"),
    MenuItem("Dashboard", "/dashboard")
  ]

  /** `s.startsWith(prefix)`. */
  predicate StartsWith(s: string, prefix: string)
  {
    |prefix| <= |s| && s[..|prefix|] == prefix
  }

  /** The `selected` flag of an item with path `path` at location
      `pathname`. */
  predicate Selected(pathname: string, path: string)
    ensures Selected(pathname, path) ==> StartsWith(pathname, path)
    ensures pathname == path ==> Selected(pathname, path)
  {
    pathname == path || (path != HomePath && StartsWith(pathname, path))
  }

  /** An item is selected exactly when its path is a prefix of the
      location, except that Home needs the location to be exactly '/'. */
  lemma {:induction false} SelectedIsPrefix(pathname: string, path: string)
    ensures path != HomePath ==> (Selected(pathname, path) <==> StartsWith(pathname, path))
    ensures Selected(pathname, HomePath) <==> pathname == HomePath
  {
  }

  /** The match is on characters, not path segments: the tracking item
      is highlighted at '/tracking/12' but not at '/tracking/2'. */
  lemma TrackingMatchesByCharacters()
    ensures Selected("/tracking/12", MenuItems[1].path)
    ensures !Selected("/tracking/2", MenuItems[1].path)
  {
    var item := "/tracking/1";
    assert MenuItems[1].path == item;
    assert "/tracking/12"[..|item|] == item;
    assert "/tracking/2"[10] != item[10];
  }

  /** Two strings that are both prefixes of one location agree on their
      common length. */
  lemma {:induction false} PrefixesAgree(s: string, p: string, q: string, k: int)
    requires StartsWith(s, p) && StartsWith(s, q) && 0 <= k < |p| && k < |q|
    ensures p[k] == q[k]
  {
    assert p[k] == s[..|p|][k] == s[k];
    assert q[k] == s[..|q|][k] == s[k];
  }

  /** The first two characters of each non-Home path, which tell them
      apart. */
  lemma MenuPaths()
    ensures |MenuItems| == 6
    ensures MenuItems[0].path == HomePath
    ensures forall i :: 1 <= i < 6 ==> |MenuItems[i].path| >= 2 && MenuItems[i].path[0] == '/'
    ensures MenuItems[1].path[1] == 't' && MenuItems[2].path[1] == 'i' && MenuItems[3].path[1] == 's'
    ensures MenuItems[4].path[1] == 'p' && MenuItems[5].path[1] == 'd'
  {
  }

  /** At most one item is highlighted, whatever the location. */
  lemma {:induction false} AtMostOneSelected(pathname: string, i: int, j: int)
    requires 0 <= i < |MenuItems| && 0 <= j < |MenuItems|
    requires Selected(pathname, MenuItems[i].path) && Selected(pathname, MenuItems[j].path)
    ensures i == j
  {
    MenuPaths();
    if i != j {
      var p, q := MenuItems[i].path, MenuItems[j].path;
      if i == 0 || j == 0 {
        var other := if i == 0 then q else p;
        SelectedIsPrefix(pathname, other);
        assert false;
      } else {
        PrefixesAgree(pathname, p, q, 1);
        assert false;
      }
    }
  }

  /** The index of the highlighted item, if any. */
  function SelectedIndex(pathname: string): (r: Option<nat>)
    ensures r.Some? ==> r.value < |MenuItems| && Selected(pathname, MenuItems[r.value].path)
    ensures r.None? <==> forall i :: 0 <= i < |MenuItems| ==> !Selected(pathname, MenuItems[i].path)
  {
    SelectedFrom(pathname, 0)
  }

  /** The first highlighted item at index `from` or later. */
  function SelectedFrom(pathname: string, from: nat): (r: Option<nat>)
    requires from <= |MenuItems|
    ensures r.Some? ==> from <= r.value < |MenuItems| && Selected(pathname, MenuItems[r.value].path)
    ensures r.None? <==> forall i :: from <= i < |MenuItems| ==> !Selected(pathname, MenuItems[i].path)
    decreases |MenuItems| - from
  {
    if from == |MenuItems| then None
    else if Selected(pathname, MenuItems[from].path) then Some(from)
    else SelectedFrom(pathname, from + 1)
  }

  /** The highlighted item is the only one. */
  lemma {:induction false} SelectedIndexIsUnique(pathname: string, i: int)
    requires 0 <= i < |MenuItems| && Selected(pathname, MenuItems[i].path)
    ensures SelectedIndex(pathname) == Some(i)
  {
    var r := SelectedIndex(pathname);
    AtMostOneSelected(pathname, r.value, i);
  }

  /** Every configured path highlights its own item. */
  lemma {:induction false} OwnPathSelected(i: int)
    requires 0 <= i < |MenuItems|
    ensures SelectedIndex(MenuItems[i].path) == Some(i)
  {
    SelectedIndexIsUnique(MenuItems[i].path, i);
  }
}
