/** The mobile bottom navigation (`frontend/components/MobileBottomNav.tsx`): which tab is
    highlighted for the current path, and when the cart-count badge shows. */
module Nav {
  import opened Wrappers
  import Text
  import Cart

  /** `isActive`: the home tab only on "/" itself, every other tab on its path and below it. */
  function IsActive(pathname: string, href: string): bool {
    if href == "/" then pathname == "/"
    else pathname == href || Text.StartsWith(pathname, href + "/")
  }

  /** `pathname` is `href` or lies below it, one path segment at a time. */
  ghost predicate WithinSection(pathname: string, href: string) {
    exists rest :: pathname == href + rest && (rest == "" || rest[0] == '/')
  }

  /** A tab other than home is active exactly for the paths in its section, so a path that
      merely extends its name ("/ordersX" for "/orders") does not light it up. */
  lemma ActiveIsWithinSection(pathname: string, href: string)
    requires href != "/"
    ensures IsActive(pathname, href) <==> WithinSection(pathname, href)
  {
    if IsActive(pathname, href) {
      var rest := pathname[|href|..];
      assert pathname == href + rest;
      if pathname != href {
        assert pathname[..|href + "/"|] == href + "/";
        assert rest[0] == pathname[|href|] == (href + "/")[|href|];
      }
    }
    if WithinSection(pathname, href) {
      var rest :| pathname == href + rest && (rest == "" || rest[0] == '/');
      if rest != "" {
        assert pathname[..|href + "/"|] == href + "/";
      }
    }
  }

  lemma Examples()
    ensures IsActive("/orders/12", "/orders")
    ensures !IsActive("/ordersX", "/orders")
    ensures !IsActive("/products", "/")
    ensures IsActive("/", "/")
  {
    assert ("/orders/12")[..|"/orders/"|] == "/orders/";
    assert ("/ordersX")[7] != ("/orders/")[7];
  }

  /** The tabs, in order; only the orders tab carries a badge, showing the cart count. */
  datatype NavItem = NavItem(href: string, badge: Option<int>)

  const Hrefs: seq<string> := ["/", "/search", "/products", "/orders", "/auth"]

  function NavItems(cart: Cart.Cart): (items: seq<NavItem>)
    ensures |items| == |Hrefs| && forall k :: 0 <= k < |items| ==> items[k].href == Hrefs[k]
  {
    [NavItem("/", None), NavItem("/search", None), NavItem("/products", None),
     NavItem("/orders", Some(Cart.QuantitySum(cart))), NavItem("/auth", None)]
  }

  /** `item.badge ?`: a badge renders only for a non-zero count. */
  predicate BadgeShown(item: NavItem) {
    item.badge.Some? && item.badge.value != 0
  }

  /** The only badge is on the orders tab, and it shows exactly when the cart holds items
      (counting quantities). */
  lemma BadgeRule(cart: Cart.Cart, k: int)
    requires 0 <= k < |Hrefs|
    ensures BadgeShown(NavItems(cart)[k]) <==> Hrefs[k] == "/orders" && Cart.QuantitySum(cart) != 0
  {
    assert Hrefs[3] == "/orders";
  }

  /** The tabs other than home already differ in their second character. */
  lemma SectionsDiffer(i: int, j: int)
    requires 1 <= i < j < |Hrefs|
    ensures |Hrefs[i]| >= 2 && |Hrefs[j]| >= 2 && Hrefs[i][1] != Hrefs[j][1]
  {
  }

  /** A path in a section starts with the section's path. */
  lemma ActivePrefix(pathname: string, href: string)
    requires href != "/" && |href| >= 2
    ensures IsActive(pathname, href) ==> |pathname| >= 2 && pathname[1] == href[1]
  {
    if IsActive(pathname, href) && pathname != href {
      assert pathname[..|href + "/"|] == href + "/";
      assert pathname[..|href + "/"|][1] == href[1];
    }
  }

  /** However deep the path, at most one tab is highlighted. */
  lemma AtMostOneActive(pathname: string, i: int, j: int)
    requires 0 <= i < j < |Hrefs|
    ensures !(IsActive(pathname, Hrefs[i]) && IsActive(pathname, Hrefs[j]))
  {
    ActivePrefix(pathname, Hrefs[j]);
    if i > 0 {
      SectionsDiffer(i, j);
      ActivePrefix(pathname, Hrefs[i]);
    }
  }
}
