/** The header: the navigation menu (`HeaderMenu`), the mobile overlay
    (`MobileNavOverlay`) and the two badges (`FavoritesToggle`,
    `CartToggle`/`CartBanner`). Markup, styles and the aside context are not
    modelled. */
module Header {
  import opened Common
  import opened Menus
  import Favorites

  /** `FALLBACK_HEADER_MENU`, used when the shop has no header menu. */
  const FallbackHeaderMenu := Menu("gid://shopify/Menu/199655587896", [
    MenuItem("gid://shopify/MenuItem/461609500728", Some("Collections"), Some("/collections"), Some([])),
    MenuItem("gid://shopify/MenuItem/461609533496", Some("Blog"), Some("/blogs/journal"), Some([])),
    MenuItem("gid://shopify/MenuItem/461609566264", Some("Policies"), Some("/policies"), Some([])),
    MenuItem("gid://shopify/MenuItem/461609599032", Some("About"), Some("/pages/about"), Some([]))
  ])

  /** `menu || FALLBACK_HEADER_MENU` */
  function MenuOrFallback(menu: Option<Menu>): (m: Menu)
    ensures menu.Some? ==> m == menu.value
    ensures menu.None? ==> m == FallbackHeaderMenu
  {
    menu.GetOr(FallbackHeaderMenu)
  }

  /** `normalizeUrl(rawUrl)`: `#` for a missing or empty URL, otherwise the
      domain rule. */
  function NormalizeUrl(store: Store, pathname: string -> string, raw: Option<string>): (r: string)
    ensures !Truthy(raw) ==> r == "#"
    ensures Truthy(raw) && !OnStore(store, raw.value) ==> r == raw.value
    ensures Truthy(raw) && OnStore(store, raw.value) ==> r == pathname(raw.value)
  {
    if !Truthy(raw) then "#" else StoreRelative(store, pathname, raw.value)
  }

  /** A rendered `NavLink`: key, label and target. */
  datatype Link = Link(id: string, title: Option<string>, to: string)

  /** A top-level link and the child links rendered under it. */
  datatype Entry = Entry(link: Link, children: seq<Link>)

  /** `item.items` when it is a non-empty array, otherwise no children. */
  function Children(item: MenuItem): seq<MenuItem> {
    match item.items
    case Some(cs) => cs
    case None => []
  }

  /** `child?.url && child.title` */
  predicate IsChildLink(child: MenuItem) {
    HasUrl(child) && HasTitle(child)
  }

  /** The `NavLink` an item renders as. */
  function LinkOf(store: Store, pathname: string -> string, item: MenuItem): Link {
    Link(item.id, item.title, NormalizeUrl(store, pathname, item.url))
  }

  /** `childLinks`, mapped to links: the children with both a URL and a
      title, in order. */
  function ChildLinks(store: Store, pathname: string -> string, cs: seq<MenuItem>): (r: seq<Link>)
    ensures |r| == |Filter(cs, IsChildLink)|
    ensures forall i :: 0 <= i < |r| ==> r[i] == LinkOf(store, pathname, Filter(cs, IsChildLink)[i])
  {
    if |cs| == 0 then []
    else
      var rest := ChildLinks(store, pathname, cs[1..]);
      if IsChildLink(cs[0]) then [LinkOf(store, pathname, cs[0])] + rest else rest
  }

  /** A top-level item with a URL and its child links. */
  function EntryOf(store: Store, pathname: string -> string, item: MenuItem): Entry {
    Entry(LinkOf(store, pathname, item), ChildLinks(store, pathname, Children(item)))
  }

  /** The entries of `HeaderMenu`: items without a URL render nothing, the
      others render in order, each with its child links. */
  function Entries(store: Store, pathname: string -> string, items: seq<MenuItem>): (r: seq<Entry>)
    ensures |r| == |Filter(items, HasUrl)|
    ensures forall i :: 0 <= i < |r| ==> r[i] == EntryOf(store, pathname, Filter(items, HasUrl)[i])
  {
    if |items| == 0 then []
    else
      var rest := Entries(store, pathname, items[1..]);
      if HasUrl(items[0]) then [EntryOf(store, pathname, items[0])] + rest else rest
  }

  /** Entries keep the order of the items: they distribute over
      concatenation. */
  lemma {:induction false} EntriesAppend(store: Store, pathname: string -> string,
                                        a: seq<MenuItem>, b: seq<MenuItem>)
    ensures Entries(store, pathname, a + b) == Entries(store, pathname, a) + Entries(store, pathname, b)
    decreases |a|
  {
    if |a| == 0 {
      assert a + b == b;
    } else {
      assert (a + b)[1..] == a[1..] + b;
      EntriesAppend(store, pathname, a[1..], b);
    }
  }

  datatype Viewport = Desktop | Mobile

  /** What `HeaderMenu` renders: a leading "Home" link in the mobile
      viewport, then the entries of the menu or of the fallback menu. */
  datatype Nav = Nav(home: bool, entries: seq<Entry>)

  function HeaderMenu(menu: Option<Menu>, store: Store, pathname: string -> string,
                      viewport: Viewport): (n: Nav)
    ensures n.home <==> viewport == Mobile
    ensures menu.None? ==> |n.entries| == 4
    ensures menu.Some? ==> |n.entries| == |Filter(menu.value.items, HasUrl)|
    ensures n.entries == Entries(store, pathname, MenuOrFallback(menu).items)
  {
    FallbackHeaderItemsKept();
    Nav(viewport == Mobile, Entries(store, pathname, MenuOrFallback(menu).items))
  }

  /** Every fallback item has a URL, so none is dropped. */
  lemma FallbackHeaderItemsKept()
    ensures Filter(FallbackHeaderMenu.items, HasUrl) == FallbackHeaderMenu.items
    ensures |FallbackHeaderMenu.items| == 4
  {
    FilterKeepsAll(FallbackHeaderMenu.items, HasUrl);
  }

  /** Items that all have a URL and no children render one childless entry
      each, in order. */
  lemma LeafEntries(store: Store, pathname: string -> string, items: seq<MenuItem>)
    requires forall i :: 0 <= i < |items| ==> HasUrl(items[i]) && Children(items[i]) == []
    ensures |Entries(store, pathname, items)| == |items|
    ensures forall i :: 0 <= i < |items| ==>
      Entries(store, pathname, items)[i] == Entry(LinkOf(store, pathname, items[i]), [])
  {
    FilterKeepsAll(items, HasUrl);
    assert ChildLinks(store, pathname, []) == [];
  }

  /** Without a menu the header shows the four fallback links, in order and
      without children. */
  lemma FallbackHeader(store: Store, pathname: string -> string, viewport: Viewport)
    ensures var es := HeaderMenu(None, store, pathname, viewport).entries;
      && |es| == 4
      && es[0] == Entry(LinkOf(store, pathname, FallbackHeaderMenu.items[0]), [])
      && es[1] == Entry(LinkOf(store, pathname, FallbackHeaderMenu.items[1]), [])
      && es[2] == Entry(LinkOf(store, pathname, FallbackHeaderMenu.items[2]), [])
      && es[3] == Entry(LinkOf(store, pathname, FallbackHeaderMenu.items[3]), [])
      && es[0].link.title == Some("Collections")
      && es[1].link.title == Some("Blog")
      && es[2].link.title == Some("Policies")
      && es[3].link.title == Some("About")
  {
    LeafEntries(store, pathname, FallbackHeaderMenu.items);
  }

  /** When both store domains contain a dot, as real domains do, none can
      occur in the fallback paths, so the fallback links point at those
      paths unchanged. */
  lemma FallbackHeaderTargets(store: Store, pathname: string -> string, viewport: Viewport)
    requires '.' in store.publicStoreDomain && '.' in store.primaryDomainUrl
    ensures var es := HeaderMenu(None, store, pathname, viewport).entries;
      && |es| == 4
      && es[0].link.to == "/collections"
      && es[1].link.to == "/blogs/journal"
      && es[2].link.to == "/policies"
      && es[3].link.to == "/pages/about"
  {
    FallbackHeader(store, pathname, viewport);
    FallbackHeaderUrls();
    PlainLinksKept(store, pathname, FallbackHeaderMenu.items, FallbackHeaderPaths);
  }

  /** The targets of the fallback header links, in order. */
  const FallbackHeaderPaths: seq<string> := ["/collections", "/blogs/journal", "/policies", "/pages/about"]

  lemma FallbackHeaderUrls()
    ensures |FallbackHeaderMenu.items| == |FallbackHeaderPaths| == 4
    ensures forall i :: 0 <= i < 4 ==> FallbackHeaderMenu.items[i].url == Some(FallbackHeaderPaths[i])
    ensures forall i :: 0 <= i < 4 ==> FallbackHeaderPaths[i] != "" && '.' !in FallbackHeaderPaths[i]
  {
  }

  /** Items whose URLs are paths without a dot link to those paths. */
  lemma PlainLinksKept(store: Store, pathname: string -> string, items: seq<MenuItem>, urls: seq<string>)
    requires |items| == |urls|
    requires forall i :: 0 <= i < |items| ==> items[i].url == Some(urls[i]) && urls[i] != "" && '.' !in urls[i]
    requires '.' in store.publicStoreDomain && '.' in store.primaryDomainUrl
    ensures forall i :: 0 <= i < |items| ==> LinkOf(store, pathname, items[i]).to == urls[i]
  {
    forall i | 0 <= i < |items|
      ensures LinkOf(store, pathname, items[i]).to == urls[i]
    {
      PlainPathKept(store, pathname, urls[i]);
    }
  }

  /** The overlay's link for an item with a URL: the domain rule applied to
      the URL directly, with no `#` fallback. */
  function OverlayLink(store: Store, pathname: string -> string, item: MenuItem): Link
    requires HasUrl(item)
  {
    Link(item.id, item.title, StoreRelative(store, pathname, item.url.value))
  }

  /** The child links of a `MobileNavOverlay` entry: the same domain rule
      as the header, children without a URL dropped, but children are not
      filtered by title. */
  function OverlayChildLinks(store: Store, pathname: string -> string, cs: seq<MenuItem>): (r: seq<Link>)
    ensures |r| == |Filter(cs, HasUrl)|
    ensures forall i :: 0 <= i < |r| ==> r[i] == OverlayLink(store, pathname, Filter(cs, HasUrl)[i])
  {
    if |cs| == 0 then []
    else
      var rest := OverlayChildLinks(store, pathname, cs[1..]);
      if !HasUrl(cs[0]) then rest
      else [OverlayLink(store, pathname, cs[0])] + rest
  }

  /** An overlay entry: the item's overlay link and its overlay child links. */
  function OverlayEntry(store: Store, pathname: string -> string, item: MenuItem): Entry
    requires HasUrl(item)
  {
    Entry(OverlayLink(store, pathname, item), OverlayChildLinks(store, pathname, Children(item)))
  }

  /** The overlay's entries: each item with a URL, in order, with its
      overlay link and overlay child links. */
  function Overlay(store: Store, pathname: string -> string, items: seq<MenuItem>): (r: seq<Entry>)
    ensures |r| == |Filter(items, HasUrl)|
    ensures forall i :: 0 <= i < |r| ==> r[i] == OverlayEntry(store, pathname, Filter(items, HasUrl)[i])
  {
    if |items| == 0 then []
    else
      var rest := Overlay(store, pathname, items[1..]);
      if !HasUrl(items[0]) then rest
      else
        assert Filter(items, HasUrl) == [items[0]] + Filter(items[1..], HasUrl);
        [OverlayEntry(store, pathname, items[0])] + rest
  }

  /** A child with a URL but no title: the overlay renders it, through the
      domain rule, while the header drops it. */
  lemma OverlayKeepsUntitledChild(store: Store, pathname: string -> string, child: MenuItem)
    requires HasUrl(child) && !HasTitle(child)
    ensures OverlayChildLinks(store, pathname, [child])
         == [Link(child.id, child.title, StoreRelative(store, pathname, child.url.value))]
    ensures ChildLinks(store, pathname, [child]) == []
  {
    assert Filter([child], HasUrl) == [child];
  }

  /** `child.title`, read on a rendered link. */
  predicate LinkTitled(l: Link) {
    Truthy(l.title)
  }

  /** An overlay entry with its untitled children removed. */
  function WithoutUntitled(es: seq<Entry>): seq<Entry> {
    if |es| == 0 then []
    else [Entry(es[0].link, Filter(es[0].children, LinkTitled))] + WithoutUntitled(es[1..])
  }

  lemma {:induction false} ChildLinksAreTitledOverlayLinks(store: Store, pathname: string -> string,
                                                          cs: seq<MenuItem>)
    ensures ChildLinks(store, pathname, cs) == Filter(OverlayChildLinks(store, pathname, cs), LinkTitled)
    decreases |cs|
  {
    if |cs| > 0 {
      ChildLinksAreTitledOverlayLinks(store, pathname, cs[1..]);
    }
  }

  /** The desktop header and the mobile overlay show the same top-level
      links with the same targets; the header's children are the overlay's
      children that have a title. */
  lemma {:induction false} OverlayAgreesWithHeader(store: Store, pathname: string -> string,
                                                   items: seq<MenuItem>)
    ensures WithoutUntitled(Overlay(store, pathname, items)) == Entries(store, pathname, items)
    decreases |items|
  {
    if |items| > 0 {
      OverlayAgreesWithHeader(store, pathname, items[1..]);
      if HasUrl(items[0]) {
        ChildLinksAreTitledOverlayLinks(store, pathname, Children(items[0]));
      }
    }
  }

  /** `MobileNavOverlay`: the overlay over the menu or the fallback menu. It
      lists the same items, with the same targets and in the same order, as
      the header in either viewport; only untitled children differ. */
  function MobileNavOverlay(menu: Option<Menu>, store: Store, pathname: string -> string): (r: seq<Entry>)
    ensures |r| == |Filter(MenuOrFallback(menu).items, HasUrl)|
    ensures forall viewport :: WithoutUntitled(r) == HeaderMenu(menu, store, pathname, viewport).entries
    ensures r == Overlay(store, pathname, MenuOrFallback(menu).items)
  {
    OverlayAgreesWithHeader(store, pathname, MenuOrFallback(menu).items);
    Overlay(store, pathname, MenuOrFallback(menu).items)
  }

  /** The header keeps a child when it has a URL and a title; the overlay
      keeps it when it has a URL. So the header's children are the
      overlay's children that also have a title. */
  lemma HeaderChildrenWithinOverlay(cs: seq<MenuItem>)
    ensures Filter(cs, IsChildLink) == Filter(Filter(cs, HasUrl), HasTitle)
  {
    FilterTwice(cs, HasUrl, HasTitle, IsChildLink);
  }

  /** The favorites badge: `favoritesCount` starts at 0; on mount it is set
      to the length of the stored list, and each `favoritesChanged` event
      replaces it with the event's payload. */
  function FavoritesCountOnMount(stored: Favorites.Stored): (count: int)
    ensures count >= 0
    ensures stored.Ids? ==> count == |stored.ids|
    ensures !stored.Ids? ==> count == 0
  {
    match stored
    case Ids(ids) => |ids|
    case _ => 0
  }

  /** The count after a sequence of `favoritesChanged` payloads: the last
      payload, or the count it started with when there was none. */
  function AfterEvents(count: int, payloads: seq<int>): (r: int)
    ensures |payloads| > 0 ==> r == payloads[|payloads| - 1]
    ensures |payloads| == 0 ==> r == count
    decreases |payloads|
  {
    if |payloads| == 0 then count else AfterEvents(payloads[0], payloads[1..])
  }

  /** `{favoritesCount > 0 && ...}`: the number in the favorites badge, or
      nothing when the badge is hidden. */
  function FavoritesBadge(count: int): (shown: Option<int>)
    ensures shown.Some? <==> count > 0
    ensures shown.Some? ==> shown.value == count && shown.value >= 1
  {
    if count > 0 then Some(count) else None
  }

  /** The cart as the badge sees it: still loading, or resolved to a cart
      (possibly none). */
  datatype Cart = Cart(totalQuantity: Option<int>)
  datatype CartState = Pending | Resolved(cart: Option<Cart>)

  /** The count passed to `CartBadge`: `null` while the cart promise is
      pending (the `Suspense` fallback), `cart?.totalQuantity ?? 0` once it
      has resolved. */
  function CartBadgeCount(state: CartState): (count: Option<int>)
    ensures count.None? <==> state.Pending?
    ensures state.Resolved? && (state.cart.None? || state.cart.value.totalQuantity.None?) ==>
      count == Some(0)
    ensures state.Resolved? && state.cart.Some? && state.cart.value.totalQuantity.Some? ==>
      count == state.cart.value.totalQuantity
  {
    match state
    case Pending => None
    case Resolved(cart) =>
      Some(match cart
           case None => 0
           case Some(c) => c.totalQuantity.GetOr(0))
  }

  /** The cart badge renders its number when `count !== null`, 0 included:
      it shows a number exactly once the cart has resolved, and 0 for a
      missing cart. */
  lemma CartBadgeShownOnceResolved(state: CartState)
    ensures CartBadgeCount(state).Some? <==> state.Resolved?
    ensures state == Resolved(None) ==> CartBadgeCount(state) == Some(0)
  {
  }
}
