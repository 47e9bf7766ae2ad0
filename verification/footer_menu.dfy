/** The footer's navigation (`FooterMenu`): the shop's footer menu in the
    left column, the three policy links in the right one, every link run
    through the same domain rule as the header and rendered as an external
    anchor when the result is not a path. */
module FooterMenu {
  import opened Common
  import opened Menus
  import opened Header

  /** `FALLBACK_FOOTER_MENU`: the three shop policies. */
  const FallbackFooterMenu := Menu("gid://shopify/Menu/199655620664", [
    MenuItem("gid://shopify/MenuItem/461633060920", Some("Privacy Policy"), Some("/policies/privacy-policy"), Some([])),
    MenuItem("gid://shopify/MenuItem/461633126456", Some("Shipping Policy"), Some("/policies/shipping-policy"), Some([])),
    MenuItem("gid://shopify/MenuItem/461633159224", Some("Terms of Service"), Some("/policies/terms-of-service"), Some([]))
  ])

  const DefaultShopName := "TuneHeaven"

  /** `header?.shop?.name ?? 'TuneHeaven'`: only a missing name is replaced;
      an empty name is kept. */
  function ShopName(name: Option<string>): (r: string)
    ensures name.None? ==> r == DefaultShopName
    ensures name.Some? ==> r == name.value
  {
    name.GetOr(DefaultShopName)
  }

  const NoOpener := "noopener noreferrer"
  const NewTab := "_blank"

  /** A rendered footer link: an anchor opening a new tab, or a `NavLink`
      inside the app. */
  datatype FooterLink =
    | External(id: string, href: string, title: Option<string>, rel: string, target: string)
    | Internal(id: string, to: string, title: Option<string>)
  {
    /** Where the link points. */
    function Target(): string {
      if External? then href else to
    }
  }

  /** `renderItem(item)`: nothing for an item without a URL; otherwise the
      URL after the domain rule, external exactly when it does not start
      with `/`. */
  function RenderItem(store: Store, pathname: string -> string, item: MenuItem): (r: Option<FooterLink>)
    ensures r.None? <==> !HasUrl(item)
    ensures r.Some? ==> r.value.id == item.id && r.value.title == item.title
    ensures r.Some? ==> r.value.Target() == StoreRelative(store, pathname, item.url.value)
    ensures r.Some? ==> (r.value.External? <==> !StartsWith(r.value.Target(), "/"))
    ensures r.Some? && r.value.External? ==> r.value.rel == NoOpener && r.value.target == NewTab
  {
    if !HasUrl(item) then None else Some(FooterLinkOf(store, pathname, item))
  }

  /** The link an item with a URL renders as: the URL after the domain
      rule; an anchor opening a new tab when that is not a path, a `NavLink`
      when it is. */
  function FooterLinkOf(store: Store, pathname: string -> string, item: MenuItem): (r: FooterLink)
    requires HasUrl(item)
    ensures r.id == item.id && r.title == item.title
    ensures r.Target() == StoreRelative(store, pathname, item.url.value)
    ensures r.External? <==> !StartsWith(r.Target(), "/")
    ensures r.External? ==> r.rel == NoOpener && r.target == NewTab
  {
    var url := StoreRelative(store, pathname, item.url.value);
    if !StartsWith(url, "/") then External(item.id, url, item.title, NoOpener, NewTab)
    else Internal(item.id, url, item.title)
  }

  /** `items.map(renderItem)`, with the `null`s React skips left out. */
  function RenderItems(store: Store, pathname: string -> string, items: seq<MenuItem>): (r: seq<FooterLink>)
    ensures |r| == |Filter(items, HasUrl)|
    ensures forall i :: 0 <= i < |r| ==>
      Some(r[i]) == RenderItem(store, pathname, Filter(items, HasUrl)[i])
  {
    if |items| == 0 then []
    else
      var rest := RenderItems(store, pathname, items[1..]);
      if HasUrl(items[0]) then [FooterLinkOf(store, pathname, items[0])] + rest else rest
  }

  /** `footer?.menu || FALLBACK_FOOTER_MENU` */
  function FooterMenuOf(footerMenu: Option<Menu>): (m: Menu)
    ensures footerMenu.Some? ==> m == footerMenu.value
    ensures footerMenu.None? ==> m == FallbackFooterMenu
  {
    footerMenu.GetOr(FallbackFooterMenu)
  }

  /** The two columns of the footer navigation. */
  datatype Columns = Columns(primary: seq<FooterLink>, policies: seq<FooterLink>)

  /** The footer navigation: rendered only when the shop has a primary
      domain URL. The left column renders the footer menu (or the fallback
      when there is none); the right column always renders the fallback
      policy items, whatever the shop's menu holds. */
  function FooterNav(footerMenu: Option<Menu>, primaryDomainUrl: Option<string>,
                     publicStoreDomain: string, pathname: string -> string): (r: Option<Columns>)
    ensures r.Some? <==> Truthy(primaryDomainUrl)
    ensures r.Some? ==>
      (r.value.policies
         == RenderItems(Store(publicStoreDomain, primaryDomainUrl.value), pathname, FallbackFooterMenu.items))
    ensures r.Some? && footerMenu.Some? ==>
      (r.value.primary
         == RenderItems(Store(publicStoreDomain, primaryDomainUrl.value), pathname, footerMenu.value.items))
  {
    if !Truthy(primaryDomainUrl) then None
    else
      var store := Store(publicStoreDomain, primaryDomainUrl.value);
      Some(Columns(
        RenderItems(store, pathname, FooterMenuOf(footerMenu).items),
        RenderItems(store, pathname, FallbackFooterMenu.items)))
  }

  /** Without a footer menu from the shop both columns show the policy
      links. */
  lemma NoMenuRepeatsPolicies(primaryDomainUrl: Option<string>, publicStoreDomain: string,
                              pathname: string -> string)
    requires Truthy(primaryDomainUrl)
    ensures var r := FooterNav(None, primaryDomainUrl, publicStoreDomain, pathname);
      r.Some? && r.value.primary == r.value.policies
  {
  }

  /** The policy column does not depend on the shop's footer menu. */
  lemma PoliciesIgnoreMenu(a: Option<Menu>, b: Option<Menu>, primaryDomainUrl: Option<string>,
                           publicStoreDomain: string, pathname: string -> string)
    requires Truthy(primaryDomainUrl)
    ensures FooterNav(a, primaryDomainUrl, publicStoreDomain, pathname).value.policies
         == FooterNav(b, primaryDomainUrl, publicStoreDomain, pathname).value.policies
  {
  }

  /** The footer and the header send an item with a URL to the same place. */
  lemma FooterAgreesWithHeader(store: Store, pathname: string -> string, item: MenuItem)
    requires HasUrl(item)
    ensures RenderItem(store, pathname, item).value.Target() == LinkOf(store, pathname, item).to
  {
  }

  /** Items whose URLs are paths without a dot render as internal links to
      those paths when both store domains contain a dot. */
  lemma PlainItemsInternal(store: Store, pathname: string -> string, items: seq<MenuItem>, urls: seq<string>)
    requires |items| == |urls|
    requires forall i :: 0 <= i < |items| ==>
      items[i].url == Some(urls[i]) && StartsWith(urls[i], "/") && '.' !in urls[i]
    requires '.' in store.publicStoreDomain && '.' in store.primaryDomainUrl
    ensures |RenderItems(store, pathname, items)| == |items|
    ensures forall i :: 0 <= i < |items| ==>
      RenderItems(store, pathname, items)[i] == Internal(items[i].id, urls[i], items[i].title)
  {
    FilterKeepsAll(items, HasUrl);
    forall i | 0 <= i < |items|
      ensures RenderItems(store, pathname, items)[i] == Internal(items[i].id, urls[i], items[i].title)
    {
      PlainPathKept(store, pathname, urls[i]);
    }
  }

  /** The targets of the policy links, in order. */
  const PolicyPaths: seq<string> :=
    ["/policies/privacy-policy", "/policies/shipping-policy", "/policies/terms-of-service"]

  lemma PolicyUrls()
    ensures |FallbackFooterMenu.items| == |PolicyPaths| == 3
    ensures forall i :: 0 <= i < 3 ==> FallbackFooterMenu.items[i].url == Some(PolicyPaths[i])
    ensures forall i :: 0 <= i < 3 ==> StartsWith(PolicyPaths[i], "/") && '.' !in PolicyPaths[i]
  {
  }

  /** With real (dotted) domains the policy column is three internal links
      to the policy pages, in order. */
  lemma PolicyColumn(footerMenu: Option<Menu>, primaryDomainUrl: Option<string>,
                     publicStoreDomain: string, pathname: string -> string)
    requires Truthy(primaryDomainUrl)
    requires '.' in publicStoreDomain && '.' in primaryDomainUrl.value
    ensures var ps := FooterNav(footerMenu, primaryDomainUrl, publicStoreDomain, pathname).value.policies;
      && |ps| == 3
      && forall i :: 0 <= i < 3 ==> ps[i].Internal? && ps[i].to == PolicyPaths[i]
                                    && ps[i].id == FallbackFooterMenu.items[i].id
                                    && ps[i].title == FallbackFooterMenu.items[i].title
  {
    PolicyUrls();
    PlainItemsInternal(Store(publicStoreDomain, primaryDomainUrl.value), pathname,
                       FallbackFooterMenu.items, PolicyPaths);
  }
}
