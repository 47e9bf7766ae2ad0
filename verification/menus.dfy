/** Menu data as the header and footer receive it from the shop, and the two
    rules they share: which items are kept, and how a URL that points at the
    store is cut down to its path.

    Extracting the path (`new URL(rawUrl).pathname`) is URL parsing, which is
    not modelled: it is a parameter `pathname` of the functions that need it. */
module Menus {
  import opened Common

  /** A menu item; `items` are its children (menu items themselves), `None`
      when the field is missing or not an array. */
  datatype MenuItem = MenuItem(
    id: string,
    title: Option<string>,
    url: Option<string>,
    items: Option<seq<MenuItem>>)

  datatype Menu = Menu(id: string, items: seq<MenuItem>)

  /** The domains a URL is compared against. */
  datatype Store = Store(publicStoreDomain: string, primaryDomainUrl: string)

  const ShopifyDomain := "myshopify.com"

  predicate HasUrl(item: MenuItem) {
    Truthy(item.url)
  }

  predicate HasTitle(item: MenuItem) {
    Truthy(item.title)
  }

  /** The URL mentions `myshopify.com`, the public store domain or the
      primary domain URL. */
  predicate OnStore(store: Store, url: string) {
    Includes(url, ShopifyDomain)
    || Includes(url, store.publicStoreDomain)
    || Includes(url, store.primaryDomainUrl)
  }

  /** The domain rule shared by the header, the mobile overlay and the
      footer: a URL on the store becomes its path, any other URL is kept. */
  function StoreRelative(store: Store, pathname: string -> string, url: string): (r: string)
    ensures (!Occurs(url, ShopifyDomain) && !Occurs(url, store.publicStoreDomain)
             && !Occurs(url, store.primaryDomainUrl)) ==> r == url
    ensures (Occurs(url, ShopifyDomain) || Occurs(url, store.publicStoreDomain)
             || Occurs(url, store.primaryDomainUrl)) ==> r == pathname(url)
  {
    IncludesIffOccurs(url, ShopifyDomain);
    IncludesIffOccurs(url, store.publicStoreDomain);
    IncludesIffOccurs(url, store.primaryDomainUrl);
    if OnStore(store, url) then pathname(url) else url
  }

  /** An empty store domain occurs in every string, so with it every URL is
      cut down to its path. */
  lemma EmptyDomainMatchesAll(store: Store, pathname: string -> string, url: string)
    requires store.publicStoreDomain == ""
    ensures StoreRelative(store, pathname, url) == pathname(url)
  {
    assert OccursAt(url, "", 0);
  }

  /** A path without a dot is left alone when both store domains contain
      one (`myshopify.com` does). */
  lemma PlainPathKept(store: Store, pathname: string -> string, u: string)
    requires '.' !in u && '.' in store.publicStoreDomain && '.' in store.primaryDomainUrl
    ensures StoreRelative(store, pathname, u) == u
  {
    MissingCharExcludes(u, ShopifyDomain, '.');
    MissingCharExcludes(u, store.publicStoreDomain, '.');
    MissingCharExcludes(u, store.primaryDomainUrl, '.');
  }
}
