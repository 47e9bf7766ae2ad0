/** The home product grid: which variant the "Add to Cart" form adds, and
    what each product card shows. The cart mutation behind the form belongs
    to the commerce platform and is not modelled. */
module ProductGrid {
  import opened Common
  import opened Favorites

  datatype Variant = Variant(id: string, availableForSale: bool)

  /** A product as the grid receives it. `variants` is `None` when
      `product.variants` or its `nodes` is missing. */
  datatype Product = Product(
    id: ProductId,
    handle: string,
    title: string,
    imageUrl: Option<string>,
    price: Option<string>,
    variants: Option<seq<Variant>>)

  /** One line of the `LinesAdd` cart action. */
  datatype CartLine = CartLine(merchandiseId: string, quantity: nat)

  /** Variant `k` is available and no earlier variant is. */
  predicate IsFirstAvailable(vs: seq<Variant>, k: int) {
    0 <= k < |vs| && vs[k].availableForSale
    && forall j :: 0 <= j < k ==> !vs[j].availableForSale
  }

  /** No variant of the product can be bought, including when the product
      has no variants list at all. */
  predicate NothingForSale(p: Product) {
    p.variants.None?
    || forall j :: 0 <= j < |p.variants.value| ==> !p.variants.value[j].availableForSale
  }

  /** `variants.find((variant) => variant.availableForSale)`, as an index. */
  function FindAvailable(vs: seq<Variant>): (r: Option<nat>)
    ensures r.Some? ==> IsFirstAvailable(vs, r.value)
    ensures r.None? <==> forall j :: 0 <= j < |vs| ==> !vs[j].availableForSale
  {
    if |vs| == 0 then None
    else if vs[0].availableForSale then Some(0)
    else match FindAvailable(vs[1..])
      case None => None
      case Some(k) => Some(k + 1)
  }

  /** At most one variant is the first available one. */
  lemma FirstAvailableUnique(vs: seq<Variant>, k: int, m: int)
    requires IsFirstAvailable(vs, k) && IsFirstAvailable(vs, m)
    ensures k == m
  {
  }

  /** `getCartLines(product)`: no lines when nothing is for sale, otherwise
      one line adding a single unit of the first available variant. */
  function GetCartLines(p: Product): (r: Option<seq<CartLine>>)
    ensures r.None? <==> NothingForSale(p)
    ensures r.Some? ==>
      && p.variants.Some?
      && |r.value| == 1
      && r.value[0].quantity == 1
      && exists k :: IsFirstAvailable(p.variants.value, k)
                     && r.value[0].merchandiseId == p.variants.value[k].id
  {
    if p.variants.None? then None
    else
      var vs := p.variants.value;
      match FindAvailable(vs)
      case None => None
      case Some(k) => Some([CartLine(vs[k].id, 1)])
  }

  /** The button under a product card. */
  datatype CartButton = Unavailable | AddToCart(lines: seq<CartLine>)

  datatype Card = Card(
    productId: ProductId,
    href: string,
    favorite: bool,
    showsImage: bool,
    button: CartButton)

  /** The card of one product: a heart filled exactly for favorites, a link
      to the product page, the image when there is one, and the cart button
      built from `getCartLines`. */
  function CardOf(p: Product, favorites: seq<ProductId>): (c: Card)
    ensures c.productId == p.id
    ensures c.favorite <==> p.id in favorites
    ensures c.href == "/products/" + p.handle
    ensures c.showsImage <==> p.imageUrl.Some? && p.imageUrl.value != ""
    ensures c.button.Unavailable? <==> NothingForSale(p)
    ensures c.button.AddToCart? ==>
      && |c.button.lines| == 1
      && c.button.lines[0].quantity == 1
      && exists k :: IsFirstAvailable(p.variants.value, k)
                     && c.button.lines[0].merchandiseId == p.variants.value[k].id
  {
    Card(
      p.id,
      "/products/" + p.handle,
      p.id in favorites,
      Truthy(p.imageUrl),
      match GetCartLines(p)
      case None => Unavailable
      case Some(lines) => AddToCart(lines))
  }

  /** The rendered grid; `None` when the component renders nothing. */
  function Grid(products: Option<seq<Product>>, favorites: seq<ProductId>): (r: Option<seq<Card>>)
    ensures r.None? <==> products.None? || |products.value| == 0
    ensures r.Some? ==> |r.value| == |products.value|
  {
    if products.None? || |products.value| == 0 then None
    else
      var ps := products.value;
      Some(seq(|ps|, i requires 0 <= i < |ps| => CardOf(ps[i], favorites)))
  }

  /** Card `i` is the card of product `i`: its heart is filled exactly when
      the product is a favorite, and its button is the disabled
      "Unavailable" one exactly when no variant is for sale. */
  lemma GridCards(products: seq<Product>, favorites: seq<ProductId>, i: int)
    requires 0 <= i < |products|
    ensures Grid(Some(products), favorites).Some?
    ensures var c := Grid(Some(products), favorites).value[i];
      && c.productId == products[i].id
      && (c.favorite <==> products[i].id in favorites)
      && (c.button.Unavailable? <==> NothingForSale(products[i]))
      && (c.button.AddToCart? ==> |c.button.lines| == 1 && c.button.lines[0].quantity == 1)
  {
  }

  /** Toggling a product's favorite flips its heart and no other card's. */
  lemma ToggleFlipsOneHeart(products: seq<Product>, favorites: seq<ProductId>, id: ProductId, i: int)
    requires 0 <= i < |products|
    ensures var before := Grid(Some(products), favorites).value[i];
      var after := Grid(Some(products), Toggle(favorites, id)).value[i];
      (after.favorite != before.favorite) <==> products[i].id == id
  {
  }
}
