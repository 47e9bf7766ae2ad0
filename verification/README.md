# TuneHeaven storefront rules, modelled in Dafny

TuneHeaven is a React/Hydrogen storefront for musical instruments. Most of it is markup. This project models the handful of rules buried in its components:

- the **favorites set** of the home product grid: toggle, save to local storage, load on mount, and the `favoritesChanged` count the header's badge follows;
- the **"Add to cart" line** of a product card: the first variant available for sale, or a disabled "Unavailable" button;
- the **hero carousel**: the slide fallback, the `activeIndex` autoplay step, dot selection and the call-to-action rule;
- the **newsletter endpoint** (`/api/newsletter`) and the footer form's four-state status machine;
- **menu link shaping** in the header, the mobile overlay and the footer:
  - store URLs are cut to their path;
  - items are filtered;
  - fallback menus are used when the shop sends none;
  - footer links are classified as internal or external;
- the **cart badge** count.

Modules follow the source files:

| module | file | models |
|---|---|---|
| `Common` | `common.dfy` | optional values with `??` and JS truthiness; `startsWith`, `includes` and `trim` on strings |
| `Favorites` | `favorites.dfy` | the favorites set as an insertion-ordered list without repeats; toggle, save, load |
| `ProductGrid` | `product_grid.dfy` | `getCartLines`, the product cards and the empty-list guard of `HomeProductGrid` |
| `HeroCarousel` | `hero_carousel.dfy` | `HeroCarousel` |
| `NewsletterApi` | `newsletter_api.dfy` | `action` and `loader` of `api.newsletter.jsx` |
| `FooterNewsletter` | `footer_newsletter.dfy` | the footer's newsletter form |
| `Menus` | `menus.dfy` | the menu data and the store-domain rule shared by header and footer |
| `Header` | `header.dfy` | `HeaderMenu`, `MobileNavOverlay`, `FavoritesToggle`, `CartToggle`/`CartBanner` |
| `FooterMenu` | `footer_menu.dfy` | `FooterMenu.renderItem`, the footer's menu and shop-name fallbacks |
| `FavoritesSync` | `favorites_sync.dfy` | the grid and the header badge kept in step through storage and the broadcast |

Modelling choices:

- A JavaScript `Set` iterates in insertion order, and that order is what the grid saves. It is modelled as a `seq` without repeats. Membership and size are stated through `Elements`.
- `new URL(url).pathname` is URL parsing. It is a function parameter `pathname` wherever it is needed.
- Local storage becomes the `Stored` value, and the broadcast becomes an integer payload.
- The footer form is a list of controls. The request is the value `formData.get('email')` returns.
- The autoplay interval is a `Tick` event.

## Model

| member | source | states |
|---|---|---|
| Common.StartsWith | app/components/Footer.jsx:215 | `startsWith` holds exactly when the text is the prefix followed by the rest: every prefix character matches, and otherwise the prefix is longer or some character differs |
| Common.Includes | app/components/Header.jsx:84-86 | `includes` holds for an empty needle and for a prefix, and never for a needle longer than the text |
| Common.IncludesIffOccurs | app/components/Header.jsx:84-86 | `includes`, as the scanning check the model runs, holds exactly when the substring occurs at some position |
| Common.Trim | app/routes/api.newsletter.jsx:9 | trimming leaves the empty string exactly when the text is all JavaScript whitespace |
| Common.TrimStart | app/routes/api.newsletter.jsx:9 | the result is a suffix; what was dropped is whitespace; the result does not start with whitespace |
| Common.TrimEnd | app/routes/api.newsletter.jsx:9 | the result is a prefix; what was dropped is whitespace; the result does not end with whitespace |
| Favorites.Toggle | app/components/HomeProductGrid.jsx:49-59 | the toggled id is present afterwards exactly when it was absent before; every other id keeps its membership; no id appears twice |
| Favorites.Without | app/components/HomeProductGrid.jsx:53-54 | `delete` removes exactly the id; the rest stays, without repeats and one shorter |
| Favorites.ToggleTwice | app/components/HomeProductGrid.jsx:49-59 | toggling the same id twice restores the set; when the id was absent, the exact iteration order is restored too |
| Favorites.ToggleSize | app/components/HomeProductGrid.jsx:49-59 | a toggle changes the set's size by exactly one, up or down depending on membership |
| Favorites.DistinctCardinality | app/components/HomeProductGrid.jsx:46 | a list without repeats has as many elements as the set it holds, so `size` is the list's length |
| Favorites.Save | app/components/HomeProductGrid.jsx:43-47 | the stored list holds exactly the set's elements, once each; the broadcast count is the set's size |
| Favorites.FromArray | app/components/HomeProductGrid.jsx:35 | `new Set(ids)` holds exactly the ids, without repeats; a list without repeats is kept as it is |
| Favorites.Load | app/components/HomeProductGrid.jsx:28-40 | stored ids replace the set; a missing or unreadable value leaves the initial set |
| Favorites.SaveLoadRoundTrip | app/components/HomeProductGrid.jsx:31-47 | loading what was saved gives back the same set, in the same order |
| ProductGrid.FindAvailable | app/components/HomeProductGrid.jsx:63-65 | `find` returns the first available variant's index, or nothing exactly when no variant is available |
| ProductGrid.FirstAvailableUnique | app/components/HomeProductGrid.jsx:63-65 | there is only one first available variant |
| ProductGrid.GetCartLines | app/components/HomeProductGrid.jsx:61-77 | no lines exactly when the variants are missing or none is for sale; otherwise one line, quantity 1, for the first available variant |
| ProductGrid.Grid | app/components/HomeProductGrid.jsx:79 | nothing is rendered exactly when the product list is missing or empty; otherwise one card per product |
| ProductGrid.CardOf | app/components/HomeProductGrid.jsx:95-200 | the card links to `/products/<handle>`; the heart is filled exactly for favorites; the image shows exactly when there is a URL; the button is "Unavailable" exactly when nothing is for sale, otherwise it adds one unit of the first available variant |
| ProductGrid.GridCards | app/components/HomeProductGrid.jsx:95-200 | card `i` belongs to product `i`; its heart is filled exactly for favorites; its button is "Unavailable" exactly when nothing is for sale |
| ProductGrid.ToggleFlipsOneHeart | app/components/HomeProductGrid.jsx:107-121 | toggling a product flips its own heart and no other card's |
| HeroCarousel.Items | app/components/HeroCarousel.jsx:18-55 | the shop's slides when there are some, else the three defaults; never empty |
| HeroCarousel.Init | app/components/HeroCarousel.jsx:56 | the index starts at 0, inside the slide list |
| HeroCarousel.Tick | app/components/HeroCarousel.jsx:59-65 | with two or more slides, the index becomes `(index + 1) % n`: the next slide, wrapping from the last to 0, and in range from any index the component can hold (it is never negative, so the truncating and the Euclidean remainder agree); with one slide nothing changes, even for an out-of-range index |
| HeroCarousel.TicksAdvance | app/components/HeroCarousel.jsx:62 | after `k` steps the index is the start plus `k`, modulo the number of slides |
| HeroCarousel.FullCycle | app/components/HeroCarousel.jsx:62 | as many steps as there are slides return to the starting slide |
| HeroCarousel.Select | app/components/HeroCarousel.jsx:138 | clicking dot `k` makes slide `k` active, which is in range |
| HeroCarousel.Dots | app/components/HeroCarousel.jsx:132-147 | one dot per slide; dot `j` is active exactly when `j` is the active index; in range, the active slide's dot is active |
| HeroCarousel.ExactlyOneDot | app/components/HeroCarousel.jsx:132-147 | while the index is in range, exactly one dot is marked active and it is the active slide's; out of range, none is |
| HeroCarousel.Rerender | app/components/HeroCarousel.jsx:55-56 | new slides recompute the list but keep the index without clamping |
| HeroCarousel.ActiveSlide | app/components/HeroCarousel.jsx:69 | there is an active slide exactly when the index is in range, and it is `items[activeIndex]` |
| HeroCarousel.DotShowsSlide | app/components/HeroCarousel.jsx:69 | after clicking dot `k` the slide shown is slide `k` |
| HeroCarousel.ShrinkingSlidesLeaveRange | app/components/HeroCarousel.jsx:55-69 | going from three slides, showing the third, to one slide leaves the index out of range, and no step repairs it |
| HeroCarousel.ViewOf | app/components/HeroCarousel.jsx:76-124 | the call to action shows exactly when the slide has a non-empty link or label; subtitle and description show exactly when non-empty |
| HeroCarousel.DefaultsShowCta | app/components/HeroCarousel.jsx:18-55 | every default slide shows its call to action |
| NewsletterApi.Action | app/routes/api.newsletter.jsx:5-26 | 200 with `{ok:true}` exactly for a string that is not blank; 400 with `Email is required` for a missing, non-string or blank value; always JSON; `ok` matches the status |
| NewsletterApi.Loader | app/routes/api.newsletter.jsx:28-36 | every GET gets 405 `Method not allowed` as JSON |
| NewsletterApi.PaddingIrrelevant | app/routes/api.newsletter.jsx:9 | any whitespace before and any whitespace after an address, chosen independently, do not change the status |
| FooterNewsletter.EntriesOf | app/components/Footer.jsx:60 | every entry of `new FormData(form)` comes from a control with a non-empty name, and every such control gives an entry; never more entries than controls |
| FooterNewsletter.EntriesOfAppend | app/components/Footer.jsx:60 | entries follow document order: the entries of two runs of controls are those of the first followed by those of the second |
| FooterNewsletter.FirstNamedControlWins | app/components/Footer.jsx:60 | `get(name)` reads the value of the first control with that name |
| FooterNewsletter.NoNamedControl | app/components/Footer.jsx:60 | `get(name)` finds nothing when no control has that name |
| FooterNewsletter.Get | app/components/Footer.jsx:60 | `get` returns the first entry with the name, or nothing exactly when no entry has it |
| FooterNewsletter.Submit | app/components/Footer.jsx:61 | submitting sets the status to `submitting` |
| FooterNewsletter.Settle | app/components/Footer.jsx:62-73 | `success` exactly for a 2xx reply, and the input is cleared; a non-2xx reply or a thrown fetch gives `error` and keeps the input |
| FooterNewsletter.Post | app/components/Footer.jsx:60-66 | the endpoint answers 200 exactly when the form's first `email` entry is a non-blank string, otherwise 400 with `ok` false |
| FooterNewsletter.PostSucceedsIff | app/components/Footer.jsx:57-74 | a form succeeds against the endpoint exactly when its first `email` entry is a non-blank string |
| FooterNewsletter.FooterSubmissionFails | app/components/Footer.jsx:76-81 | the footer's unnamed input posts no `email`, so the endpoint answers 400 and the form ends in `error` |
| FooterNewsletter.Step | app/components/Footer.jsx:57-81 | typing changes only the input; a submit the browser accepts (non-empty, valid address) sets `submitting`, one it refuses changes nothing; a reply or a network failure ends in `error`, because the footer posts no `email` |
| FooterNewsletter.Run | app/components/Footer.jsx:57-74 | a run of events applies them in order: the last event acts on the form the earlier ones left |
| FooterNewsletter.NeverSucceeds | app/components/Footer.jsx:57-97 | whatever is typed and however requests settle, the footer never reaches `success` or shows its thanks |
| FooterNewsletter.FooterNeverThanks | app/components/Footer.jsx:9 | the form starts idle with an empty input, so no sequence of events on the page reaches `success` or shows the thanks |
| FooterNewsletter.StatusView | app/components/Footer.jsx:85-97 | the button is disabled and reads "Plz wait..." exactly while submitting; thanks and failure each show exactly in their own state |
| FooterNewsletter.ViewDistinguishesStatus | app/components/Footer.jsx:92-97 | thanks and failure never show together, and different statuses give different views |
| Menus.StoreRelative | app/components/Footer.jsx:207-213 | a URL mentioning `myshopify.com`, the public store domain or the primary domain URL becomes its path; any other URL is kept |
| Menus.EmptyDomainMatchesAll | app/components/Header.jsx:85 | an empty store domain occurs in every URL, so every URL is cut to its path |
| Menus.PlainPathKept | app/components/Header.jsx:83-90 | a path without a dot is kept when both store domains contain one |
| Common.Filter | app/components/Header.jsx:112 | `filter` keeps exactly the items that pass, and only those |
| Common.FilterAppend | app/components/Header.jsx:106-107 | filtering keeps the order of the items |
| Common.FilterTwice | app/components/Header.jsx:107-112 | filtering twice is filtering once by both conditions |
| Common.FilterKeepsAll | app/components/Header.jsx:106-107 | when every item passes, the filter drops nothing |
| Header.NormalizeUrl | app/components/Header.jsx:81-91 | `#` for a missing or empty URL; the path for a URL on the store; any other URL unchanged |
| Header.MenuOrFallback | app/components/Header.jsx:106 | the shop's header menu, or the four-item fallback menu when there is none |
| Header.ChildLinks | app/components/Header.jsx:110-113 | the child links are exactly the children with both a URL and a title, in order |
| Header.Entries | app/components/Header.jsx:106-113 | one entry per item with a URL, in order, each with its child links |
| Header.EntriesAppend | app/components/Header.jsx:106 | entries distribute over concatenation of the items, so their order is kept |
| Header.HeaderMenu | app/components/Header.jsx:95-113 | a Home link exactly in the mobile viewport; the entries are those of the shop menu's items, or of the fallback's, in order: four without a menu, otherwise one per item with a URL |
| Header.LeafEntries | app/components/Header.jsx:106-113 | items that all have a URL and no children render one childless entry each, in order |
| Header.FallbackHeader | app/components/Header.jsx:488-528 | without a menu: four childless entries, Collections, Blog, Policies and About, in that order |
| Header.FallbackHeaderTargets | app/components/Header.jsx:488-528 | with real (dotted) domains the fallback links point at `/collections`, `/blogs/journal`, `/policies` and `/pages/about` |
| Header.OverlayChildLinks | app/components/Header.jsx:457-474 | one link per child with a URL, titled or not, in order, with the child's id and title and its URL after the domain rule |
| Header.OverlayKeepsUntitledChild | app/components/Header.jsx:457-474 | a child with a URL and no title is rendered by the overlay, through the domain rule, and dropped by the header |
| Header.Overlay | app/components/Header.jsx:431-478 | one entry per item with a URL, in order, linked to its URL after the domain rule, with the overlay child links of its children |
| Header.ChildLinksAreTitledOverlayLinks | app/components/Header.jsx:457-464 | the header's child links are the overlay's child links that have a title |
| Header.HeaderChildrenWithinOverlay | app/components/Header.jsx:112 | the header's children are the children with a URL, the overlay's filter, that also have a title |
| Header.MobileNavOverlay | app/components/Header.jsx:396-486 | one overlay entry per item of the menu or fallback that has a URL; the overlay is `Overlay` of those items, so untitled children with a URL are kept; with them removed, the overlay equals the header's entries in either viewport |
| Header.OverlayAgreesWithHeader | app/components/Header.jsx:431-481 | the overlay, with its untitled children removed, is exactly the header's entries: same items, same targets, same order |
| Header.FavoritesCountOnMount | app/components/Header.jsx:219-229 | on mount the badge count is the stored list's length, or stays 0 when nothing readable is stored |
| Header.AfterEvents | app/components/Header.jsx:234-238 | each `favoritesChanged` payload replaces the count; the last one wins |
| Header.CartBadgeCount | app/components/Header.jsx:380-394 | no count while the cart is pending; once resolved, `totalQuantity`, or 0 when the cart or its total is missing |
| Header.FavoritesBadge | app/components/Header.jsx:251-253 | the favorites badge shows the count exactly when it is positive |
| Header.CartBadgeShownOnceResolved | app/components/Header.jsx:281-283 | the cart badge, which renders whenever the count is not `null`, shows a number exactly once the cart has resolved, and 0 for a missing cart |
| FooterMenu.ShopName | app/components/Footer.jsx:16 | only a missing name becomes "TuneHeaven"; an empty name is kept |
| FooterMenu.RenderItem | app/components/Footer.jsx:204-250 | nothing for an item without a URL; otherwise a link to the store-relative URL, external exactly when it does not start with `/`, and external links open a new tab with `noopener noreferrer` |
| FooterMenu.FooterLinkOf | app/components/Footer.jsx:207-249 | the link targets the URL after the domain rule, keeps the item's id and title, is external exactly when the target does not start with `/`, and external links open a new tab with `noopener noreferrer` |
| FooterMenu.RenderItems | app/components/Footer.jsx:259-266 | one link per item with a URL, in order |
| FooterMenu.FooterMenuOf | app/components/Footer.jsx:15 | the shop's footer menu, or the fallback footer menu when there is none |
| FooterMenu.FooterNav | app/components/Footer.jsx:37-45 | the footer navigation renders exactly when a primary domain URL is present; the policy column is always the fallback items |
| FooterMenu.NoMenuRepeatsPolicies | app/components/Footer.jsx:252-253 | with no footer menu, both columns show the policy links |
| FooterMenu.PoliciesIgnoreMenu | app/components/Footer.jsx:253 | the policy column does not depend on the shop's footer menu |
| FooterMenu.FooterAgreesWithHeader | app/components/Footer.jsx:207-213 | the footer and the header send an item to the same target |
| FooterMenu.PlainItemsInternal | app/components/Footer.jsx:215-247 | items whose URLs are dotless paths render as internal links to those paths |
| FooterMenu.PolicyColumn | app/components/Footer.jsx:273-313 | with real domains, the policy column is three internal links: privacy, shipping and terms, in order |
| FavoritesSync.MountStates | app/components/HomeProductGrid.jsx:28-47 | the save effect sees the empty set first, then the loaded set when something was stored |
| FavoritesSync.MountBroadcasts | app/components/HomeProductGrid.jsx:43-47 | one broadcast per saved state, carrying its size |
| FavoritesSync.Mount | app/components/HomeProductGrid.jsx:28-47 | after mounting, storage, set and badge agree; the set holds the stored ids; with nothing readable, everything is empty and storage holds `[]` |
| FavoritesSync.Click | app/components/HomeProductGrid.jsx:49-59 | a heart click toggles the id and leaves storage and badge in step |
| FavoritesSync.ClicksStaySynced | app/components/HomeProductGrid.jsx:43-59 | after any run of clicks, storage and badge stay in step with the set |
| FavoritesSync.ClickTwice | app/components/HomeProductGrid.jsx:49-59 | two clicks on one heart restore the set and the badge |
| FavoritesSync.BadgeShownIffFavorites | app/components/Header.jsx:251 | when in step, the badge shows exactly when some product is a favorite |
| FavoritesSync.ReloadRestores | app/components/HomeProductGrid.jsx:31-47 | a reload restores the session exactly |
| FavoritesSync.MountCorrectsRepeatedIds | app/components/Header.jsx:226-227 | a stored list with a repeat first shows its length, then the broadcast corrects it to the number of distinct ids |

## Left out

- JSX markup, class names, icons, inline styles, the aside context and analytics publishing: presentation only.
- `BlogSection`, `CategoryStrip`, `TopBrands`, `CartSummary`, `Navbar` and `useScrollReveal`: presentational components, DOM observers and foreign formatting, with no rule to model.
- Hook scheduling, the six-second interval and listener registration. The model has only state transitions. `FavoritesSync` assumes the header's mount effect runs before the grid's effects.
- Local storage, `JSON.parse`/`JSON.stringify` and `CustomEvent`. They are replaced by the `Stored` value and an integer payload.
  - Stored JSON that parses to a non-array (a string iterates by character, `null` gives an empty set) is treated as unreadable.
  - The header's `favorites.length` on such a value is not modelled either.
- FooterNewsletter.Step: the browser's address check for `type="email"` is the abstract parameter `valid`; only `required` (a non-empty value) is spelled out.
- FooterNewsletter.Step: in-flight requests are not tracked. A reply or network failure may arrive at any point, even with no submit pending, so the model allows more runs than the page. `NeverSucceeds` covers all of them.
- `fetch`, `FormData` and `Response` objects. The request is the `email` value; the reply is a status and an envelope, not JSON text.
- `new URL(...).pathname` is the `pathname` parameter, total on every string. A relative URL that mentions a store domain would make `new URL` throw. That crash is not modelled.
- Menus.StoreRelative: `includes` is called with the domain strings only. The coercion of `undefined` to the string `"undefined"` (a missing domain) is not modelled.
- A `null` child in a menu item's `items`, and a missing `header`, `header.shop` or menu `items` field: these are crashes or `?? []` defaults the model does not represent. A footer menu's items are always a list.
- `CartForm`, `useOptimisticCart` and the cart semantics behind them: Hydrogen collaborators. The badge takes the resolved cart's `totalQuantity` as given.
- Viewport-specific markup in `HeaderMenu` beyond the mobile Home link.
- Clearing the favorites: the code has only a toggle (app/components/HomeProductGrid.jsx:49-59) and no clear operation.
