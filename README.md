# Confecciones Ismael storefront: the stock, cart and order core in Dafny

This project models the core of a small clothing shop built on Django. Customers browse
products and their variants, which carry a price, a stock and free-form attributes. They fill a
cart that belongs to their account or to their browser session, and check it out into an order.
Checking out takes the ordered quantities out of stock. Cancelling an order from the admin gives
the stock back, at most once per order.

The model has one module per source file, plus three support modules:

| module | models |
|---|---|
| `Wrappers` | `Option` and `Result` |
| `Text` | the Python string built-ins the core relies on: `strip`, `lower`, `capitalize`, `in`, `str.replace`, `", ".join`, `split("@", 1)`, `int()` |
| `Schema` | the table rows and the `Database` class. The database holds every table as a map from primary key to row, plus the auto-increment counters |
| `CartModels` | `apps/cart/models.py`: line totals, the lines of a cart, the cart subtotal |
| `CartServices` | `apps/cart/services.py`: get-or-create a cart, add, set quantity, remove, clear |
| `CartViews` | `apps/cart/views.py`: item count, checkout flag, the JSON quantity API, `cart_add` |
| `CatalogModels` | `apps/catalog/models.py`: category and product slugs, `Variant.clean`, attribute printing |
| `CatalogViews` | `apps/catalog/views.py`: decimal parsing guard, attribute filters, sort fallback, sidebar, product-page add |
| `OrderModels` | `apps/orders/models.py`: `restock_items` |
| `OrderForms` | `apps/orders/forms.py`: name, phone and e-mail cleaning, the zone check |
| `OrderViews` | `apps/orders/views.py`: shipping, payment instructions, the checkout transaction, order access |
| `OrderAdmin` | `apps/orders/admin.py`: status colours, bulk actions, cancel with restock, `save_model` |

Conventions:

- Money is held as integer cents.
- Keys are `nat`.
- The order status is a six-value datatype.
- A method that changes the database states its whole new state as an update of `old(db.Snapshot())`.
- Each loop is proved against a recursive specification function.
- The lemmas prove the source's promises about those specification functions.
- Library code becomes a parameter: `slugify`, `Decimal(...)`, `difflib.get_close_matches` and the session key.

## Model

| member | source | states |
|---|---|---|
| `Text.StripFacts` | apps/orders/forms.py:139 | `strip()` is empty exactly when the text is all white space; otherwise it neither starts nor ends with white space, and it is a slice of the input |
| `Text.StripIdempotent` | apps/orders/forms.py:139 | stripping twice is stripping once |
| `Text.StripUnchanged` | apps/orders/forms.py:139 | a text that neither starts nor ends with white space is its own strip |
| `Text.Lower` | apps/orders/forms.py:155 | `lower()` keeps the length and lower-cases each character (ASCII letters) |
| `Text.LowerIdempotent` | apps/orders/forms.py:155 | lower-casing twice is lower-casing once |
| `Text.Capitalize` | apps/catalog/views.py:87 | `capitalize()`: first character upper-cased, the rest lower-cased |
| `Text.Contains` | apps/orders/views.py:99-105 | `sub in s` holds exactly when `sub` occurs at some position of `s` |
| `Text.RemoveAllAbsent` | apps/catalog/views.py:38 | `replace(pat, "")` leaves a text without `pat` unchanged |
| `Text.RemoveAll` | apps/catalog/views.py:38 | `replace(pat, "")` never makes a text longer |
| `Text.RemoveAllPrefix` | apps/catalog/views.py:38 | `replace("attr_", "")` on `"attr_" + rest` gives `rest` when `rest` has no `attr_` |
| `Text.JoinLength` | apps/orders/views.py:46 | the length of a join is the parts' lengths plus one separator between each pair |
| `Text.JoinSnoc` | apps/orders/views.py:46 | joining one more part appends the separator and that part |
| `Text.AfterFirst` | apps/orders/forms.py:159 | `split("@", 1)[-1]`: the text after the first `@`, or the whole text without one; it puts back together with the part before |
| `Text.IndexOf` | apps/orders/forms.py:159 | the position of the first occurrence of the character, or none when it does not occur |
| `Text.BeforeFirst` | apps/orders/forms.py:164 | `split("@", 1)[0]`: the text up to the first `@`, without any `@` in it |
| `Text.NatToStringInjective` | apps/catalog/models.py:75 | different numbers print differently |
| `Text.NatToString` | apps/catalog/models.py:75 | `str(n)` is a non-empty run of decimal digits |
| `Text.NatToStringValue` | apps/catalog/models.py:75 | the digits of `str(n)` denote `n` |
| `Text.ParseNatToString` | apps/cart/views.py:115-117 | `int()` reads back a printed number of at most 4300 digits, with or without a minus sign |
| `Text.ParseUnsigned` | apps/cart/views.py:115-117 | `int()` reads a run of digits as its value |
| `Text.ParseNegative` | apps/cart/views.py:115-117 | `int()` reads a minus sign and a run of digits as the negated value |
| `Text.DigitGroupValue` | apps/cart/views.py:115-117 | the text of `n` is a literal `int()` accepts, and its value is `n` |
| `Text.StripSigned` | apps/cart/views.py:115-117 | a minus sign before digits survives stripping |
| `Text.ParseInt` | apps/cart/views.py:115-117 | `int()` succeeds only on text that is not blank after stripping, and refuses a literal of more than 4300 digits (underscores not counted) |
| `Text.ParseRefusesLongDigits` | apps/cart/views.py:115-117 | a run of more than 4300 digits, with or without a minus sign, is a ValueError whatever its value |
| `Text.StripDigits` | apps/cart/views.py:115-117 | a plain run of digits is its own stripped form |
| `CartModels.LineIds` | apps/cart/models.py:33-34 | the keys of a cart's items, increasing, exactly those of that cart |
| `CartModels.Rows` | apps/cart/models.py:33-34 | the rows behind the keys, in order |
| `CartModels.SubtotalAppend` | apps/cart/models.py:32-34 | `Subtotal`, `Cart.subtotal`: the subtotal is additive over the lines |
| `CartModels.SubtotalNonNegative` | apps/cart/models.py:32-34 | with prices that are not negative, the subtotal is not negative |
| `CartModels.CartLinesDistinct` | apps/cart/models.py:45-47 | under the unique constraint, a cart's lines name different variants |
| `CartModels.CartLinesPriced` | apps/cart/models.py:52-58 | every line's price can be read when every item's variant exists |
| `CartServices.NewCart` | apps/cart/services.py:22-26 | a new cart belongs to the requester: keyed by user with an empty session key, or by session |
| `CartServices.FirstCart` | apps/cart/services.py:16-19 | the lookup finds the first active cart of the requester, or reports that there is none |
| `CartServices.CreatedCartIsFound` | apps/cart/services.py:14-28 | after a cart is created, the next lookup finds it, so two calls return the same cart |
| `CartServices.GetOrCreateCart` | apps/cart/services.py:14-28 | the new tables and the returned key are exactly those of `ResolveCart`: the first cart, changing nothing, or a new cart under the next key |
| `CartServices.ResolveCartFacts` | apps/cart/services.py:14-28 | `ResolveCart`, the tables and key `get_or_create_cart` leaves: the returned cart belongs to the requester and no lower key does; every existing cart is kept; either nothing changes or exactly one cart is created under the next key |
| `CartServices.ResolveCartStable` | apps/cart/services.py:14-28 | a second `get_or_create_cart` returns the same cart and changes nothing |
| `CartServices.RequestedQty` | apps/cart/services.py:36-38 | a quantity below 1 becomes 1; any other is kept |
| `CartServices.FindLine` | apps/cart/services.py:44-48 | finds the cart's line for the variant, if there is one |
| `CartServices.FindLineUnique` | apps/cart/models.py:45-47 | under the unique constraint, that line is the only one |
| `CartServices.AddToCart` | apps/cart/services.py:31-56 | the result and the new tables are exactly those of `AddEffect`, the line created on the way is rolled back on refusal |
| `CartServices.AddEffectMeaning` | apps/cart/services.py:36-56 | `AddEffect`, what `add_to_cart` does: succeeds exactly when stock > 0 and held + qty ≤ stock. Then the cart's line of the variant (the next key when there was none) holds held + qty, every other line is kept and no other table changes. Otherwise nothing changes and the error says which check failed |
| `CartServices.WithLineFacts` | apps/cart/services.py:44-55 | writing the variant's line of a cart touches only that line (its old key, or the next one), with the given quantity |
| `CartServices.GetOrCreateLine` | apps/cart/services.py:44-48 | `get_or_create` with quantity 0: the existing line of the variant is returned unchanged, or an empty one is created under the next key |
| `CartServices.PutLineConsistent` | apps/cart/models.py:45-47 | writing the one line of a variant into an existing cart keeps the tables consistent, the unique constraint included |
| `CartServices.SetQty` | apps/cart/services.py:59-78 | only a line of the given cart is touched. qty ≤ 0 deletes it. qty > stock is refused with no change. Otherwise the line's quantity becomes qty and nothing else changes |
| `CartServices.RemoveItem` | apps/cart/services.py:81-83 | deletes only that line of that cart; does nothing when it is absent |
| `CartServices.WithoutCart` | apps/cart/services.py:88 | exactly the items of other carts remain, unchanged |
| `CartServices.ClearedCartIsEmpty` | apps/cart/services.py:88 | the cleared cart has no lines; other carts keep theirs |
| `CartServices.ClearCart` | apps/cart/services.py:86-88 | the cart's items are deleted and nothing else changes |
| `CartServices.NoLines` | apps/cart/services.py:88 | a table without lines of the cart lists none for it |
| `CartServices.LineIdsAgree` | apps/cart/services.py:88 | tables that agree on the lines of a cart list the same lines for it |
| `CartViews.CartCountAppend` | apps/cart/views.py:82-84 | `CartCount`, the mini-cart count: the count is additive over the lines |
| `CartViews.CartCountBounds` | apps/cart/views.py:82-84 | the count is 0 exactly when every line is 0, and it bounds every line |
| `CartViews.CanCheckout` | apps/cart/views.py:87-91 | true exactly when no line asks for more than its variant's stock |
| `CartViews.TargetQty` | apps/cart/views.py:113-119 | a non-empty delta gives current + delta; otherwise qty is parsed; a missing or malformed number gives no target |
| `CartViews.TargetQtyReads` | apps/cart/views.py:113-119 | what the +1/−1 buttons and a typed quantity of at most 4300 digits produce; nothing posted is refused |
| `CartViews.TargetQtyRefusesLong` | apps/cart/views.py:113-119 | a delta or a quantity of more than 4300 digits gives no target, so the API answers "invalid quantity" and keeps the line |
| `CartViews.CartItemApi` | apps/cart/views.py:94-156 | the cart is exactly that of `get_or_create_cart`; not found, invalid quantity, stock error, deleted or updated, each with the cart figures of the new state and the exact new tables: unchanged after the cart lookup, the line removed, or its quantity set |
| `CartViews.PostedQty` | apps/cart/views.py:46-50 | a posted number is used; a malformed one gives 1 |
| `CartViews.CartAddQuantity` | apps/cart/views.py:46-53 | a missing, malformed, zero or negative quantity adds 1, and so does one of more than 4300 digits; any other positive one adds itself |
| `CartViews.CartAdd` | apps/cart/views.py:36-59 | the requester's cart is exactly that of `get_or_create_cart`, found or created first; then the outcome and the tables are those of `AddPostedEffect` from there |
| `CartViews.AddPosted` | apps/cart/views.py:41-59 | the variant lookup and `add_to_cart` give exactly the outcome and tables of `AddPostedEffect` |
| `CartViews.AddPostedEffectMeaning` | apps/cart/views.py:41-59 | `AddPostedEffect`, what `cart_add` does once it has the cart: an inactive or missing variant is a 404 with nothing changed; otherwise the line is added to exactly when stock > 0 and held + qty ≤ stock, holds that sum, every other line is kept; a refusal shows the service's error and changes nothing |
| `CatalogModels.CategorySlug` | apps/catalog/models.py:20-23 | an empty slug becomes the slugified name; a given slug is kept, with no suffix |
| `CatalogModels.CategorySlugStable` | apps/catalog/models.py:20-23 | saving twice derives nothing new |
| `CatalogModels.SaveCategoryKeepsDistinct` | apps/catalog/models.py:10-23 | `SaveCategory`, `Category.save` under the unique slug: a category save is refused exactly when another category already has its slug; otherwise only its own slug changes, and distinct slugs stay distinct |
| `CatalogModels.SlugCandidateInjective` | apps/catalog/models.py:72-76 | the slugs tried, `base`, `base-2`, `base-3` and so on, are pairwise different |
| `CatalogModels.CandidatesNext` | apps/catalog/models.py:72-76 | the candidates tried so far grow by one new slug per try |
| `CatalogModels.FreeSlug` | apps/catalog/models.py:72-77 | the `while exists` loop ends on a candidate no other product uses, after every earlier candidate was found taken |
| `CatalogModels.OtherSlugs` | apps/catalog/models.py:74 | exactly the slugs of the other products |
| `CatalogModels.SaveProduct` | apps/catalog/models.py:69-78 | a given slug is stored when no other product has it and refused with an integrity error, changing nothing, when one does. An empty slug becomes the first candidate no other product uses, and every earlier candidate was taken. The loop ends, and distinct slugs stay distinct |
| `CatalogModels.CleanVariant` | apps/catalog/models.py:134-136 | accepted exactly when there is no image or the image belongs to the variant's product |
| `CatalogModels.AttributeTextSplits` | apps/catalog/models.py:160-161 | `"name: value"` splits back into the name and the value at its first colon |
| `CatalogModels.AttributeTexts` | apps/catalog/models.py:160-161 | each attribute printed, in order |
| `CatalogModels.AttributesTextSnoc` | apps/catalog/views.py:150 | one attribute prints alone; each further one adds `", "` and its text |
| `CatalogViews.SafeDecimal` | apps/catalog/views.py:18-24 | `None`, `""` or unparseable input gives the default; otherwise the parsed value |
| `CatalogViews.ExtractAttrFilters` | apps/catalog/views.py:35-39 | over the pairs of `request.GET.items()` (each key once), the loop builds exactly the filter map of the specification function |
| `CatalogViews.AttrFiltersLastWins` | apps/catalog/views.py:35-39 | `AttrFilters`, the `attr_filters` dictionary: a name is filtered exactly when some `attr_` key with a non-empty value names it, and the last such value wins |
| `CatalogViews.AttrNameOfKey` | apps/catalog/views.py:38 | `attr_X` filters on `X` when `X` has no `attr_` in it |
| `CatalogViews.SortChoice` | apps/catalog/views.py:32 | a missing or empty sort becomes `"newest"`; anything else is stripped |
| `CatalogViews.OrderField` | apps/catalog/views.py:11-15 | the order field is always one of the three map values |
| `CatalogViews.OrderFieldNewestUnlessName` | apps/catalog/views.py:64 | every key other than the two name sorts orders by `-created_at` |
| `CatalogViews.DefaultOrder` | apps/catalog/views.py:32 | without a sort parameter the list is newest first |
| `CatalogViews.BuildSidebar` | apps/catalog/views.py:79-94 | the loop builds exactly the sidebar of the specification function |
| `CatalogViews.PutValue` | apps/catalog/views.py:89-94 | one pass of the loop adds the value under its name, as the specification function does |
| `CatalogViews.AddValueWellFormed` | apps/catalog/views.py:89-94 | adding a value keeps each name listed once with a list without repeats |
| `CatalogViews.AddValueLists` | apps/catalog/views.py:89-94 | after adding, a value is listed under a name exactly when it was before or it is the one added |
| `CatalogViews.SidebarWellFormed` | apps/catalog/views.py:89-94 | `SidebarOf`, the sidebar the loop builds: each cleaned name appears once, has a list, and no list repeats a value |
| `CatalogViews.SidebarListsSeenValues` | apps/catalog/views.py:80-94 | a value is listed under a name exactly when some row with a non-empty name cleaning to it carries that value |
| `CatalogViews.SidebarGrowsAtEnd` | apps/catalog/views.py:89-94 | names and values keep first-seen order: a later row only appends |
| `CatalogViews.BlankNameListedAsEmpty` | apps/catalog/views.py:82-87 | a name of white space only is not skipped; it is listed under `""` |
| `CatalogViews.VariantLabel` | apps/catalog/views.py:150 | `"Variante"` without attributes, else the attributes joined |
| `CatalogViews.VariantLabelLists` | apps/catalog/views.py:150 | the label lists the attributes one by one |
| `CatalogViews.DetailQty` | apps/catalog/views.py:174-181 | a malformed quantity becomes 1; a parsed one below 1 becomes 1 and any other is kept |
| `CatalogViews.DetailQtyReads` | apps/catalog/views.py:174-181 | a missing, zero or negative quantity gives 1, and so does one of more than 4300 digits; any other positive one is kept |
| `CatalogViews.ProductDetailAdd` | apps/catalog/views.py:140-200 | with no active variants, or a variant not of this product, nothing changes. Stock ≤ 0 or qty > stock is refused before the cart is touched, with nothing changed. Otherwise the outcome, the tables and the cart are exactly those of `RequesterAddEffect` |
| `CatalogViews.AddToRequesterCart` | apps/catalog/views.py:193-200 | `get_or_create_cart` then `add_to_cart` give exactly the outcome, the tables and the cart of `RequesterAddEffect` |
| `CatalogViews.RequesterAddEffectMeaning` | apps/catalog/views.py:193-200 | `RequesterAddEffect`, `get_or_create_cart` then `add_to_cart`: the cart is the requester's first (or new) cart; the add goes to its line of the variant exactly when stock > 0 and held + qty ≤ stock; a failed add keeps only the cart lookup's changes, and its error is raised to the caller, uncaught |
| `CatalogViews.DetailRaisesOnlyOnHeld` | apps/catalog/views.py:183-200 | after the page's own stock checks pass, `add_to_cart` can only fail because the cart already holds some of the variant and held + qty exceeds the stock |
| `OrderModels.RestockedAddsExactly` | apps/orders/models.py:105-109 | `Restocked`, the stock after the restock loop: each variant gets back exactly the quantity its items name; no variant appears or disappears, no other field moves |
| `OrderModels.RestockMonotone` | apps/orders/models.py:105-109 | no stock goes down, and a variant the order does not name is unchanged |
| `OrderModels.QtyForUnreferenced` | apps/orders/models.py:105-109 | items that never name a variant give it nothing |
| `OrderModels.RestockEffect` | apps/orders/models.py:91-112 | no-op when the in-memory or the stored flag is set. Otherwise the order is reloaded, its items restocked and the flag stored. The status is never read or changed |
| `OrderModels.RestockOnce` | apps/orders/models.py:95-112 | a second restock, with the returned or the stored order, changes nothing |
| `OrderModels.RestockGivesBack` | apps/orders/models.py:105-112 | the first restock adds each variant's quantity back and sets only the flag |
| `OrderModels.RestockItems` | apps/orders/models.py:91-112 | the loop does exactly what the specification function describes |
| `OrderAdmin.StatusColorsDistinct` | apps/orders/admin.py:96-103 | `StatusColor`, the colour of each status: only `Confirmed` falls back to black, and no two statuses share a colour |
| `OrderAdmin.WithStatus` | apps/orders/admin.py:112-122 | every selected order gets the status whatever it was; the others are unchanged |
| `OrderAdmin.MarkStatus` | apps/orders/admin.py:112-122 | only the statuses of the selected orders change; stock and flags do not |
| `OrderAdmin.CancelOne` | apps/orders/admin.py:127-131 | an order already cancelled is left alone. Otherwise its status becomes cancelled and it is restocked once |
| `OrderAdmin.CancelAll` | apps/orders/admin.py:124-131 | cancelling the selection keeps the set of orders and of variants and changes no other table |
| `OrderAdmin.CancelAllNext` | apps/orders/admin.py:124-131 | one more selected order cancels on top of the earlier ones, and it is still as stored when its turn comes |
| `OrderAdmin.CancelStep` | apps/orders/admin.py:127-131 | one pass of the loop does exactly what cancelling that order describes |
| `OrderAdmin.CancelAllEffect` | apps/orders/admin.py:124-131 | every selected order ends cancelled; orders not selected or already cancelled are exactly as they were |
| `OrderAdmin.MarkCancelled` | apps/orders/admin.py:124-131 | the loop does what the specification function describes, order by order |
| `OrderAdmin.CancelMoveCancelRestocksOnce` | apps/orders/admin.py:113-131 | cancel, move to another status and cancel again: the stock comes back once |
| `OrderAdmin.SaveModelEffect` | apps/orders/admin.py:133-138 | the save hook as written; only the edited order's row and the stock can change |
| `OrderAdmin.SaveModelLosesCancel` | apps/orders/admin.py:133-138 | as written, cancelling in the form restocks and sets the flag, but the stored status is not cancelled |
| `OrderAdmin.SaveModel` | apps/orders/admin.py:133-138 | the method does what the as-written specification function describes |
| `OrderAdmin.SaveModelFixedCancels` | apps/orders/admin.py:133-138 | with the save first, the cancellation and the other edits are kept and the stock comes back once; any other edit is saved as is |
| `OrderAdmin.SaveModelFixedEffect` | apps/orders/admin.py:133-138 | the corrected hook changes only the edited order's row and the stock |
| `OrderAdmin.SaveModelFixed` | apps/orders/admin.py:133-138 | the corrected hook does what its specification function describes |
| `OrderForms.CleanName` | apps/orders/forms.py:138-142 | the stripped name, never empty; otherwise the name-required error |
| `OrderForms.CleanNameSpec` | apps/orders/forms.py:138-142 | refused exactly when the name is white space only; a cleaned name cleans to itself |
| `OrderForms.KeepDigits` | apps/orders/forms.py:146 | only digits remain |
| `OrderForms.KeepDigitsOfDigits` | apps/orders/forms.py:146 | a text of digits only keeps all of them |
| `OrderForms.KeepDigitsStripLeft` | apps/orders/forms.py:145-146 | leading white space holds no digit |
| `OrderForms.KeepDigitsStripRight` | apps/orders/forms.py:145-146 | trailing white space holds no digit |
| `OrderForms.KeepDigitsStrip` | apps/orders/forms.py:145-146 | stripping first changes no digit |
| `OrderForms.CleanPhone` | apps/orders/forms.py:144-152 | the result is 7 to 15 digits; otherwise the phone error |
| `OrderForms.CleanPhoneSpec` | apps/orders/forms.py:144-152 | accepted exactly when the input holds 7 to 15 digits. The value is those digits in order, and it cleans to itself |
| `OrderForms.SuggestDomain` | apps/orders/forms.py:14-35 | blank gives no suggestion; a known typo gives its fix; any other domain gets the fuzzy match |
| `OrderForms.TyposFixToAllowed` | apps/orders/forms.py:7-28 | every fix is an allowed domain and no typo is |
| `OrderForms.TypoIsPlain` | apps/orders/forms.py:19-28 | no known typo has white space or upper-case letters, so it is its own stripped, lower-cased form |
| `OrderForms.TypoSuggestions` | apps/orders/forms.py:19-31 | every typo in the table, as written, gets its fix, and blank gives nothing |
| `OrderForms.CleanEmail` | apps/orders/forms.py:154-171 | accepted exactly when the domain after the first `@` of the stripped, lower-cased address is allowed; blank is refused; any other address gets the did-you-mean error with the local part and a non-empty suggestion, or the invalid error |
| `OrderForms.LowerUnchanged` | apps/orders/forms.py:155 | a text without upper-case letters is its own lower case |
| `OrderForms.EmailTypoSuggestion` | apps/orders/forms.py:159-166 | a known typo is answered with the local part and the fixed domain |
| `OrderForms.CleanEmailIdempotent` | apps/orders/forms.py:154-171 | a cleaned address cleans to itself |
| `OrderForms.ZoneMissing` | apps/orders/forms.py:173-177 | the zone error is raised exactly for a delivery without a zone |
| `OrderViews.CleanFormHasShipping` | apps/orders/forms.py:173-177 | for either delivery choice, the form's zone error is raised exactly when checkout would find no shipping, so after a valid form the view's own zone check never fires |
| `OrderViews.VariantDesc` | apps/orders/views.py:42-46 | `""` without attributes; one attribute prints as `"name: value"` |
| `OrderViews.VariantDescIsJoin` | apps/orders/views.py:42-46 | the description is the `", "` join, one more attribute adding `", name: value"` |
| `OrderViews.ShippingAndTotal` | apps/orders/views.py:78-94 | pickup costs 0 and keeps no zone; a delivery without a zone is refused; total = subtotal + shipping |
| `OrderViews.ShippingPreview` | apps/orders/views.py:183-186 | the preview is 0 unless a delivery has a zone |
| `OrderViews.PreviewIsCharged` | apps/orders/views.py:183-186 | for either delivery choice, the preview equals the cost charged |
| `OrderViews.PaymentInstructions` | apps/orders/views.py:97-108 | the first of "acord", "contra", "transfer" in the lower-cased method picks the text; the pickup note only with "contra"; empty exactly when none occurs |
| `OrderViews.PaymentByTransfer` | apps/orders/views.py:105-106 | the form's `transferencia` gets the transfer text |
| `OrderViews.NotContains` | apps/orders/views.py:99-105 | a text lacking one letter of a keyword does not contain the keyword |
| `OrderViews.PaymentOnDelivery` | apps/orders/views.py:101-104 | the form's `contraentrega` gets the cash text, plus the note with pickup |
| `OrderViews.PaymentByAgreement` | apps/orders/views.py:99-100 | the model field's default `Acordar` gets the agreement text; checkout never sends it |
| `OrderViews.CheckoutNeverAgrees` | apps/orders/forms.py:45-48 | both payment choices of the checkout form get non-empty instructions other than the agreement text, so checkout never reaches the "acord" branch |
| `OrderViews.ItemOf` | apps/orders/views.py:156-164 | an order line names the variant, copies the quantity and the price, and line total = price × quantity |
| `OrderViews.Step` | apps/orders/views.py:139-164 | one pass of the loop keeps the set of variants and adds one item |
| `OrderViews.Place` | apps/orders/views.py:135-164 | the loop keeps the set of variants and yields one item per line |
| `OrderViews.PlaceErrSticks` | apps/orders/views.py:139-178 | the first failure aborts the whole loop |
| `OrderViews.PlaceEffect` | apps/orders/views.py:139-153 | succeeds exactly when every line fits. Each variant then loses exactly what the lines ask of it. The error names the first line that does not fit, with its stock and quantity. The race branch is never taken |
| `OrderViews.QtyOfAbsent` | apps/orders/views.py:139-153 | lines that never name a variant ask nothing of it |
| `OrderViews.PlaceStock` | apps/orders/views.py:146-153 | each variant keeps its other fields and loses exactly what the lines ask of it |
| `OrderViews.PlaceIffCanCheckout` | apps/orders/views.py:139-143 | the checkout succeeds exactly when `_can_checkout` holds |
| `OrderViews.PlaceItems` | apps/orders/views.py:155-164 | item i copies line i with the variant as read; the line totals add up to the cart subtotal |
| `OrderViews.CheckoutThenRestockRestores` | apps/orders/views.py:146-164 | restocking a freshly placed order gives every variant back exactly its stock from before the checkout |
| `OrderViews.QtyForItems` | apps/orders/views.py:155-164 | the items give back to each variant exactly what the cart lines took from it |
| `OrderViews.RestoresVariant` | apps/orders/views.py:146-164 | after checkout and restock, a variant holds its old row again |
| `OrderViews.NewOrder` | apps/orders/views.py:112-127 | the order starts pending, not restocked, with total = subtotal + shipping |
| `OrderViews.PlaceLines` | apps/orders/views.py:135-164 | the loop computes exactly the specification function |
| `OrderViews.Created` | apps/orders/views.py:112-127 | a new order without items under the next key |
| `OrderViews.CreatedConsistent` | apps/orders/views.py:112-127 | creating the order keeps the tables consistent |
| `OrderViews.CreateOrder` | apps/orders/views.py:112-127 | the order row is created under the next key and nothing else changes |
| `OrderViews.Commit` | apps/orders/views.py:146-167 | the stock and items are kept, the cart is emptied, and nothing else changes |
| `OrderViews.KeepsConsistent` | apps/orders/views.py:146-164 | changing stock but not the set of variants, and writing one order's items, keeps the tables consistent |
| `OrderViews.Committed` | apps/orders/views.py:146-167 | the committed tables hold the new order and exactly its items under the next key |
| `OrderViews.PlaceOrder` | apps/orders/views.py:110-178 | on failure the database is exactly as before. On success the result is the new order's key and the tables are exactly the committed ones: the new order and its items, the stock taken, the cart emptied, nothing else changed |
| `OrderViews.Checkout` | apps/orders/views.py:50-181 | the cart is exactly that of `get_or_create_cart`. After a valid form the zone check does not fire. An empty cart, a delivery without a zone or a failed placement leaves the tables as the cart lookup left them. Success creates the pending order with its items under the next key and empties the cart |
| `OrderViews.CanView` | apps/orders/views.py:197-214 | an order with a user is shown only to that signed-in user; one without a user to anyone |
| `OrderViews.PlacedOrderVisibility` | apps/orders/views.py:180-204 | the order checkout stores and redirects to is shown to whoever placed it; a signed-in buyer's order is refused to every other requester, and a guest's order is shown to anyone |

## Left out

- `receipt_pdf` is not part of this model: it draws the PDF with ReportLab and reads the logo from the file system. Its access check is the same as in `success` and `receipt`, and `OrderViews.CanView` models it.
- Concurrency is not modelled: `select_for_update`, `F()` updates and transaction isolation. Each atomic block is one sequential step. Rollback restores the tables it changed, including the order-key counter. In a sequential run the "stock changed while you were buying" branch of checkout cannot be taken. `OrderViews.PlaceEffect` proves this, and the branch stays in the model.
- Rendering, redirects, flash messages and JSON encoding are left out. The outcome datatypes keep only the decision each view makes. The error datatypes name the messages in comments.
- `cart_detail`, `cart_remove`, `cart_clear` and the mini-cart summary API are not modelled. They only render or call the modelled services.
- `slugify`, `Decimal(...)` and `difflib.get_close_matches` are library code. Their results are parameters (`base`, `nameSlug`, `parsed`, `fuzzy`).
- The session key a request carries is also a parameter. Creating a session is left out.
- `Text.ParseInt`: the digit limit is CPython's default of 4300. A limit changed through `sys.set_int_max_str_digits` or `PYTHONINTMAXSTRDIGITS` is not modelled.
- `Text.IsDigit`, `OrderForms.KeepDigits`, `Text.ParseInt`: only ASCII digits count as digits. Python's `\D` and `int()` also treat other Unicode decimal digits as digits. For example, a phone with an Arabic-Indic digit is refused by the source but has that digit dropped here.
- `Text.Lower`, `Text.Capitalize`: only ASCII letters change case; Python maps all of Unicode.
- Django's field checks (required, `max_length`, the e-mail syntax validator, choice validation) run before the `clean_` methods and are not modelled. The cleaning functions take the value those checks passed on.
- `OrderAdmin.SaveModel`: only the change path is modelled, for an order that exists. Adding an order through the admin is a plain save.
- `OrderAdmin.StatusColor`: the HTML, the bold style and the upper-cased status label around the colour are not modelled. Neither is `user_info`.
- `CatalogViews.ProductDetailAdd`: the posted `variant_id` is taken as a number. A missing id is a 404 in the source; a non-numeric one makes `int()` raise, an unhandled error. Neither path is modelled.
- The cart lines and the order items are read in increasing key order. The source reads `cart.items` and `order.items.all()` with no `order_by` and no default ordering, so the database decides the order. That order decides which failing line checkout reports and the order in which the order items are created.
- Product search, the price and stock filters, the attribute query itself, the price-slider range and pagination are ORM queries and are not modelled. The attribute-filter extraction, the sort choice and the sidebar are.
- Saving the customer's phone and address to their profile at checkout is not modelled (the profile is not part of this model).
- The order-access check reads a user key as "present" when it is set. Python also treats the key 0 as absent, but database keys start at 1.
- Static JavaScript, accounts, the reports dashboard, the random home-page selection and the admin and shipping declarations contain no logic beyond what is modelled here.

## Findings

| source | as written | input that shows it | evidently intended | confidence | as-written member | corrected member |
|---|---|---|---|---|---|---|
| apps/orders/admin.py:133-138 with apps/orders/models.py:101 | `save_model` calls `obj.restock_items()` before `super().save_model`. `restock_items` reloads `obj` from the database. The save then writes the stored row back: the edited status `cancelled` and every other form edit are lost, while the stock is returned and `stock_reverted` is set | a pending order with `stock_reverted = false`, edited in the admin form to status `cancelled` | the order is saved as cancelled with the form's edits, and its stock comes back once | not executed | `OrderAdmin.SaveModelLosesCancel`, `OrderAdmin.SaveModel` | `OrderAdmin.SaveModelFixedCancels`, `OrderAdmin.SaveModelFixed` |
