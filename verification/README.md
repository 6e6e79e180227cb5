# MyWallet ledger, catalogue, carts and history — a Dafny model

MyWallet is a browser wallet and shop. All of its state lives in local
storage: users with balances, a catalogue of categories and products, an
append-only log of transactions, and one shopping cart per user. This project
models the application's data-access layer (`src/services/DataService.js`)
and the three screens whose logic decides what is written or shown. Those are
the cart page's total and checkout (`Cart.jsx`), the filter of the history
page (`History.jsx`), and the form validators (`FormValidation.js`). The
wallet page's top-up guard (`Wallet.jsx`) is modelled too, as the only
caller of `replenishWallet`.

The whole of local storage is one immutable `Model.Store`. Every write
operation is a pure function from a store to a `Step(store, out)`: the new
store, plus the value the JavaScript function returns. Ids that `uuidv4()` or
`Date.now()` would draw and timestamps that `new Date()` would read are
parameters (`freshId`, `now`). Money is held in integer cents. Report totals
are `real`, so that the even split of a multi-product purchase is exact.

Modules, one per file:

- `Wrappers`: Option and Result.
- `Model`: the entities, the `find` / `findIndex` and last-wins `forEach`
  look-ups, and the seed data.
- `Seqs`: the filter, reversal and subsequence facts.
- `Text`: digits, `parseInt`, `toLowerCase` and `includes`.
- The operations: `Users`, `Catalog`, `Ledger`, `Carts`, `Checkout`,
  `Reports`, `Csv`, `History`, `FormValidation` and `Wallet`.
- `Audit`: the balance/log invariant over whole sequences of shopper
  operations.

Three behaviours of the code are easy to misread:

- `createTransaction` credits the balance only for the type `"replenish"`.
  `replenishWallet`, however, records the type `"replenishment"`, and a
  `"replenishment"` passed to `createTransaction` is logged as a credit
  without being paid. `Ledger.BalanceAfter` models this as written, and
  `Audit.CreateTransactionDrift` states the consequence.
- `replenishWallet` itself accepts any amount. The refusal of a
  non-positive amount happens in the wallet form (`Wallet.ReplenishForm`).
- `createTransaction` appends the entry before it writes the balance. Both
  writes are modelled, in that order, with nothing in between.

## Model

| member | source | states |
|---|---|---|
| Model.FindUser | src/services/DataService.js:105-108 | `getUserById` finds a user exactly when some stored user has that id. What it returns is the first stored user with that id: no earlier user has it. |
| Model.FindProduct | src/services/DataService.js:283-286 | `getProductById` finds a product exactly when some product has that id. What it returns is the first product with that id: no earlier product has it. |
| Model.LookupProduct | src/components/Cart/Cart.jsx:26-32 | The `productMap` lookup resolves an id exactly when some product has it. Since later writes to the map win, it yields the last catalogue product with that id: no later product has it. |
| Model.LookupCategoryName | src/components/History/History.jsx:29-35 | The `categoryMap` lookup resolves an id exactly when some category has it. It yields the name of the last category with that id: no later category has it. |
| Model.GetCartAfterWrite | src/services/DataService.js:639-643 | After one user's cart is written, `getCart` reads that cart back for that user and every other user's cart as before. |
| Users.UpdateUser | src/services/DataService.js:710-726 | `updateUser` returns `null` and writes nothing for an unknown id. Otherwise it replaces only the first user with that id by the merge of the patch, and touches no other collection. |
| Users.UpdateUserBalance | src/services/DataService.js:110-119 | `updateUserBalance` adds the signed amount to the first user with that id and to no one else. An unknown id returns `null` and writes nothing. |
| Users.RegisterUser | src/services/DataService.js:57-79 | A taken username is refused with "Username already exists" and nothing is written. Otherwise exactly one user is appended: it has the fresh id, the given username, password, full name, email and admin flag, a $500 balance and the creation time. |
| Users.RegisterKeepsUsernamesUnique | src/services/DataService.js:57-79 | Registration keeps usernames unique. |
| Users.AuthenticateUser | src/services/DataService.js:52-55 | Login succeeds exactly when some stored user has both the username and the password. The user returned is the first stored one with those credentials: no earlier user has both. |
| Users.RegisterThenAuthenticate | src/services/DataService.js:52-79 | A freshly registered user can log in with the credentials given, and the login returns exactly the new account. |
| Users.UpdateUserPassword | src/services/DataService.js:155-178 | The password changes, and `true` is returned, exactly when the user exists and the current password matches. Then only that user's password changes; otherwise nothing is written. |
| Users.PasswordChangeThenAuthenticate | src/services/DataService.js:155-178 | After a successful password change, the new password logs the user in. |
| Users.ReadBackUser | src/services/DataService.js:105-119 | After a write that keeps every other user and this user's id, `getUserById` reads back the user that was written. |
| Catalog.AddCategory | src/services/DataService.js:249-258 | `addCategory` appends exactly one category, with the fresh id and the given name, and changes nothing else. |
| Catalog.AddCategoryThenLookup | src/services/DataService.js:249-258 | The screens' category look-up shows the new category's name under its id. |
| Catalog.UpdateCategory | src/services/DataService.js:260-269 | `updateCategory` returns `null` and writes nothing exactly when no category has the id. Otherwise it replaces the first such category by the merge and leaves every other category in place. |
| Catalog.UpdateCategoryReadBack | src/services/DataService.js:260-269 | When the merged category keeps the id, it is the first category found under that id afterwards. |
| Catalog.DeleteCategory | src/services/DataService.js:271-276 | `deleteCategory` keeps, in order, exactly the categories with another id, each as many times as before, drops every copy of those with this id, and returns the id it was given. |
| Catalog.HighestNumericIdBound | src/services/DataService.js:291-298 | No product id that `parseInt` reads exceeds the maximum that the `addProduct` scan computes. |
| Catalog.HighestNumericIdAttained | src/services/DataService.js:291-298 | The scan's maximum is either the starting 0 or the parsed value of some product's id. |
| Catalog.NextProductIdFresh | src/services/DataService.js:300-305 | `String(highestId + 1)` parses to one more than the maximum. It therefore lies above every numeric id and differs from every id in the catalogue, with ids held as exact integers (in JavaScript this holds only while the largest id stays below 2^53). |
| Catalog.AddProduct | src/services/DataService.js:288-310 | `addProduct` appends one product with the next sequential id and the creation time, and that id is not already used. |
| Catalog.AddProductThenFind | src/services/DataService.js:283-310 | `getProductById` finds exactly the new product under its new id. |
| Catalog.AddProductKeepsIdsUnique | src/services/DataService.js:288-310 | Adding a product keeps product ids unique. |
| Catalog.UpdateProduct | src/services/DataService.js:342-351 | `updateProduct` returns `null` and writes nothing exactly when `getProductById` finds nothing. Otherwise it replaces the first product with that id by the merge. |
| Catalog.UpdateProductReadBack | src/services/DataService.js:342-351 | When the merged product keeps the id, `getProductById` reads it back. |
| Catalog.DeleteProduct | src/services/DataService.js:353-358 | `deleteProduct` keeps, in order, exactly the products with another id, each as many times as before, and drops every copy of those with this id. Afterwards the id no longer resolves. |
| Ledger.AddTransaction | src/services/DataService.js:181-191 | `addTransaction` appends exactly one entry, stamped with the fresh id and time, and changes no other collection. |
| Ledger.UserTransactions | src/services/DataService.js:193-196 | `getUserTransactions` yields entries of that user only, in log order (a subsequence of the log). |
| Ledger.UserTransactionsMembership | src/services/DataService.js:193-196 | An entry is in the user's log exactly when it is in the log and owned by that user. |
| Ledger.SignedAmount | src/services/DataService.js:218-220 | The recorded amount keeps the magnitude of the amount given. It is never positive for a purchase and never negative for any other type. |
| Ledger.DirectCategory | src/services/DataService.js:208-216 | A category is derived exactly for a single-product purchase whose product exists, and it is that product's category. |
| Ledger.BalanceAfter | src/services/DataService.js:218-236 | For a purchase and for the type "replenish", the balance moves by exactly the signed amount that is logged. Every other type, "replenishment" included, leaves it unchanged although its amount is logged. |
| Ledger.CreateTransaction | src/services/DataService.js:198-242 | An unknown user gets `null` and nothing is written. Otherwise exactly one entry is appended and the user's balance is written back as `BalanceAfter` gives. The entry carries the signed amount, the single product id, the derived category and the product list. Other users, the catalogue and the carts are kept. |
| Ledger.PurchaseProduct | src/services/DataService.js:375-397 | A purchase succeeds exactly when the user and the product are found and the balance covers the price. A missing user or product, or a balance below the price, is refused with its own message and nothing is written. Success debits exactly the price from that user alone, appends the one purchase entry, and returns the user as read back. |
| Ledger.ReplenishWallet | src/services/DataService.js:361-373 | An unknown user gets `null` and nothing is written. Otherwise the balance rises by the amount, and one "replenishment" entry of the same amount is appended. |
| Carts.AddToCart | src/services/DataService.js:645-672 | Only this user's cart changes. A product already in the cart has the quantity of its first line raised; a new product gets one new line at the end. |
| Carts.AddToCartKeepsWellFormed | src/services/DataService.js:645-672 | Adding a positive quantity keeps at most one line per product and every quantity at least 1. |
| Carts.AddToCartMerges | src/services/DataService.js:656-668 | Adding the same product twice yields one line holding both quantities. |
| Carts.UpdateCartItem | src/services/DataService.js:674-694 | A missing cart gives `[]`, and an unknown item id writes nothing. Otherwise the first line with that id gets a positive quantity, or is removed for any other quantity, and only this user's cart changes. |
| Carts.UpdateCartItemKeepsWellFormed | src/services/DataService.js:674-694 | Updating a line keeps a well-formed cart well-formed. |
| Carts.RemoveFromCart | src/services/DataService.js:696-698 | `removeFromCart` removes the first line with that item id and nothing else. A user without a cart gets `[]`, and an unknown item id leaves the store and the cart as they were. |
| Carts.RemoveFromCartDropsOne | src/services/DataService.js:696-698 | When some line has the item id, the cart shrinks by exactly one line with that id, and every other line is kept. |
| Carts.RemoveFromCartKeepsWellFormed | src/services/DataService.js:696-698 | Removing a line keeps a well-formed cart well-formed. |
| Carts.ClearCart | src/services/DataService.js:700-708 | `clearCart` empties this user's cart only and returns `[]`. |
| Carts.ClearThenAdd | src/services/DataService.js:645-708 | A cleared cart is well formed, and adding to it gives a cart of the one new line. |
| Checkout.ComputeCartTotal | src/components/Cart/Cart.jsx:36-46 | The loop of the total effect computes the line-by-line sum, over the lines whose product resolves, of price times quantity. |
| Checkout.CartTotalAppend | src/components/Cart/Cart.jsx:36-46 | The total of two carts joined is the sum of their totals. |
| Checkout.CartTotalSingle | src/components/Cart/Cart.jsx:39-44 | A one-line cart totals price times quantity, or 0 when the product does not resolve. |
| Checkout.CartTotalNonNegative | src/components/Cart/Cart.jsx:36-46 | When prices are non-negative, a well-formed cart never totals less than zero. |
| Checkout.PurchaseDescriptionCount | src/components/Cart/Cart.jsx:90 | The description's number parses back to the count of cart lines, and the plural noun is used exactly when that count is not 1. |
| Checkout.PurchaseDescriptionInjective | src/components/Cart/Cart.jsx:90 | Different line counts give different descriptions. |
| Checkout.DecrementQuantity | src/components/Cart/Cart.jsx:173 | The decrement button asks for one less than a quantity of 2 or more, and for 1 otherwise. It never asks for less than 1 and never raises a quantity of 1 or more. |
| Checkout.DecrementKeepsLine | src/components/Cart/Cart.jsx:173 | Decrementing never removes a line: the cart keeps its length, its line ids and its well-formedness. |
| Checkout.Settle | src/components/Cart/Cart.jsx:84-103 | After the checks pass, checkout appends the purchase entry and debits the cart total from this user alone. It then empties only this user's cart and returns the user as read back. |
| Checkout.Checkout | src/components/Cart/Cart.jsx:65-120 | "User not authenticated", "User not found" and "Insufficient funds" each come with an unchanged store. Success happens exactly when the user is signed in and found and the balance covers the total, and the store is then settled. |
| Checkout.CheckoutDebitsTotal | src/components/Cart/Cart.jsx:80-92 | When prices are non-negative and the cart is well formed, a successful checkout debits exactly the cart total. |
| Reports.InitialReport | src/services/DataService.js:404-409 | The report starts with one zero entry per category, in catalogue order. |
| Reports.Credit | src/services/DataService.js:415-420 | Crediting a listed category raises the first entry of that category by exactly the amount and keeps every other entry, so the report total rises by the amount. An unlisted category leaves the report as it was. |
| Reports.CreditSpent | src/services/DataService.js:415-420 | Crediting a category raises what the report shows for that category, when it is listed, and for no other category. |
| Reports.CountCategoriesKeys | src/services/DataService.js:423-433 | The per-category tally counts only categories of the purchased products. |
| Reports.CountCategories | src/services/DataService.js:423-433 | The tally counts each product that resolves to a categorised product exactly once. |
| Reports.CountCategoriesCount | src/services/DataService.js:423-433 | For every category, the tally's count is the number of purchased ids that `getProductById` resolves to a product of that category. |
| Reports.ScaledIsProduct | src/services/DataService.js:435-443 | Adding the per-product share `count` times is the same real as `amountPerProduct * count`. |
| Reports.PerProduct | src/services/DataService.js:435 | The shares of all listed products add up to exactly the absolute amount of the purchase. |
| Reports.DistributeCredits | src/services/DataService.js:438-443 | Distribution adds the share once for every counted product whose category the report lists. |
| Reports.DistributeSpent | src/services/DataService.js:438-443 | Distribution raises what the report shows for each listed category by the per-product share times that category's count, and leaves unlisted categories at nothing. |
| Reports.DistributeBound | src/services/DataService.js:423-443 | A split purchase credits between nothing and its amount. It credits all of it when every product resolves to a listed category. |
| Reports.AccumulateTotal | src/services/DataService.js:412-446 | Only purchases change the report. A purchase with a category adds its absolute amount when the category is listed. A split purchase adds at most its amount, and all of it when every product resolves to a listed category. Any other purchase adds nothing. |
| Reports.AccumulateSpent | src/services/DataService.js:412-446 | One transaction raises what the report shows for each listed category by that category's share. The share is defined apart from the report: the whole absolute amount for a purchase's own category, the amount divided by the number of listed products times the number of them in the category for a split purchase, and nothing otherwise. |
| Reports.FoldSpent | src/services/DataService.js:412-446 | Folding a log raises what the report shows for each listed category by the sum of its shares. |
| Reports.FoldOnlyPurchases | src/services/DataService.js:412-413 | Folding the whole log gives the same report as folding its purchases alone. |
| Reports.FoldTotalBounded | src/services/DataService.js:412-446 | The report never attributes more than the user's purchases spent. |
| Reports.SortByTotal | src/services/DataService.js:448 | The sorted report is in descending order of total and is a permutation of the unsorted one. |
| Reports.CategorySpendingReport | src/services/DataService.js:400-449 | The report has one entry per catalogue category, with non-negative totals, sorted by descending total. Its grand total is at most the user's purchase volume. |
| Reports.CategorySpend | src/services/DataService.js:400-449 | For every category of the catalogue, some entry of that category shows the sum of its shares of the user's log. When the category's id is unique, every entry of that category does. |
| Csv.DoubleQuotes | src/services/DataService.js:478 | Doubling quotes lengthens the text by exactly its number of quotes. |
| Csv.EscapeFieldRoundTrip | src/services/DataService.js:478 | Reading the quoted, quote-doubled description cell back by the rules of RFC 4180 recovers the description exactly. |
| History.FilteredTransactions | src/components/History/History.jsx:76-144 | The screen lists a subsequence of the user's log, newest first. An entry is listed exactly when it is the user's and passes every filter, and each filter's bound holds for every listed entry. |
| History.ResetShowsWholeLog | src/components/History/History.jsx:55-65 | After `resetFilters` the screen lists the user's whole log, newest first. |
| History.DefaultsPassAll | src/components/History/History.jsx:11-19 | Every transaction passes the default filters. |
| History.CategoryIgnoredUnlessPurchase | src/components/History/History.jsx:83-87 | The category filter only affects purchases. |
| History.AmountBoundsInclusive | src/components/History/History.jsx:109-115 | Empty amount bounds admit everything, and set bounds are inclusive on both sides. |
| History.SearchMeansOccurrence | src/components/History/History.jsx:118-141 | With a non-empty term, an entry passes the search exactly when the lower-cased term occurs at some offset of one of the searched texts. For purchases only, those texts include the product and category names. |
| History.SearchIgnoresTermCase | src/components/History/History.jsx:119 | Typing the term in upper or lower case keeps the same entries. |
| History.AmountTextRoundTrip | src/components/History/History.jsx:122 | The amount text the search looks in reads back to the amount. |
| History.AmountTextInjective | src/components/History/History.jsx:122 | Different amounts give different texts. |
| FormValidation.ValidateEmail | src/components/Auth/FormValidation.js:3-6 | An address is accepted exactly when it matches `^[^\s@]+@[^\s@]+\.[^\s@]+$`; otherwise the fixed message is returned. |
| FormValidation.EmailShapeSingleAt | src/components/Auth/FormValidation.js:4 | An accepted address holds exactly one `@` and no whitespace. |
| FormValidation.ValidatePassword | src/components/Auth/FormValidation.js:8-12 | A missing or empty password is "required", one of 1 to 5 characters is "too short", and all others are accepted. |
| FormValidation.ValidateRequired | src/components/Auth/FormValidation.js:14-16 | A value is accepted exactly when it is present and non-empty. The failure message names the field. |
| FormValidation.RequiredMessageNamesField | src/components/Auth/FormValidation.js:14-16 | Different field names give different failure messages. |
| Wallet.ReplenishForm | src/components/Wallet/Wallet.jsx:27-47 | A missing or non-positive amount is refused and nothing is written. Any other amount goes to `replenishWallet` and raises a known user's balance. |
| Wallet.ReplenishFormNeverDebits | src/components/Wallet/Wallet.jsx:27-47 | No balance ever goes down through the top-up form. |
| Audit.PurchaseProductKeepsDrift | src/services/DataService.js:375-397 | A purchase keeps every user's balance minus logged sum: the log accounts for the debit. |
| Audit.ReplenishKeepsDrift | src/services/DataService.js:361-373 | A top-up keeps every user's balance minus logged sum. |
| Audit.CheckoutKeepsDrift | src/components/Cart/Cart.jsx:65-120 | A checkout keeps every user's balance minus logged sum. |
| Audit.CreateTransactionDrift | src/services/DataService.js:198-242 | For purchases and "replenish", `createTransaction` keeps balance minus logged sum. For any other type it lowers that user's figure by the absolute amount, and other users' figures are kept. |
| Audit.RunKeepsDrift | src/services/DataService.js:361-397 | Over any sequence of purchases, top-ups, checkouts and cart edits, every user's balance moves by exactly the amounts logged for that user. |
| Audit.RegisterDrift | src/services/DataService.js:57-79 | A newly registered user starts at $500 with an empty log, and every other user's figure is kept. |
| Text.NatToStringValue | src/services/DataService.js:302 | The digits `String(n)` writes for a natural number denote `n`. |
| Text.ParseIntNatToString | src/services/DataService.js:294 | `parseInt(String(n), 10)` gives `n` back. |
| Text.IncludesOccurrence | src/components/History/History.jsx:120-134 | `includes` holds exactly when the needle occurs at some offset. |
| Text.ToLowerIdempotent | src/components/History/History.jsx:119 | Lower-casing twice is lower-casing once. |
| Seqs.FilterMembership | src/services/DataService.js:193-196 | A filter keeps exactly the elements that satisfy its callback. |
| Seqs.FilterMultiplicity | src/services/DataService.js:271-276 | A filter keeps every copy of an element that satisfies its callback and no copy of one that does not. |

## Left out

- Local storage, `JSON.parse` and `JSON.stringify`, and the `currentUser` mirror that `updateUser` and the pages write are left out. The store is one value, and a missing key reads as its default.
- `uuidv4()`, `Date.now()` and `new Date().toISOString()` are not modelled; their values are parameters of each operation.
- Floating-point money is not modelled. Balances, prices and amounts are whole cents, so `toFixed(2)` and `parseFloat` rounding never arise, and sub-cent amounts cannot be expressed.
- Report totals are exact reals, not IEEE doubles.
- `Reports.Distribute` credits `amountPerProduct` added `count` times rather than the product `amountPerProduct * count`. `Reports.ScaledIsProduct` proves the two equal.
- `History.AmountText` models `String(amount)` for amounts held to the cent. The exponent notation JavaScript uses for very large or very small numbers does not arise.
- The history page's date-range filter is left out, because it parses dates.
- `Text.ToLower` folds only ASCII letters, because full Unicode case mapping is outside the model.
- Strings are sequences of characters, so a password's length counts code points rather than UTF-16 units.
- `exportTransactionsToCSV` is modelled only for the escaped description cell. The date, category and amount cells, the download and the alerts are browser output.
- `exportTransactionsToPDF` is left out as browser output.
- `createAdminIfNone`, `updateUserProfile`, `sortProducts`, `getUsers` and the getters of whole collections are left out. They lie outside the ledger, catalogue, cart and history logic modelled here.
- Users.UpdateUser, Catalog.UpdateCategory and Catalog.UpdateProduct: a patch carries only the record's own fields. A spread that adds foreign keys, or sets a key to `undefined`, is not expressible.
- Catalog.NextProductIdFresh: ids are parsed into exact integers. JavaScript parses them into doubles. For a largest id of 2^53, and for some larger ones, `highestId + 1` rounds back to it, and the new id repeats the largest one. Below 2^53 the doubles are exact and the model agrees.
- Catalog.AddProduct: the new id is stated unused only with exact integers. In JavaScript a largest id of 2^53 is repeated, as above.
- Catalog.AddProductThenFind: with the repeated id of a catalogue whose largest id is 2^53, `getProductById` in JavaScript finds the older product; the model does not reproduce this.
- Catalog.AddProductKeepsIdsUnique: holds with exact integers only. In JavaScript a catalogue whose largest id is 2^53 gains a second product with that id.
- Catalog.AddProduct: the submitted object carries no `id` of its own. In the source, an `id` in the submitted object would override the sequential one, because the spread comes after it.
- Ledger.AddTransaction: the entry's own `id` and `timestamp` are replaced by the fresh ones. In the source the spread could carry an `id` over the fresh one, but no caller passes one.
- Checkout.Checkout: the page's cart lines and total are taken from the stored cart and catalogue. The React state of the page, which could be stale, is left out.
- Reports.SortByTotal: the order among entries with equal totals is not stated.
- Reports.CategorySpend: when two categories of the catalogue share an id, only one of their entries is stated to carry the spend. The source credits the first of them and leaves the others at 0, but the model does not state their value.
- React rendering, routing, messages, timers and the `try`/`catch` logging of the pages are left out as presentation.
