# Stylino storefront: a Dafny model of its decision logic

Stylino is a Persian-language clothing storefront. A Next.js client keeps a cart and a
wishlist in browser storage, creates orders, and sends the shopper to the ZarinPal payment
gateway. A FastAPI service prices orders, pays two levels of referral commission, checks
passwords and tokens, and turns the gateway's callback into an order state and a redirect.

This project restates that logic as pure Dafny functions over immutable data and proves
what the code promises. There is one module per source file:

- Client stores: `Cart`, `Wishlist`, and `Storage`, the browser-storage write-through both of them use.
- Checkout and payment pages: `Checkout`, `PaymentResult`.
- Backend services: `Orders`, `Referral`, `Security`, `Deps`, `Auth`, `Products`, `Zarinpal`, `Payments`.
- Pages and components: `Catalog`, `Search`, `Theme`, `Nav`, `ProductCard`, `SellerPage`, `AuthPage`.
- Shared ground: `Store` (the tables as sequences in insertion order, so `find_first` is the first match), `Json` (decoded JSON with Python truthiness), `Money` (JavaScript and Python rounding on exact reals), `Text`, `Seqs`, `Wrappers`.
- `ReturnTrip` joins the gateway callback to the result page that reads its redirect.

Everything the code gets from outside is a parameter:

- the database (a `Store.Db` value);
- the clock (`now`, a calendar date);
- the JWT library, the password hasher and the random draws;
- the gateway's HTTP replies (`Zarinpal.Env`);
- browser storage text and `JSON.parse`;
- `urlparse`, `quote_plus`, `toLowerCase` and `localeCompare`.

Money is an exact `real`. Python's `round` (halves to even), `round(x, 2)` and `int()` are
written out in `Money`, and so is JavaScript's `Math.round` (halves up).

Where the code and its documentation disagree, the model follows the code:

- The payment callback's verified-success path calls `mark_order_paid` with a keyword it does not accept. The model of the code as written fails there; see Findings.
- The cart and wishlist reload install whatever `JSON.parse` returns. The model keeps only well-formed entry lists; see Left out.
- `backend/app/core/config.py` declares no gateway or frontend settings. The payment endpoints read them anyway. The model takes them as a `PaymentSettings` parameter.
- The same file does not declare `refresh_token_expire_days`, which `create_refresh_token` reads. Every login and every refresh that passes its checks therefore ends in a server error. The model states both the code as written and the intended token issue; see Findings.

## Model

| member | source | states |
|---|---|---|
| Cart.SafeQuantity | frontend/context/CartContext.tsx:56 | the clamped quantity is at least 1 and equals a positive requested quantity |
| Cart.Find | frontend/context/CartContext.tsx:58 | `find` returns an entry exactly when the id is in the cart, and that entry has the id |
| Cart.FindUnique | frontend/context/CartContext.tsx:58 | with unique ids, `find` returns the entry at the id's position |
| Cart.AddItem | frontend/context/CartContext.tsx:55-66 | the product is in the cart afterwards; the entry count grows by one exactly for a new product, which is appended with the clamped quantity |
| Cart.AddExisting | frontend/context/CartContext.tsx:58-62 | adding a present product raises only that entry's quantity by the clamped amount; name, price, image and the other entries are unchanged |
| Cart.AddNewAppends | frontend/context/CartContext.tsx:64 | adding an absent product appends exactly one entry at the end |
| Cart.AddExistingBumps | frontend/context/CartContext.tsx:60-62 | adding a present product is the bump of that id by the clamped quantity |
| Cart.RemoveItem | frontend/context/CartContext.tsx:68-70 | no entry with the id remains, every other entry remains, and the rest keep their order |
| Cart.DecrementItem | frontend/context/CartContext.tsx:72-81 | an absent id leaves the cart unchanged; quantity at most 1 removes the entry; otherwise that entry alone loses one unit |
| Cart.DecrementCases | frontend/context/CartContext.tsx:76-79 | decrementing a present id is a removal or a bump by minus one, by its quantity |
| Cart.ClearCart | frontend/context/CartContext.tsx:83 | the cleared cart is empty |
| Cart.IsEmpty | frontend/context/CartContext.tsx:87 | `isEmpty` holds exactly when no product is in the cart |
| Cart.TotalPrice | frontend/context/CartContext.tsx:85 | the `reduce` loop computes the sum of price times quantity |
| Cart.TotalCount | frontend/context/CartContext.tsx:86 | the `reduce` loop computes the sum of quantities |
| Cart.EmptyIffZeroCount | frontend/context/CartContext.tsx:86-87 | with positive quantities, the cart is empty exactly when the count is 0, and the count is at least the entry count |
| Cart.AddKeepsWellformed | frontend/context/CartContext.tsx:55-66 | adding keeps product ids unique and quantities at least 1 |
| Cart.RemoveKeepsWellformed | frontend/context/CartContext.tsx:68-70 | removing keeps product ids unique and quantities at least 1 |
| Cart.DecrementKeepsWellformed | frontend/context/CartContext.tsx:72-81 | decrementing keeps product ids unique and quantities at least 1 |
| Cart.SubsequenceKeepsWellformed | frontend/context/CartContext.tsx:69-77 | dropping entries cannot create a duplicate id or a non-positive quantity |
| Cart.AddTotals | frontend/context/CartContext.tsx:55-86 | adding raises the count by the clamped quantity and the total by that many unit prices |
| Cart.AddExistingTotals | frontend/context/CartContext.tsx:58-86 | for a present product the total grows by the clamped quantity times the stored entry's price |
| Cart.AddNewTotals | frontend/context/CartContext.tsx:64-86 | for a new product the total grows by the clamped quantity times the given price |
| Cart.RemoveTotals | frontend/context/CartContext.tsx:68-86 | removing takes away exactly that entry's quantity and line total, and an absent id changes nothing |
| Cart.DecrementTotals | frontend/context/CartContext.tsx:72-86 | decrementing a present id lowers the count by one and the total by one unit price |
| Cart.MergeInvariant | frontend/context/CartContext.tsx:55-66 | repeated adds of one new product leave one entry holding the sum of the clamped quantities |
| Cart.DecrementToZero | frontend/context/CartContext.tsx:72-81 | decrementing an entry as many times as its quantity removes it and leaves the rest as they were |
| Cart.ExampleScenario | frontend/context/CartContext.tsx:55-87 | a concrete sequence: quantity 2 at 1000, add one, decrement twice, then decrement to removal |
| Storage.Serialize | frontend/context/CartContext.tsx:49-53 | the saved value is a JSON array with one element per entry, each the entry's own encoding, in order |
| Storage.DecodeAll | frontend/context/CartContext.tsx:42 | a stored array decodes exactly when every element decodes, element for element |
| Storage.Deserialize | frontend/context/CartContext.tsx:42 | a stored value that is not an array gives no list; a decoded list has one entry per element |
| Storage.DeserializeSerialize | frontend/context/CartContext.tsx:42-51 | with an entry codec that reads back what it writes, reading back the saved JSON gives the same entries in the same order |
| Storage.Load | frontend/context/CartContext.tsx:38-47 | a missing or empty slot, or text that fails to parse, gives the empty list |
| Storage.LoadAfterSave | frontend/context/CartContext.tsx:38-53 | reloading text that parses back to the saved value restores the list item for item |
| Cart.ItemRoundTrip | frontend/context/CartContext.tsx:42-51 | a cart entry written as JSON reads back as the same entry, image absent or present as saved |
| Cart.LoadAfterSave | frontend/context/CartContext.tsx:38-53 | reloading text that parses back to a saved well-formed cart restores it item for item, so the cart invariant survives a reload |
| Wishlist.AddItem | frontend/context/WishlistContext.tsx:46-51 | a saved product leaves the list unchanged (first write wins); an unsaved one is appended |
| Wishlist.RemoveItem | frontend/context/WishlistContext.tsx:53-55 | the product is no longer saved, every other entry stays, and the order is kept |
| Wishlist.ToggleItem | frontend/context/WishlistContext.tsx:57-62 | toggling flips whether the product is saved |
| Wishlist.Clear | frontend/context/WishlistContext.tsx:64 | nothing is saved after `clear` |
| Wishlist.Count | frontend/context/WishlistContext.tsx:68 | the count is zero exactly when nothing is saved |
| Wishlist.AddIdempotent | frontend/context/WishlistContext.tsx:46-51 | adding twice is adding once |
| Wishlist.RemoveExact | frontend/context/WishlistContext.tsx:53-66 | removal changes the list exactly when the product was saved |
| Wishlist.ToggleTwice | frontend/context/WishlistContext.tsx:57-62 | toggling an unsaved product twice restores the original list |
| Wishlist.AddKeepsUnique | frontend/context/WishlistContext.tsx:46-51 | adding keeps product ids unique |
| Wishlist.RemoveKeepsUnique | frontend/context/WishlistContext.tsx:53-55 | removing keeps product ids unique |
| Wishlist.ToggleKeepsUnique | frontend/context/WishlistContext.tsx:57-62 | toggling keeps product ids unique |
| Wishlist.CountAfterAdd | frontend/context/WishlistContext.tsx:46-68 | adding raises the count by one exactly for a new product |
| Wishlist.CountAfterClear | frontend/context/WishlistContext.tsx:64-68 | `clear` makes the count 0 |
| Wishlist.CountAfterRemove | frontend/context/WishlistContext.tsx:53-68 | with unique ids, removing lowers the count by one exactly when the product was saved |
| Wishlist.ItemRoundTrip | frontend/context/WishlistContext.tsx:33-42 | a wishlist entry written as JSON reads back as the same entry, optional fields absent or present as saved |
| Wishlist.LoadAfterSave | frontend/context/WishlistContext.tsx:29-44 | reloading text that parses back to a saved duplicate-free list restores it and keeps it duplicate-free |
| Seqs.SubsequenceMembers | frontend/context/WishlistContext.tsx:53-55 | every entry of an order-preserving selection occurs in the whole list, which the removal proofs use |
| Checkout.OrderLines | frontend/app/checkout/page.tsx:70 | the order body lists each cart entry's id and quantity, in cart order, with no prices |
| Checkout.OptionalTrimmed | frontend/app/checkout/page.tsx:63-82 | mobile and e-mail are trimmed, and are absent exactly when blank |
| Checkout.PaymentRequestFor | frontend/app/checkout/page.tsx:75-83 | the payment request uses the server's order id and the server total rounded to the nearest toman, plus the order description |
| Checkout.ErrorText | frontend/app/checkout/page.tsx:89 | a non-empty error message is shown as is, and the text shown is never empty while the fallback is not |
| Checkout.HandlePay | frontend/app/checkout/page.tsx:51-93 | the effect trace starts by clearing the error and has at least two steps |
| Checkout.NoSessionRedirects | frontend/app/checkout/page.tsx:53-56 | without a token the handler goes to `/auth?redirect=/checkout` and sends nothing, before any cart check |
| Checkout.EmptyCartStops | frontend/app/checkout/page.tsx:57-60 | with a token and an empty cart the handler shows the empty-cart error and sends nothing |
| Checkout.RequestedIff | frontend/app/checkout/page.tsx:53-65 | a request goes out exactly when there is a token and a non-empty cart |
| Checkout.OrderBodyExact | frontend/app/checkout/page.tsx:65-74 | the first request is the order creation, with exactly the cart's ids and quantities |
| Checkout.PaymentAfterOrder | frontend/app/checkout/page.tsx:65-85 | the payment request is posted only after the order succeeded, for that order's id and rounded total |
| Checkout.ClearOnlyBeforeRedirect | frontend/app/checkout/page.tsx:86-87 | the cart is cleared exactly when both requests succeed, right before the redirect to the payment URL |
| Checkout.SubmittingReset | frontend/app/checkout/page.tsx:61-92 | once a request has gone out, the last effect re-enables the button |
| Checkout.FailureKeepsCart | frontend/app/checkout/page.tsx:88-92 | a failed request shows an error and leaves the cart exactly as it was |
| Checkout.DisplayedCountIsOrdered | frontend/app/checkout/page.tsx:48-70 | the displayed item count equals the number of units the order asks for |
| Checkout.LoadRedirect | frontend/app/checkout/page.tsx:42-46 | once loading is over, a visitor without a user or token is sent to sign in, and only then |
| PaymentResult.Number | frontend/app/payment/result/page.tsx:17 | decimal integer text converts to its exact value |
| PaymentResult.Parse | frontend/app/payment/result/page.tsx:13-19 | success exactly for status "success", and a missing status reads as "failed"; order id, ref id and code pass through; the amount is absent exactly when not given; `+` in the message becomes a space |
| PaymentResult.Render | frontend/app/payment/result/page.tsx:24-60 | the error block shows only on failure, with the code exactly when given; a zero or non-numeric amount shows "-"; a missing ref id shows the pending text on success and "-" on failure |
| PaymentResult.MessageDecoded | frontend/app/payment/result/page.tsx:18-57 | the shown message holds no `+`, and a message without one is shown verbatim |
| PaymentResult.IntegerAmountShown | frontend/app/payment/result/page.tsx:17-46 | an integer amount shows as that number, and as "-" when it is 0 |
| Orders.ActiveProduct | backend/app/services/order_service.py:16 | the lookup finds only an active product with that id |
| Orders.AvailabilityCheck | backend/app/services/order_service.py:15-18 | the size check passes exactly when every requested id names an active product and no id repeats |
| Orders.UnitPrice | backend/app/services/order_service.py:25 | the discount price when it is set (zero included), else the base price |
| Orders.OrderRows | backend/app/services/order_service.py:23-49 | one row per requested line, in order, with that product's unit price and unit price times quantity |
| Orders.CreateOrder | backend/app/services/order_service.py:11-51 | an empty request is a 400 before anything is read; an unavailable or repeated product is a 400; otherwise the order and its rows are written |
| Orders.Accept | backend/app/services/order_service.py:37-49 | a new order is PENDING and UNPAID for its customer, with a fresh id |
| Orders.CreatedOrderTotal | backend/app/services/order_service.py:21-40 | the stored total is the sum over the request of unit price times quantity |
| Orders.RowsTotal | backend/app/services/order_service.py:21-27 | the written rows' totals add up to the order total |
| Orders.StoredRowsMatchTotal | backend/app/services/order_service.py:40-48 | read back from the item table, a new order's rows add up to its total |
| Orders.MarkOrderPaid | backend/app/services/order_service.py:54-70 | 404 for a missing order, 403 for a non-admin non-owner; otherwise the order ends PAID |
| Orders.MarkPaidEffects | backend/app/services/order_service.py:64-69 | on the transition only the order's two status fields change: every other order, the order rows, users, products and refresh tokens stay as they were, and the referral commissions are added |
| Orders.MarkPaidIdempotent | backend/app/services/order_service.py:61-62 | a second call returns the paid order and writes nothing, so no second commission |
| Orders.SellerItems | backend/app/services/order_service.py:86-93 | the seller's rows, skipping those without an order |
| Orders.Group | backend/app/services/order_service.py:90-104 | one bucket per order id, in first-appearance order; each bucket holds exactly the seller's rows of its order, in order, with the stored order, and its total is their sum; the grand total and row count are preserved |
| Orders.PlaceHoldsRows | backend/app/services/order_service.py:94-102 | placing one more row keeps every bucket holding exactly its order's rows and the stored order |
| Orders.SellerStats | backend/app/services/order_service.py:107-121 | revenue is the rows' sum to within a half cent; total orders is the number of distinct order ids; monthly orders is exactly the number of distinct orders created in the current calendar month |
| Orders.CountIsMonthKeys | backend/app/services/order_service.py:112-116 | the month loop counts the distinct order ids whose order was created in the current month |
| Orders.MonthKeysAreMonthlyIds | backend/app/services/order_service.py:112-116 | those ids are exactly the seller's order ids whose stored order falls in the current month |
| Referral.Referrer | backend/app/services/referral_service.py:7-14 | a referrer found is the user whose id the buyer's truthy `referredById` holds |
| Referral.Plan | backend/app/services/referral_service.py:11-41 | no referrer means no commission; level 1 goes to the referrer at 10%; level 2 goes to the referrer's referrer at 5%, only after level 1; all are PAID, from the buyer, for the order |
| Referral.CreateCommissions | backend/app/services/referral_service.py:43-47 | only the commission table changes, and the created rows are appended with fresh ids |
| Referral.CommissionBound | backend/app/services/referral_service.py:25-38 | for a non-negative amount the commissions total at most 15% plus the rounding slack |
| Referral.WholeAmountCommissions | backend/app/services/referral_service.py:25-38 | for a whole-toman amount the rounding is exact and the chain pays at most 15% |
| Security.Search | backend/app/core/security.py:29-38 | the left-to-right scan finds a character of the rule's class exactly when one exists |
| Security.ValidatePasswordStrength | backend/app/core/security.py:15-41 | valid exactly when all five rules hold; otherwise the first failing rule in the fixed order, length first |
| Security.Message | backend/app/core/security.py:27-41 | the message is empty exactly for a valid password |
| Security.AppendKeepsValid | backend/app/core/security.py:26-41 | appending characters to a valid password keeps it valid |
| Security.Examples | backend/app/core/security.py:26-41 | "Abcdef1!" is valid and "Abc1!" fails on length |
| Deps.GetCurrentUser | backend/app/core/deps.py:20-38 | a token that is not an access token is 401; an admitted user is the one the token names and is not banned; the ban is reported only for an existing banned user |
| Deps.RequireRoles | backend/app/core/deps.py:41-47 | admits exactly the users whose role is allowed, else 403 |
| Deps.Authorize | backend/app/core/deps.py:20-47 | an admitted user is authenticated, not banned and of an allowed role |
| Deps.RefreshTokenRejected | backend/app/core/deps.py:21-23 | a refresh token is never accepted as a bearer token |
| Deps.IssuedAccessTokenAdmits | backend/app/core/deps.py:20-38 | an access token issued for an unbanned user's id admits that user while it decodes |
| Auth.ReferralCode | backend/app/services/auth_service.py:23-24 | a code is 8 characters from A-Z and 0-9 |
| Auth.AlphabetSpelledOut | backend/app/services/auth_service.py:24 | the alphabet is the upper-case letters followed by the digits |
| Auth.ReferralCodeInjective | backend/app/services/auth_service.py:24 | different draws give different codes |
| Auth.GenerateUniqueReferral | backend/app/services/auth_service.py:27-33 | the code returned is a free one from one of the five draws; a 500 exactly when all five draws are taken |
| Auth.Register | backend/app/services/auth_service.py:36-84 | checks password strength, e-mail, phone (when given) and referral code (when given) in that order, each failing check giving its own 400; once all four pass the result is exactly Auth.Admit's for the code holder's id; the new user is an unverified CUSTOMER with a token valid for 24 hours, referred by the code's holder |
| Auth.ReferrerId | backend/app/services/auth_service.py:50-55 | a referrer id exactly when a code is given and some user holds it |
| Auth.RegisterSucceeds | backend/app/services/auth_service.py:36-84 | a registration that passes the four checks succeeds whenever one of the five draws is free and no row holds the phone, and is referred by the code's holder |
| Auth.Admit | backend/app/services/auth_service.py:57-84 | once the checks pass: the 500 exactly when all five draws are taken; success exactly when a code is free and no row holds the phone, with an appended CUSTOMER row holding a free code, a 24-hour token and the given referrer; otherwise the duplicate-contact 400 |
| Auth.Login | backend/app/services/auth_service.py:87-116 | the intended login: an unknown e-mail and a wrong password are the same 401; the ban 403 comes only after the credentials pass; a refresh record valid for 7 days is stored |
| Auth.LoginAsWritten | backend/app/services/auth_service.py:87-105 | as written, a login always fails: the same 401 and 403 as intended, and a 500 exactly when the user exists, the password verifies and the user is not banned |
| Auth.AsWrittenLoginFails | backend/app/core/security.py:59-63 | the login as written refuses whenever the intended one does, with the same error, and turns every intended success into the 500 |
| Auth.VerifyEmail | backend/app/services/auth_service.py:119-140 | only a matching unexpired token verifies, and it is then cleared |
| Auth.VerifyEmailSingleUse | backend/app/services/auth_service.py:121-138 | a verification token works once |
| Auth.ResendVerificationEmail | backend/app/services/auth_service.py:143-164 | 404 for an unknown address, 400 for a verified one, success exactly for a known unverified one; then the address's user is the same record with the new token and an expiry 24 hours on, and only the user table changes |
| Auth.RewrittenByEmail | backend/app/services/auth_service.py:157-163 | writing back a user's record under the same id makes it the record the address finds |
| Auth.ResendThenVerify | backend/app/services/auth_service.py:119-164 | a resent token verifies the address within 24 hours |
| Auth.RegisterThenVerify | backend/app/services/auth_service.py:59-75 | the token issued at registration verifies the new address within 24 hours |
| Auth.RequestPasswordReset | backend/app/services/auth_service.py:167-186 | an unknown address changes nothing; otherwise the address's user is the same record with the new reset token and an expiry one hour on |
| Auth.ResetPassword | backend/app/services/auth_service.py:189-217 | a weak password is refused first; only a matching unexpired token resets, and it is then cleared |
| Auth.ResetSingleUse | backend/app/services/auth_service.py:196-215 | a reset token works once |
| Auth.RequestThenReset | backend/app/services/auth_service.py:167-217 | a requested reset token lets a strong password be set within the hour |
| Auth.RefreshAccessToken | backend/app/services/auth_service.py:220-256 | the intended refresh: anything but a decodable refresh token is a 401; success needs a subject and a stored unexpired record for it, issues a new token pair, and rewrites (by id) the first such record to the new refresh token expiring seven days on; no other table changes |
| Auth.RefreshAccessTokenAsWritten | backend/app/services/auth_service.py:220-245 | as written, a refresh always fails: an undecodable or non-refresh token is the 401, and a found live record gives the 500 |
| Auth.RefreshAccepts | backend/app/services/auth_service.py:224-241 | in the intended flow, a decodable refresh token with a subject and a live matching record is always accepted |
| Auth.AsWrittenRefreshFails | backend/app/core/security.py:59-63 | the refresh as written refuses whenever the intended one does, with the same error, and turns every intended rotation into the 500 |
| Auth.RotationRetiresToken | backend/app/services/auth_service.py:243-254 | after a rotation the old refresh token is refused |
| Auth.RefreshThenRefresh | backend/app/services/auth_service.py:243-256 | in the intended flow, the refresh token a rotation hands out is itself accepted for seven days |
| Auth.Logout | backend/app/services/auth_service.py:259-262 | every record holding the token is deleted |
| Auth.LogoutRevokes | backend/app/services/auth_service.py:232-262 | after logout the token cannot be refreshed |
| Auth.LoginThenRefresh | backend/app/services/auth_service.py:104-116 | in the intended flow, the refresh token a login issues is accepted within 7 days |
| Auth.RegisterThenLogin | backend/app/services/auth_service.py:36-116 | in the intended flow, a new account can log in with its registered password |
| Products.CreateProduct | backend/app/services/product_service.py:7-22 | the created product belongs to the caller, has a fresh id, carries every submitted field as sent (name, description, prices, category, brand, colours, sizes, images, active flag) and is appended |
| Products.Patched | backend/app/services/product_service.py:30-33 | each of the nine columns keeps its value when absent from the body and takes the sent value when present; `null` clears the discount and is refused for a required column |
| Products.UpdateProduct | backend/app/services/product_service.py:25-34 | 404 for a missing product or another seller's product; for the seller's own product, success exactly when the patch stores (the row is patched in place), and a 500 when it writes null to a required column |
| Products.EmptyUpdateKeepsProduct | backend/app/services/product_service.py:32 | an update that sets nothing keeps the row |
| Products.UpdateIdempotent | backend/app/services/product_service.py:30-33 | sending an update twice is sending it once |
| Products.UpdateTouchesOneProduct | backend/app/services/product_service.py:30-33 | every other row and table is untouched by an update |
| Products.DeleteProduct | backend/app/services/product_service.py:37-42 | 404 for a missing or foreign product; the seller's own product is always deleted, the table becoming exactly the other rows in order |
| Products.ListActiveProducts | backend/app/services/product_service.py:45-46 | exactly the active products, in table order |
| Products.GetProductDetail | backend/app/services/product_service.py:49-53 | a missing or inactive product is a 404 |
| Products.CreateThenDetail | backend/app/services/product_service.py:7-53 | a product just created active is what its detail shows |
| Products.DeleteThenDetail | backend/app/services/product_service.py:37-53 | a deleted product has no detail any more |
| Products.OtherSellerLockedOut | backend/app/services/product_service.py:26-40 | another seller can neither change nor delete a product |
| Zarinpal.Metadata | backend/app/services/zarinpal_client.py:65-69 | the metadata holds the mobile and e-mail exactly when they are non-empty |
| Zarinpal.RequestPayload | backend/app/services/zarinpal_client.py:57-71 | the amount is 10 times the toman amount; currency IRT; a metadata key exactly when a mobile or e-mail is given |
| Zarinpal.VerifyPayload | backend/app/services/zarinpal_client.py:96-101 | the amount is 10 times the toman amount, with the authority and merchant |
| Zarinpal.ParseResponse | backend/app/services/zarinpal_client.py:133-141 | an HTTP status of 400 or more raises before the body is read; an unreadable body raises; otherwise the truthy `data` block, else the whole reply |
| Zarinpal.ErrorMessage | backend/app/services/zarinpal_client.py:90 | the message chosen for a failed call is always truthy |
| Zarinpal.ExtractErrorMessage | backend/app/services/zarinpal_client.py:143-156 | a non-empty error list is read from its first entry only (a dict's message, else its code, else the entry's string form); an error dict gives its message, else its code; otherwise the reply's message |
| Zarinpal.ErrorMessagePrecedence | backend/app/services/zarinpal_client.py:90-156 | the reply's own message wins; then the first listed error's message, code or string form, or the error dict's message or code; the fixed text when nothing is truthy |
| Zarinpal.FirstErrorOnly | backend/app/services/zarinpal_client.py:146-150 | two error lists with the same first entry give the same message |
| Zarinpal.ReplyData | backend/app/services/zarinpal_client.py:80-109 | data is read only from a transport success with a status below 400 |
| Zarinpal.PaymentRequest | backend/app/services/zarinpal_client.py:48-92 | a transport error raises; code 100 with a non-empty string authority returns it with the StartPay URL on the sandbox or www host and the reply's message or the fixed text; code 100 without one, or any other code, raises with the code |
| Zarinpal.RequestReadsReply | backend/app/services/zarinpal_client.py:80-88 | a status-200 reply with code 100, an authority and a message creates the request with that authority, its StartPay URL and that message |
| Zarinpal.PaymentVerify | backend/app/services/zarinpal_client.py:94-130 | raises only for transport, HTTP or parse errors; success exactly for code 100 or 101; a missing or zero code reads as -1 |
| Zarinpal.VerifyReadsReply | backend/app/services/zarinpal_client.py:109-121 | a well-formed verify reply is read field by field into the result |
| Payments.GetClient | backend/app/api/v1/endpoints/payments.py:20-29 | a 500 exactly when the merchant id or callback URL is missing; otherwise a client with those settings |
| Payments.FrontendBaseUrl | backend/app/api/v1/endpoints/payments.py:32-41 | a configured base without trailing slashes; else the callback URL's scheme and host; else `http://localhost:3000` |
| Payments.ChargedAmount | backend/app/api/v1/endpoints/payments.py:64 | the payment amount when it is non-zero, else the total, rounded half to even |
| Payments.CreateZarinpalPayment | backend/app/api/v1/endpoints/payments.py:44-103 | 403 for other roles, 500 for missing settings, 404 for a missing order, 403 for another's order; for the caller's own (or, for an admin, any) order: 400 when already paid, 400 when the charged amount is not positive, and otherwise the gateway decides: an issued authority gives success, with the order holding that authority, UNPAID and PENDING and the charged amount, a refusal is a 502 with its message, a crash a 500 |
| Payments.CreateThenCallbackFindsOrder | backend/app/api/v1/endpoints/payments.py:86-119 | the callback for the issued authority finds that order |
| Payments.ClientAmountIgnored | backend/app/api/v1/endpoints/payments.py:63-71 | the amount in the request body does not change the outcome |
| Payments.PaidOrderRefused | backend/app/api/v1/endpoints/payments.py:60-61 | a paid order is never sent to the gateway again |
| Payments.UrlStatus | backend/app/api/v1/endpoints/payments.py:117-161 | every redirect goes to the result page, and it says `status=success` exactly for a success target |
| Payments.OrderByAuthority | backend/app/api/v1/endpoints/payments.py:119 | the first order holding the authority, and none exactly when no order holds it |
| Payments.Classify | backend/app/api/v1/endpoints/payments.py:115-153 | an unknown authority changes nothing and redirects to failure; a status other than OK or a verify error cancels the order and redirects with the reason; verification counts only for status OK and code 100 or 101 |
| Payments.ZarinpalCallbackAsWritten | backend/app/api/v1/endpoints/payments.py:106-177 | as written, the callback never redirects with success |
| Payments.AsWrittenVerifiedPaymentLost | backend/app/api/v1/endpoints/payments.py:154-160 | as written, a verified payment ends in a server error and the order stays unpaid |
| Payments.MarkPaidLeavesPaid | backend/app/services/order_service.py:61-70 | a successful `mark_order_paid` leaves the order paid |
| Payments.MarkPaidWithDetails | backend/app/api/v1/endpoints/payments.py:144-160 | the order ends paid; the payment details are written on the transition; an already paid order is left as it is |
| Payments.SuccessTarget | backend/app/api/v1/endpoints/payments.py:161-163 | the success redirect carries the order and amount, and the ref id only when it is non-zero |
| Payments.ZarinpalCallback | backend/app/api/v1/endpoints/payments.py:106-177 | short of a verified payment it behaves as written; the shopper sees success exactly when the gateway verified the payment, and the order is then paid |
| Payments.RepeatedCallbackWritesNothing | backend/app/services/order_service.py:61-62 | a repeated verified callback for a paid order writes nothing |
| ReturnTrip.PageReadsTarget | frontend/app/payment/result/page.tsx:13-60 | the result page shows what the callback's redirect carries: outcome, order, amount, ref id and failure details |
| ReturnTrip.CallbackPageAgrees | backend/app/api/v1/endpoints/payments.py:143-164 | after the callback the page reports success exactly when the gateway verified, showing the order and the charged amount |
| Money.JsRound | frontend/app/checkout/page.tsx:75 | the result is within a half of the input, halves rounding up |
| Money.PyRound | backend/app/api/v1/endpoints/payments.py:64 | the nearest integer, with ties going to the even neighbour |
| Money.PyRound2 | backend/app/services/referral_service.py:25 | the result is a whole number of hundredths within half a hundredth of the input, and an exact tie goes to the even hundredth |
| Money.Trunc | backend/app/api/v1/endpoints/payments.py:64 | `int()` drops the fraction toward zero |
| Json.PyInt | backend/app/services/zarinpal_client.py:110 | `int()` reads signed ASCII decimal text and whole numbers, and fails on null, lists and dicts |
| Catalog.PriceAgreesWithOrder | frontend/app/products/page.tsx:60 | the price a shopper sees is the unit price an order charges |
| Catalog.Selected | frontend/app/products/page.tsx:63 | "all" keeps every product; a category keeps exactly its products, in order |
| Catalog.SortBy | frontend/app/products/page.tsx:64 | the sort is a permutation of its input |
| Catalog.FilteredProducts | frontend/app/products/page.tsx:62-70 | the output is a permutation of the selected products |
| Catalog.SortOrders | frontend/app/products/page.tsx:65-68 | price-asc is non-decreasing in price, price-desc non-increasing, newest non-increasing in id |
| Catalog.NewestStrictlyDescending | frontend/app/products/page.tsx:68 | with distinct ids, newest is strictly descending by id |
| Catalog.Display | frontend/app/products/page.tsx:74-80 | the card shows the price; the old price and the tag appear exactly for a truthy discount; the image is the first one |
| Catalog.CatalogPage | frontend/app/products/page.tsx:72-83 | one card for each selected product |
| Search.QueryText | frontend/app/search/page.tsx:29 | the query is trimmed, and missing means empty |
| Search.Results | frontend/app/search/page.tsx:67-81 | no query gives no results; otherwise the cards of an order-preserving selection, each containing the query in its lower-cased name or description, leaving no match out |
| Search.QueryTrimmed | frontend/app/search/page.tsx:29 | surrounding white space in the query changes nothing |
| Search.BlankQueryFindsNothing | frontend/app/search/page.tsx:29-68 | a query of only white space finds nothing |
| Theme.StoredTheme | frontend/context/ThemeContext.tsx:17-21 | a stored value counts only when it is exactly "dark" or "light" |
| Theme.TimeFallback | frontend/context/ThemeContext.tsx:28-31 | light exactly when 7 <= hour < 19 |
| Theme.ResolveInitialTheme | frontend/context/ThemeContext.tsx:42-48 | the stored theme first, then the system's, then the time of day |
| Theme.Initialize | frontend/context/ThemeContext.tsx:69-75 | the resolved theme is applied to the page and nothing is stored |
| Theme.SetTheme | frontend/context/ThemeContext.tsx:50-56 | the theme is set, exactly that value is stored, and the class follows |
| Theme.ToggleTheme | frontend/context/ThemeContext.tsx:58-67 | the theme flips, the new value is stored, and the class follows |
| Theme.SystemChanged | frontend/context/ThemeContext.tsx:77-88 | ignored when a theme is stored; otherwise the system's theme is applied without storing it |
| Theme.ToggleTwice | frontend/context/ThemeContext.tsx:58-67 | toggling twice restores the theme and the class |
| Theme.ChoiceSurvivesReload | frontend/context/ThemeContext.tsx:42-67 | a theme set or toggled is the theme the next visit starts with |
| Theme.ChoiceOverridesSystem | frontend/context/ThemeContext.tsx:50-85 | after an explicit choice, system changes leave the theme alone |
| Nav.ActiveIsWithinSection | frontend/components/MobileBottomNav.tsx:25-28 | a tab other than home is active exactly for its path and the paths below it |
| Nav.Examples | frontend/components/MobileBottomNav.tsx:25-28 | "/orders/12" lights "/orders"; "/ordersX" does not; "/products" does not light "/" |
| Nav.NavItems | frontend/components/MobileBottomNav.tsx:17-23 | the five tabs in order |
| Nav.BadgeRule | frontend/components/MobileBottomNav.tsx:15-44 | only the orders tab has a badge, shown exactly when the cart's unit count is non-zero |
| Nav.AtMostOneActive | frontend/components/MobileBottomNav.tsx:17-28 | at most one tab is highlighted for any path |
| ProductCard.Discount | frontend/components/ui/ProductCard.tsx:40-41 | with a discount, the percentage is the saving rounded to the nearest whole percent, between 0 and 100 for a non-negative price; otherwise the `discountPercent` prop |
| ProductCard.PriceLineOf | frontend/components/ui/ProductCard.tsx:40 | the struck-through old price shows exactly when there is a discount |
| ProductCard.CardOfListedProduct | frontend/components/ui/ProductCard.tsx:40-41 | a catalogue card shows the base price struck through exactly when the discount is below a non-zero base price, with the matching percentage |
| SellerPage.Admit | frontend/app/seller/page.tsx:75-80 | waits while loading; loads exactly for a SELLER with a token; everyone else goes to `/auth?redirect=/seller` |
| SellerPage.ListField | frontend/app/seller/page.tsx:119-130 | the list keeps, in order, the non-empty trimmed pieces between commas |
| SellerPage.ListFieldRoundTrip | frontend/app/seller/page.tsx:119-130 | writing a list of clean items joined by commas and reading it back gives the list |
| SellerPage.OptionalNumber | frontend/app/seller/page.tsx:116 | an empty field is not converted; any other text becomes `Number(text)` |
| SellerPage.CreateRequest | frontend/app/seller/page.tsx:102-135 | nothing is sent without a token; the body carries the converted prices, a null discount for an empty field, the parsed lists and `isActive` true |
| SellerPage.RequestUpdate | frontend/app/seller/page.tsx:156-173 | nothing is sent without a token or a product id; empty prices are left out, and `isActive` is true exactly for "true" |
| SellerPage.EmptyFieldsKeepPrices | frontend/app/seller/page.tsx:167-169 | through the update form, an empty price field keeps that stored price, so a discount cannot be cleared by emptying its field |
| SellerPage.AfterDelete | frontend/app/seller/page.tsx:187 | the local list keeps exactly the products with other ids, in order |
| SellerPage.DeleteKeepsListInSync | frontend/app/seller/page.tsx:183-191 | when the page held the seller's products, after an accepted delete it holds exactly the seller's remaining products |
| AuthPage.RolePath | frontend/app/auth/page.tsx:8-12 | CUSTOMER goes to "/", SELLER to "/seller", ADMIN to "/admin" |
| AuthPage.Destination | frontend/app/auth/page.tsx:52-69 | a non-empty `redirect` wins; otherwise the role's home |
| AuthPage.RedirectPath | frontend/app/auth/page.tsx:19-20 | a signed-in user goes to the destination; with no user and no redirect, to "/" |
| AuthPage.Leave | frontend/app/auth/page.tsx:31-35 | a signed-in user leaves for the destination once loading is over, and only then |
| AuthPage.OptionalField | frontend/app/auth/page.tsx:65-67 | phone and referral code are trimmed, and absent exactly when blank |
| AuthPage.Submit | frontend/app/auth/page.tsx:37-75 | a blank e-mail or empty password is refused first; registration then needs a non-blank name; the e-mail and name are trimmed and the password is sent as typed |
| AuthPage.BlankCredentialsRefused | frontend/app/auth/page.tsx:45-48 | the credentials error is shown exactly for a blank e-mail or an empty password |
| AuthPage.SurroundingSpaceIgnored | frontend/app/auth/page.tsx:42-67 | white space around the name, e-mail, phone or referral code changes nothing |
| AuthPage.DashboardRoundTrip | frontend/app/auth/page.tsx:52-69 | a visitor the dashboard turned away returns to "/seller" after signing in, whatever the role |
| AuthPage.SellerLandsOnDashboard | frontend/app/auth/page.tsx:8-12 | a seller signing in with no redirect lands on the dashboard, which admits it |

## Left out

- Storage.Load: a slot that parses to something other than a list of entries gives the empty list. Both stores install whatever `JSON.parse` returned, which later breaks the cart totals and the wishlist lookups.
- Rendering, layout, animation and other presentation components are not modelled. Nor are the admin, orders and home pages; the home page holds unresolved merge markers.
- HTTP transport, Prisma, browser storage and e-mail sending are abstract. They appear only as parameters or as the values they produce.
- The race in registration between the duplicate checks and the insert (`UniqueViolationError`) is not modelled, except for the empty phone. An empty phone skips the phone check but is stored.
- `list_orders_for_customer` and `list_commissions_for_user` are plain queries with no decision logic. The seller router's list endpoints and `list_categories` are the same.
- Deleting a product with order rows would fail on a foreign-key constraint. The store has no constraints, so the model's delete always succeeds.
- JWT signing and decoding, bcrypt, `token_urlsafe` and `random.choices` are oracles. Only their shapes and lifetimes are stated.
- Floating point: money is exact. Money.PyRound2 rounds the exact decimal to even hundredths; the binary float's own representation error, which can move a tie, and float drift in `+=` sums are not modelled.
- PaymentResult.Number: only decimal integer text is converted exactly. Fractions, exponents and other forms go to an abstract function.
- Catalog.SortOrders: the name sort proves only the permutation, because `localeCompare(·, "fa")` is abstract.
- Search.Results: `toLowerCase` is abstract, so matching is stated for the given lowering function.
- ReturnTrip.Received assumes URL decoding undoes `quote_plus`. Percent-encoding itself is not modelled.
- Security.Search: `\d` accepts ASCII digits and the Arabic-Indic and Persian digit blocks. Other Unicode decimal digits are not included.
- Gateway settings are a `PaymentSettings` parameter. `backend/app/core/config.py` declares none of them, so the running code would fail on attribute access. The refresh lifetime is a `Security.TokenSettings` field for the same reason; see Findings.
- Json.PyInt: reads only an optional sign and ASCII decimal digits, after trimming the white space `Text.Trim` drops (JavaScript's set). Python's `int()` also accepts underscores between digits (`"1_000"`) and other Unicode decimal digits, and strips a slightly different white-space set (it adds U+001C to U+001F and U+0085, and keeps U+FEFF); the model reads the extra forms as a failure. The values converted here are server-minted ids and gateway codes, which use none of these forms.
- Auth.Login: states the intended login. As written every login that passes the checks ends in a server error; Auth.LoginAsWritten models that.
- Auth.RefreshAccessToken: states the intended refresh. As written every refresh that finds a live record ends in a server error; Auth.RefreshAccessTokenAsWritten models that.
- Auth.LoginThenRefresh: holds for the intended login and refresh only. As written the login already ends in a server error.
- Auth.RegisterThenLogin: holds for the intended login only. As written the registered account's login ends in a server error.
- Pydantic validation is reduced to the coercions the client relies on: `str`, `Optional[str]` and `Optional[int]`.
- A repeated callback with a status other than OK still cancels an order that is already paid. The model keeps that behaviour; it is noted here, not fixed.
- Theme: the media-query listener's subscription and clean-up are not modelled, only what a change event does.

## Findings

| source | as written | input that shows it | evidently intended | confidence | as-written member | corrected member |
|---|---|---|---|---|---|---|
| backend/app/api/v1/endpoints/payments.py:154-160 | the verified-success path calls `mark_order_paid(..., payment_update=...)`, but `mark_order_paid` (backend/app/services/order_service.py:54) takes no such parameter, so the call raises `TypeError` and the request ends in a server error | a callback with `Status=OK` whose verification returns code 100 for a known authority | the order becomes PAID with the gateway's details, and the shopper is redirected with `status=success` | not executed | Payments.ZarinpalCallbackAsWritten (Payments.AsWrittenVerifiedPaymentLost) | Payments.ZarinpalCallback (Payments.MarkPaidWithDetails) |
| backend/app/core/security.py:59-63 | `create_refresh_token` reads `settings.refresh_token_expire_days`, which `Settings` (backend/app/core/config.py:5-14) does not declare, so `login_user` raises `AttributeError` after its checks pass and the request ends in a server error | an existing, unbanned user logging in with the right password | the login returns an access and a refresh token and stores a refresh record valid for seven days | not executed | Auth.LoginAsWritten (Auth.AsWrittenLoginFails) | Auth.Login (Auth.LoginThenRefresh) |
| backend/app/services/auth_service.py:244-245 | `refresh_access_token` calls the same `create_refresh_token`, so a refresh that finds a live record raises before rotating it | a decodable refresh token with a subject and a stored unexpired record | a new token pair, with the record rotated to the new refresh token | not executed | Auth.RefreshAccessTokenAsWritten (Auth.AsWrittenRefreshFails) | Auth.RefreshAccessToken (Auth.RefreshAccepts) |
