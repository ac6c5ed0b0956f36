# Smart Trolley, modelled in Dafny

Smart Trolley is a self-checkout shop. A shopper scans a QR label on a trolley to
connect the trolley to a shopping session. Products scanned into the trolley land
in a cart. The shopper then pays with a UPI link, and the session ends.

The repository has three parts:

- **A React client** (`App/frontend/src`). It keeps its own cart and session
  record in `localStorage`. It also sends keep-alive heartbeats, reads trolley ids
  from QR codes and product codes from barcodes, and validates the checkout form.
- **Backend A** (`App/server/api`). This is a Django app whose views run in
  transactions. It has a user table, and a database constraint allows one active
  session per trolley.
- **Backend B** (`App/server/sessions`, `App/server/cart`, `App/server/payments`).
  This is the set of Django apps the server actually routes. Trolleys carry a
  lock flag, and a session expires 30 s after its last heartbeat. Each session has
  at most one payment.

The model has one Dafny module per source component. Every operation is a pure
function. It takes the state (the browser store, or the database tables), the
request's fields and the clock. It returns the new state and the result.

These conventions hold throughout:

- Money is integer cents. Times are integer milliseconds.
- Database ids are counters, so a larger id means a later `created_at`.
- Backend calls made by the client, and the camera decoder's results, are inputs.

The two backends disagree on almost every rule, so they are modelled separately:

- `ApiModels`, `ApiUtils`, `ApiViews` and `ApiProperties` model backend A.
- `ShopModels`, `ShopSessions`, `ShopCart`, `ShopPayments` and `ShopProperties`
  model backend B.
- They share only the cart-line table (`CartLines`) and the decimal text of money
  (`Money`).

Some source bugs affect backend A's behaviour. For those, `ApiUtils.Build` selects
one of two readings:

- `AsWritten` models the code as it is.
- `Corrected` models what the code evidently intends.

Every invariant lemma for backend A holds in the `Corrected` build. Where it also
holds in the `AsWritten` build, the lemma says so.

Three behaviours of the code are worth knowing:

- **QRScanner.** It extracts the id at the *leftmost* position where
  `/trolley_id=([A-Za-z0-9_]+)/i` matches. A `trolley_id=` with no word character
  after it is skipped, so the result is not necessarily the word after the first
  `trolley_id=`.
- **Cart page.** `fetchCart` displays the backend's reply as it is. It does
  not convert the reply's fields.
- **Backend B's start view.** It needs its tables to satisfy their foreign keys
  (`References`). The database guarantees this for every state the views can
  see.

## Model

| member | source | states |
|---|---|---|
| SessionStore.TotalFoldIsTotal | App/frontend/src/utils/sessionManager.js:115-121 | the `reduce` that recomputes a cart's total equals the sum over its lines of price × quantity, where a non-numeric price counts 0 and a missing, non-numeric or zero quantity counts 1 |
| SessionStore.RecalculateTotalIdempotent | App/frontend/src/utils/sessionManager.js:115-121 | recomputing a total that was just recomputed changes nothing |
| SessionStore.GetSessionId | App/frontend/src/utils/sessionManager.js:23-37 | an id is returned exactly when a record with a truthy id is stored and is at most 24 h old; an over-age record is cleared together with the cart; otherwise the store is untouched |
| SessionStore.SessionTimeoutBoundary | App/frontend/src/utils/sessionManager.js:23-37 | a record created exactly 24 h ago still yields its id, one millisecond later it does not |
| SessionStore.ValidSessionReads | App/frontend/src/utils/sessionManager.js:46-55 | for a record that is not over-age, `isValidSession()` holds exactly when `getSessionId()` answers and `getTrolleyId()` gives a truthy id |
| SessionStore.TrolleyIdIgnoresAge | App/frontend/src/utils/sessionManager.js:46-49 | for an over-age record the trolley id is still answered while the session id is not |
| SessionStore.UpdateLastActivity | App/frontend/src/utils/sessionManager.js:57-63 | only the record's `lastActivity` changes, the cart is untouched, and without a record nothing changes |
| SessionStore.UpdateLastActivityKeepsReads | App/frontend/src/utils/sessionManager.js:57-63 | touching `lastActivity` changes no answer of `getSessionId`, `getTrolleyId`, `isValidSession` or `getCart` |
| SessionStore.CartWritesReadBack | App/frontend/src/utils/sessionManager.js:66-69 | `getCart()` returns exactly the cart the last add, remove or update returned, and no cart write changes what the session readers answer |
| SessionStore.AddScannedProduct | App/frontend/src/utils/sessionManager.js:72-89 | a known id gets `quantity \|\| 1` added to its first line and no new line, with JavaScript's `+=` on a missing or `null` quantity; an unknown id is appended last with that quantity; the cart is stored with a total equal to the sum of its lines |
| SessionStore.RepeatedScanOfMissingQuantity | App/frontend/src/utils/sessionManager.js:77 | three scans into a line stored without a quantity leave it at twice the scanned amount: the first stores `null`, the second starts the count |
| SessionStore.AddKeepsIdsUnique | App/frontend/src/utils/sessionManager.js:72-89 | adding keeps at most one line per id, and the product's id is present afterwards |
| SessionStore.RemoveFromCart | App/frontend/src/utils/sessionManager.js:91-97 | the stored lines are exactly the input's lines without the id, in their original order (`WithoutKeeps` and `WithoutAppend` characterise the filter); a missing id leaves the lines as they were, and the total drops by exactly the removed lines' amount |
| SessionStore.TotalWithout | App/frontend/src/utils/sessionManager.js:91-97 | filtering an id out lowers the sum of line amounts by exactly the amount of that id's lines |
| SessionStore.WithoutKeeps | App/frontend/src/utils/sessionManager.js:91-97 | the filter keeps exactly the lines whose id differs, and leaves the lines as they were when no line has the id |
| SessionStore.UpdateCartItem | App/frontend/src/utils/sessionManager.js:99-113 | on a present id, q ≤ 0 is exactly `removeFromCart` and q > 0 changes only the quantity of that id's first line; an absent id leaves the lines alone; the stored total is always the sum of the lines |
| SessionStore.ClearCart | App/frontend/src/utils/sessionManager.js:123-125 | the session record is kept and the cart reads back as empty |
| SessionStore.ClearSessionReadBack | App/frontend/src/utils/sessionManager.js:128-131 | after `clearSession()` there is no session id and no trolley id, the session is invalid, the cart is empty and its count is 0 |
| SessionStore.ItemCountAtLeastLines | App/frontend/src/utils/sessionManager.js:133-136 | with positive quantities the item count is at least the number of lines |
| Heartbeat.Start | App/frontend/src/utils/heartbeatManager.js:17-39 | a no-op while running or without a session that has a truthy id and a trolley id other than 'unknown'; otherwise it runs, sends exactly one heartbeat at once and arms one interval |
| Heartbeat.Stop | App/frontend/src/utils/heartbeatManager.js:44-51 | the held interval is cleared, the manager is not running, and no request is sent |
| Heartbeat.StopIdempotent | App/frontend/src/utils/heartbeatManager.js:44-51 | stopping twice is stopping once |
| Heartbeat.Tick | App/frontend/src/utils/heartbeatManager.js:56-65 | an interval firing with no session or no id stops the manager; otherwise it sends one heartbeat |
| Heartbeat.Complete | App/frontend/src/utils/heartbeatManager.js:64-75 | a success touches `lastActivity`; a 404 or a message containing 'expired' stops the manager; other failures keep it running; no outcome clears the stored session or cart |
| Heartbeat.IsActiveMeansOneInterval | App/frontend/src/utils/heartbeatManager.js:81-83 | after any sequence of calls, `isActive()` holds exactly when a heartbeat interval is live |
| Heartbeat.IsActiveAfterCalls | App/frontend/src/utils/heartbeatManager.js:81-83 | `stop()` always deactivates, and `start()` leaves the manager active exactly when it already was or the stored session is startable |
| Heartbeat.RunKeepsOneInterval | App/frontend/src/utils/heartbeatManager.js:17-39 | under any sequence of start, stop, ticks and replies, the manager never has more than one interval alive, and it is running exactly when it holds one |
| Heartbeat.MissingEndpointKeepsRunning | App/frontend/src/utils/heartbeatManager.js:68-75 | the TypeError every call fails with, because `api.sessionHeartbeat` is not defined, neither stops the manager nor changes the store |
| QrCodec.GenerateQRCodeData | App/frontend/src/utils/qrCodeGenerator.js:4-25 | the payload is `baseUrl + "/connect?trolley_id=" + id` with `baseUrl` defaulting to `http://localhost:3000`; the alternative payload and content are the id verbatim and the instructions' content is the payload |
| QrCodec.GetQRCodeImageUrl | App/frontend/src/utils/qrCodeGenerator.js:37-42 | the fixed qr-server prefix followed by a query-safe text that URI-decodes back to the data |
| UriEncoding.DecodeEncode | App/frontend/src/utils/qrCodeGenerator.js:37-42 | `decodeURIComponent` inverts `encodeURIComponent` on every string of Unicode scalar values |
| UriEncoding.EncodeSafe | App/frontend/src/utils/qrCodeGenerator.js:37-42 | the encoding holds only unreserved characters and '%', so it stays one query-string value |
| UriEncoding.EncodeKeepsUnreserved | App/frontend/src/utils/qrCodeGenerator.js:37-42 | text made only of unreserved characters is left as it is |
| QrCodec.ParseTrolleyId | App/frontend/src/components/QRScanner.jsx:66-73 | text containing `trolley_id=` yields an id exactly when the case-insensitive pattern matches somewhere; other text yields itself upper-cased exactly when it is a non-empty word; every id is a non-empty upper-case word |
| QrCodec.ParseIdempotent | App/frontend/src/components/QRScanner.jsx:66-73 | parsing an extracted id again returns it unchanged |
| QrCodec.ScanOfUrl | App/frontend/src/components/QRScanner.jsx:66-73 | scanning `base + "/connect?trolley_id=" + id` gives back the id upper-cased, for a word id and a base without its own `trolley_id=` |
| QrCodec.ScanOfGeneratedLabel | App/frontend/src/utils/qrCodeGenerator.js:4-25 | scanning either payload of a generated label gives back the id upper-cased, for a word id and a base URL without its own `trolley_id=` |
| QrCodec.DefaultBaseUrlIsKeyFree | App/frontend/src/utils/qrCodeGenerator.js:4-25 | the default base URL meets the round trip's condition |
| QrCodec.NotFoundFramesAreDropped | App/frontend/src/components/QRScanner.jsx:104-107 | a message embedding `NotFoundException` is dropped whatever surrounds it; the test is case-sensitive, and an error that is not a string is always logged |
| ConnectPage.Normalise | App/frontend/src/pages/Connect.jsx:38 | the id sent is the trimmed input with each character upper-cased; it is empty exactly when the input is blank, and otherwise neither starts nor ends with white space |
| ConnectPage.HandleTrolleyConnect | App/frontend/src/pages/Connect.jsx:27-73 | a missing or blank id shows the invalid-id error with no call and no write; otherwise the normalised id is sent; a truthy `session_id` stores a fresh record; anything else shows "Failed to connect: …", stores nothing and does not navigate; the cart key is never touched |
| ConnectPage.ConnectedSessionIsUsable | App/frontend/src/pages/Connect.jsx:43-51 | after a successful connect the record is a valid session whose id reads back as the backend's id and whose trolley id is the normalised input |
| ConnectPage.MissingEndpointNeverConnects | App/frontend/src/pages/Connect.jsx:41-60 | with `api.startSession` undefined, every non-blank connect leaves the store as it was and shows the TypeError's message |
| ConnectPage.ManualFieldIsTransparent | App/frontend/src/pages/Connect.jsx:205 | submitting the upper-cased field does exactly what submitting the text as typed would: the same refusal, the same id sent and the same record stored |
| ConnectPage.HandleManualSubmit | App/frontend/src/pages/Connect.jsx:75-80 | a blank field makes no call and changes nothing; any other field connects with the raw field |
| ConnectPage.TypedIdIsNormalisedOnce | App/frontend/src/pages/Connect.jsx:75-80 | the field's upper-casing does not change the id that reaches the backend |
| CartPage.FetchCart | App/frontend/src/pages/Cart.jsx:25-42 | reading the session id may clear a stale session; a truthy reply is displayed and not written to the store; a falsy reply keeps the display; a failure displays the stored cart |
| CartPage.FallbackCountMatchesStore | App/frontend/src/pages/Cart.jsx:83 | after a fetch that fell back to the cache, the header's count equals the store's own item count |
| CartPage.CheckForNewProducts | App/frontend/src/pages/Cart.jsx:44-59 | a non-empty list of pending products is folded into the store in order and displayed; an empty or falsy list or a failure changes nothing beyond reading the session id |
| CartPage.AddAllAppend | App/frontend/src/pages/Cart.jsx:49-55 | folding a list in two parts is folding it in one |
| CartPage.AddAllKeepsIdsUnique | App/frontend/src/pages/Cart.jsx:49-55 | the fold keeps one line per product id, and every folded product is present afterwards |
| CartPage.HandleUpdateQuantity | App/frontend/src/pages/Cart.jsx:61-68 | q ≤ 0 goes to `removeFromCart`, anything else to `updateCartItem` |
| CartPage.RoutingAgreesWithStore | App/frontend/src/pages/Cart.jsx:61-73 | the page's routing gives the same store and cart as `updateCartItem` alone, even for an id not in the cart |
| CartPage.HandleRemoveFromCart | App/frontend/src/pages/Cart.jsx:70-73 | the display is the stored cart: the input's lines without the id, every other line kept in its order |
| CartPage.HandleClearCart | App/frontend/src/pages/Cart.jsx:75-80 | a confirmed clear empties the stored cart and shows `{items: [], total: 0}`, which is what the store now reads; a declined one changes nothing |
| CheckoutPage.PaddingIsIgnored | App/frontend/src/pages/Checkout.jsx:23-37 | white space typed around the fields never changes what the form reports |
| CheckoutPage.ValidateForm | App/frontend/src/pages/Checkout.jsx:23-37 | the form passes exactly when name and phone are non-blank and the email is non-blank and contains '@'; otherwise the first failing check's message is reported, in the order name, email, phone |
| CheckoutPage.HandleCheckout | App/frontend/src/pages/Checkout.jsx:39-64 | an invalid form shows its error, sends nothing and leaves the store alone; a valid one sends the order, clears the cart and navigates to `/done` |
| CheckoutPage.OrderReplyIgnored | App/frontend/src/pages/Checkout.jsx:47-58 | an accepted and a rejected order end in the same state |
| CheckoutPage.CheckoutKeepsFreshSession | App/frontend/src/pages/Checkout.jsx:39-64 | a submit keeps a session record that is not yet over-age |
| BarcodeScanner.OnDecodeResult | App/frontend/src/components/BarcodeScanner.jsx:72-81 | a code is passed on exactly when the decoded text is present, is not blank after trim, and comes at least 1500 ms after the last accepted scan; an accepted scan passes on the trimmed code once, records the time, pauses and schedules its release; a dropped one changes nothing |
| BarcodeScanner.ReleaseFires | App/frontend/src/components/BarcodeScanner.jsx:80 | the cooldown timer un-pauses the scanner and keeps the last scan time |
| BarcodeScanner.AcceptedScanPausesDecoder | App/frontend/src/components/BarcodeScanner.jsx:66-80 | after an accepted scan the decoder is paused and a release 1500 ms later is pending |
| BarcodeScanner.ScansAreSpaced | App/frontend/src/components/BarcodeScanner.jsx:72-81 | in any run of decodes and releases, consecutive accepted scans are at least 1500 ms apart |
| BarcodeScanner.ErrorsDoNotDisturbScans | App/frontend/src/components/BarcodeScanner.jsx:82-85 | decoder errors change neither the scanner's state nor the scans it accepts |
| BarcodeScanner.ForwardedErrors | App/frontend/src/components/BarcodeScanner.jsx:82-85 | `onError` never sees a `NotFoundException`, and every other decoder error reaches it |
| ProductImage.GetProductImage | App/frontend/src/utils/productImageMap.js:43-49 | no product gives the default picture; a known barcode wins over the category; otherwise a known category's picture; otherwise the default, so the result is always a picture |
| ProductImage.PlainLookup | App/frontend/src/utils/productImageMap.js:46-47 | an object-literal lookup finds the table's own keys and also every `Object.prototype` member name |
| ProductImage.GetProductImageAsWritten | App/frontend/src/utils/productImageMap.js:43-49 | the lookup as written returns an inherited member only for a barcode or category that names one |
| ProductImage.AsWrittenAgreesOffPrototype | App/frontend/src/utils/productImageMap.js:43-49 | away from inherited names, the written lookup is the own-key lookup |
| ProductImage.InheritedNameReturnsNonPicture | App/frontend/src/utils/productImageMap.js:46-47 | the category "constructor" makes the written lookup return `Object` rather than a picture; the corrected lookup gives the default |
| ApiModels.NewTrolley | App/server/api/views.py:45 | a trolley created on first start is unassigned, active and seen now |
| ApiUtils.ExpireSession | App/server/api/utils.py:10-20 | an inactive or unknown session changes nothing; an active one becomes inactive, its cart lines are deleted and its trolley is unassigned and seen now; nothing else changes |
| ApiUtils.ExpireIdempotent | App/server/api/utils.py:10-12 | expiring twice is expiring once |
| ApiUtils.ExpireKeepsConsistent | App/server/api/utils.py:10-20 | expiring keeps the schema's constraints, every active session's trolley assigned and every subtotal price × quantity |
| ApiUtils.EnforceSessionTimeout | App/server/api/utils.py:23-29 | an inactive session raises 'Session is inactive'; an active one idle for longer than the timeout is expired and raises 'Session expired'; any other session passes untouched |
| ApiUtils.TimeoutBoundary | App/server/api/utils.py:23-29 | idle for exactly the timeout passes, one millisecond more is 'Session expired' |
| ApiUtils.GetLockedSession | App/server/api/utils.py:32-43 | an unknown id is 404; otherwise the timeout check runs, and what it wrote before raising is rolled back as written and kept when corrected; a session passes exactly when it is active and not timed out, with the tables unchanged |
| ApiUtils.NewestActive | App/server/api/utils.py:53-58 | the newest active session of the trolley: active, on that trolley, with no later one |
| ApiUtils.ActiveSessionOf | App/server/api/utils.py:53-58 | the trolley's newest active session, or none exactly when the trolley has no active session |
| ApiUtils.GetLockedSessionByTrolley | App/server/api/utils.py:46-64 | no active session is 404 'No active session for this trolley'; otherwise the newest one goes through the same check as a lookup by id |
| ApiUtils.RefreshActivity | App/server/api/utils.py:74-79 | the session's `last_activity` and its trolley's `last_seen` become the same instant; nothing else changes |
| ApiProperties.RefreshKeepsConsistent | App/server/api/utils.py:74-79 | refreshing activity keeps the tables consistent |
| ApiProperties.LockedKeepsConsistent | App/server/api/utils.py:32-43 | the session lookup keeps the tables consistent in both builds |
| ApiViews.SessionStart | App/server/api/views.py:34-76 | 201 exactly when the user is known, the trolley is new or active and unassigned, and its newest active session, if any, is timed out; then a new active session is created with the trolley assigned; every refusal is 400 and writes no session or line |
| ApiProperties.StartStep | App/server/api/views.py:65-76 | a new active session on a trolley that no active session holds, with the trolley assigned, keeps the tables consistent |
| ApiProperties.StartKeepsConsistent | App/server/api/views.py:42-76 | a start keeps one active session per trolley and every other invariant |
| ApiViews.SessionHeartbeat | App/server/api/views.py:79-88 | 200 exactly when the session is active and not timed out, with its activity refreshed; otherwise the lookup's error |
| ApiProperties.HeartbeatKeepsConsistent | App/server/api/views.py:79-88 | a heartbeat keeps the tables consistent |
| ApiViews.SessionEnd | App/server/api/views.py:91-117 | 'ended' exactly when the session exists and is inactive or not timed out; a usable session is expired; an inactive one frees its assigned trolley (as written always, corrected only when no active session holds it) |
| ApiProperties.EndKeepsConsistent | App/server/api/views.py:97-117 | in the corrected build a session end keeps every active session's trolley assigned |
| ApiProperties.StartThenEndFreesTrolley | App/server/api/views.py:91-117 | a session ended right after it started leaves its trolley unassigned |
| ApiViews.Locate | App/server/api/views.py:139-145 | a scan by session id goes through the id lookup; one by trolley id through the trolley lookup; a found session is active and not timed out |
| ApiProperties.LocateKeepsConsistent | App/server/api/views.py:139-145 | locating a scan's session keeps the tables consistent |
| ApiViews.CartResponse | App/server/api/views.py:169-172 | the cart body holds exactly the session's lines (in table order, see Left out), and its total reads back as their subtotal sum |
| ApiViews.CartScan | App/server/api/views.py:120-172 | neither id is 400; a lookup error is returned as raised; an unknown or inactive product is 404; otherwise one unit is added at the product's price, activity is refreshed and the cart is returned |
| ApiProperties.AddUnitKeepsConsistent | App/server/api/views.py:151-166 | one more unit keeps one line per product and every subtotal price × quantity |
| ApiProperties.ScanKeepsConsistent | App/server/api/views.py:120-172 | a scan keeps the tables consistent |
| ApiProperties.ScanAddsPrice | App/server/api/views.py:151-169 | a successful scan raises the session's total by exactly the product's price |
| ApiViews.CartRemove | App/server/api/views.py:175-209 | a lookup error is returned as raised; an unknown product is 404 'Product not found'; a product not in the cart is 404 'Item not in cart'; otherwise one unit is taken back (the line deleted with its last), activity is refreshed and the cart is returned |
| ApiProperties.RemoveUnitKeepsConsistent | App/server/api/views.py:197-203 | one unit fewer keeps one line per product and every subtotal price × quantity |
| ApiProperties.RemoveKeepsConsistent | App/server/api/views.py:175-209 | a remove keeps the tables consistent |
| ApiProperties.RemoveTakesPrice | App/server/api/views.py:197-206 | a successful remove lowers the session's total by exactly the product's price |
| ApiProperties.ScanThenRemoveRestoresCart | App/server/api/views.py:120-209 | scanning a product and then removing it restores the line table exactly |
| ApiViews.CartView | App/server/api/views.py:212-221 | an unknown id is refused by the serializer; 200 exactly when the session is active and not timed out, with the cart and no write |
| ApiProperties.ViewKeepsConsistent | App/server/api/views.py:212-221 | reading a cart keeps the tables consistent |
| ApiProperties.ReportedTotalIsPriceTimesQuantity | App/server/api/utils.py:67-71 | the total the cart endpoints report is the sum of catalogue price × quantity over the session's lines |
| ApiViews.Payer | App/server/api/views.py:233-240 | a session's own user pays; without one, a guest is inserted when none exists; a second guest fails on the unique phone as written, and the existing guest is reused when corrected |
| ApiProperties.AddGuestKeepsPhonesUnique | App/server/api/models.py:10 | adding a guest whose phone is not taken keeps phone numbers unique |
| ApiViews.PaymentCreate | App/server/api/views.py:224-259 | a lookup error is returned as raised; a failed guest insert is a 500; a usable session whose payer resolves always gets 201, and a 201 appends a pending payment for the cart total by the session's user, numbered in creation order, with the matching UPI link, and touches no other table |
| ApiProperties.PaymentCreateKeepsConsistent | App/server/api/views.py:230-247 | creating a payment keeps the tables consistent in both builds |
| ApiViews.LatestPayment | App/server/api/views.py:270 | the newest payment of the session, or none exactly when it has none |
| ApiViews.PaymentConfirm | App/server/api/views.py:262-278 | a lookup error is returned as raised; no payment is 404; a usable session with a payment always gets 200, and a 200 means the newest payment became SUCCESS and the session was expired |
| ApiProperties.PaymentConfirmKeepsConsistent | App/server/api/views.py:268-276 | confirming keeps the tables consistent |
| ApiProperties.ConfirmSettlesNewestPayment | App/server/api/views.py:269-276 | after a confirmation the session's newest payment is SUCCESS, the session is inactive and its cart is empty |
| ApiProperties.ExpiredSessionIsStuck | App/server/api/utils.py:32-43 | as written, every heartbeat and end of a timed-out session is refused and leaves the tables unchanged, so the session stays active for ever |
| ApiProperties.StuckTrolleyExample | App/server/api/views.py:49-50 | as written, a timed-out session's trolley stays assigned, and a new start on it is refused |
| ApiProperties.ExpiredSessionReleased | App/server/api/utils.py:32-43 | corrected, the refused call keeps the expiry, and the trolley can be started again |
| ApiProperties.SecondGuestPaymentFails | App/server/api/views.py:233-240 | as written, a usable session without a user cannot pay once a guest exists |
| ApiProperties.GuestPaymentSucceeds | App/server/api/views.py:233-240 | corrected, every usable session can pay, and phone numbers stay unique |
| ApiProperties.EndingOldSessionFreesBusyTrolley | App/server/api/views.py:102-112 | as written, ending an old session unassigns a trolley that a later active session holds |
| ApiProperties.EndingOldSessionKeepsBusyTrolley | App/server/api/views.py:102-112 | corrected, the same request answers 'ended' and leaves the trolley assigned |
| ShopModels.NewSession | App/server/sessions/models.py:21-24 | a new session is active with no end time, and it is not expired until the 30 s timeout has passed |
| ShopModels.UpdateHeartbeat | App/server/sessions/models.py:41-44 | only the heartbeat time changes, and the session is not expired at that instant |
| ShopModels.EndSession | App/server/sessions/models.py:46-50 | the session is inactive with the end time recorded, other fields unchanged |
| ShopModels.Retire | App/server/sessions/views.py:40-45 | ending a session and deleting its lines touches no other session's lines and no other table |
| ShopModels.RetireKeepsConsistent | App/server/sessions/views.py:40-45 | ending an active session and deleting its lines keeps the tables consistent |
| ShopModels.SaveLine | App/server/cart/models.py:34-37 | a saved line's subtotal is price × quantity, with its identity and quantity kept |
| ShopModels.UpdateQuantity | App/server/cart/models.py:39-46 | the line is deleted exactly when the new quantity is not positive; otherwise it is saved with the new quantity and subtotal |
| ShopModels.UnitStepsAreQuantityUpdates | App/server/cart/models.py:39-46 | the views' one-unit steps agree with `update_quantity(±1)`, deleting the line exactly when its last unit goes |
| ShopModels.UpiAmountRoundTrip | App/server/payments/models.py:39-49 | the amount field of a generated UPI link reads back as the payment total |
| ShopModels.MarkSuccess | App/server/payments/models.py:51-54 | only the status changes, to SUCCESS |
| ShopModels.MarkFailed | App/server/payments/models.py:56-59 | only the status changes, to FAILED |
| CartLines.AddUnit | App/server/cart/views.py:47-70 | a scan raises the quantity of the existing line by one with the subtotal recomputed, or appends a line of one at the price; no other line changes |
| CartLines.RemoveUnit | App/server/cart/views.py:112-139 | a remove lowers a quantity above one with the subtotal recomputed, or deletes the line; no other line changes |
| CartLines.AddUnitKeepsLines | App/server/cart/models.py:29-37 | one more unit keeps one line per (session, product) and every subtotal price × quantity |
| CartLines.RemoveUnitKeepsLines | App/server/cart/models.py:29-46 | one unit fewer keeps one line per (session, product) and every subtotal price × quantity |
| CartLines.AddThenRemoveUnit | App/server/cart/views.py:47-139 | taking back the unit just added restores the line table |
| CartLines.TotalIsPriceTimesQuantity | App/server/cart/models.py:34-37 | with priced lines, the sum of stored subtotals is the sum of price × quantity |
| CartLines.QuantitiesCoverLines | App/server/cart/views.py:158-164 | with positive quantities, a cart's units are at least its lines, and there are none exactly when it has no lines |
| CartLines.DropRemovesCount | App/server/sessions/views.py:170-172 | deleting a session's lines removes exactly its line count |
| Money.FormatCentsRoundTrip | App/server/cart/views.py:45-70 | every two-place decimal amount printed reads back to the same number of cents |
| ShopSessions.ValidateSession | App/server/sessions/views.py:16-47 | an unknown id is 404; an inactive session is 400; an expired active one is ended, its lines deleted, and 400; the session is usable exactly when it is active and not expired, and then nothing changes |
| ShopProperties.ValidateKeepsConsistent | App/server/sessions/views.py:16-47 | the session check keeps the tables consistent, expiring or not |
| ShopSessions.Sweep | App/server/sessions/views.py:80-93 | the sweep touches only sessions and cart lines: trolleys, products, payments, the id counter and the set of session ids stay as they were, no cart line is added, and every reference still resolves |
| ShopSessions.SweepOutcome | App/server/sessions/views.py:80-93 | a session the sweep returns is a live active session of the trolley, left as it was; when it returns none, the trolley has no active session left |
| ShopSessions.SweepChanges | App/server/sessions/views.py:80-93 | every session the sweep changes was an expired active session of the trolley, and it is now ended at the request time |
| ShopProperties.SweepKeepsConsistent | App/server/sessions/views.py:80-93 | the sweep keeps the tables consistent |
| ShopProperties.SweepFindsNothing | App/server/sessions/views.py:80-93 | with no active session on the trolley, the sweep changes nothing and finds nothing |
| ShopSessions.SessionStart | App/server/sessions/views.py:57-108 | an unknown trolley is 404 and an inactive one 400; an active trolley with a live session is always 409, an active trolley whose active sessions are all expired always gets 201, and a 409 names a live session of the trolley; the only sessions changed are expired active sessions of the trolley, each ended; on 201 a new session is created, the trolley is unlocked and seen now, and it is then the trolley's only active session |
| ShopProperties.StartStep | App/server/sessions/views.py:96-108 | a new session on a trolley that no active session holds keeps the tables consistent |
| ShopProperties.StartKeepsConsistent | App/server/sessions/views.py:57-108 | a start keeps one active session per trolley and every other invariant |
| ShopProperties.StartTwiceConflicts | App/server/sessions/views.py:80-93 | a second start within the timeout of the first is 409 naming the first session |
| ShopSessions.SessionHeartbeat | App/server/sessions/views.py:117-139 | 200 exactly when the session is usable; then its heartbeat and its trolley's `last_seen` become now, and no line or payment changes |
| ShopProperties.HeartbeatKeepsConsistent | App/server/sessions/views.py:117-139 | a heartbeat keeps the tables consistent |
| ShopProperties.HeartbeatKeepsAlive | App/server/sessions/views.py:117-139 | after a heartbeat the session is usable for the next 30 s and expired one millisecond later |
| ShopSessions.SessionEnd | App/server/sessions/views.py:148-186 | an unknown id is 404; an ended session is 400; otherwise, expired or not, the session is ended, its lines are deleted and counted, and its trolley is locked |
| ShopProperties.EndKeepsConsistent | App/server/sessions/views.py:148-186 | a session end keeps the tables consistent |
| ShopProperties.EndReportsClearedLines | App/server/sessions/views.py:166-186 | the count an end reports is the number of lines it deletes, and none of the session's lines is left |
| ShopProperties.StartThenEndClearsNothing | App/server/sessions/views.py:148-186 | a session ended right after it started reports no lines and locks its trolley |
| ShopCart.CartScan | App/server/cart/views.py:24-70 | a refused session check is returned unchanged; an unknown or inactive product is 404; otherwise one unit is added, 201 'added' for a new line of one, 200 'quantity_updated' for a longer line, with the subtotal reading back as price × quantity |
| ShopProperties.ScanKeepsConsistent | App/server/cart/views.py:24-70 | a scan keeps the tables consistent |
| ShopProperties.ScanAddsPrice | App/server/cart/views.py:47-70 | a successful scan raises the session's total by exactly the product's price |
| ShopCart.CartRemove | App/server/cart/views.py:79-139 | a refused session check is returned unchanged; a usable session goes on to take one unit back |
| ShopCart.TakeUnit | App/server/cart/views.py:93-139 | an unknown product is 404; a product not in the cart is 404 naming the product; otherwise a line above one unit is shortened ('quantity_decremented', subtotal price × quantity) and a line of one is deleted |
| ShopProperties.RemoveKeepsConsistent | App/server/cart/views.py:79-139 | a remove keeps the tables consistent |
| ShopProperties.RemoveTakesPrice | App/server/cart/views.py:112-139 | a successful remove lowers the session's total by exactly the product's price |
| ShopProperties.ScanThenRemoveRestores | App/server/cart/views.py:24-139 | a scan followed by a remove of the same product while the session is fresh restores every table exactly; the scan does not renew the session |
| ShopCart.CartView | App/server/cart/views.py:148-178 | a missing id is 400; an id that is not a UUID is a 500; a refused session check is returned; otherwise exactly the session's lines, newest first (the reverse of creation order), the sum of their quantities and a total that reads back as the sum of their subtotals, with no write |
| ShopProperties.NewScanListedFirst | App/server/cart/models.py:26 | a product scanned into the cart for the first time heads the next cart view |
| ShopProperties.ViewKeepsConsistent | App/server/cart/views.py:148-178 | reading a cart keeps the tables consistent |
| ShopProperties.ReportedTotalIsPriceTimesQuantity | App/server/cart/views.py:158-167 | the cart's reported total is the sum of catalogue price × quantity |
| ShopPayments.Issued | App/server/payments/views.py:47-64 | the payment a create leaves is pending, for the given total, with the UPI link for that total |
| ShopPayments.PaymentCreate | App/server/payments/views.py:23-72 | a refused session check is returned; an empty cart is 400; a paid payment is 400; otherwise a pending payment for the cart's current total is stored, 201 when it is new and 200 when an unpaid one is refreshed |
| ShopProperties.PaymentCreateKeepsConsistent | App/server/payments/views.py:23-72 | creating a payment keeps the tables consistent |
| ShopProperties.AlreadyCompletedUnreachable | App/server/payments/views.py:58-63 | a create never answers 'already completed': a paid session is over, so the session check refuses first |
| ShopProperties.FailedPaymentIsReissued | App/server/payments/models.py:56-59 | after a payment is marked failed, a create issues a fresh pending payment for the current cart total, and its link carries that total |
| ShopPayments.PaymentConfirm | App/server/payments/views.py:82-135 | a refused session check is returned; no payment is 404; a paid one is 400; otherwise it becomes SUCCESS, the bill is the total recorded at create, the session is ended, its lines are deleted and the trolley is locked |
| ShopProperties.PaymentConfirmKeepsConsistent | App/server/payments/views.py:82-135 | confirming keeps the tables consistent |
| ShopProperties.AlreadyConfirmedUnreachable | App/server/payments/views.py:101-108 | a confirm never answers 'already confirmed', and it succeeds exactly when the session is usable and has a payment |
| ShopProperties.ConfirmChargesCreatedTotal | App/server/payments/views.py:111-126 | a product scanned between create and confirm lengthens the cart but not the bill, and its line is deleted with the rest |
| ShopProperties.ConfirmReadiesTrolley | App/server/payments/views.py:111-126 | after a confirm the payment is SUCCESS and the session is over; it refuses further use; the trolley is locked, and a new start on an active trolley succeeds |
| ShopPayments.PaymentStatusOf | App/server/payments/views.py:144-179 | a missing id is 400; a non-UUID is 500; an unknown session is 404; otherwise 200 with the session's active flag and, exactly when a payment exists, its status and a total that reads back as the payment's |

## Left out

- `createSession` (App/frontend/src/utils/sessionManager.js:11-20): no modelled page calls it, and it needs a random id and a clock. `Connect.jsx` writes its own record, and that write is modelled.
- `isStorageAvailable` (App/frontend/src/utils/sessionManager.js:139-148): a probe of the browser's storage. Storage is modelled as always available.
- Lone surrogates: `encodeURIComponent` throws a URIError on a string holding an unpaired UTF-16 surrogate (App/frontend/src/utils/qrCodeGenerator.js:40). Dafny strings hold Unicode scalar values, so such a payload cannot be written and this error path is not represented.
- Unparsable storage: the model's storage only ever holds parsable JSON records. With text that is not valid JSON under either key, `JSON.parse` throws a SyntaxError out of `getSessionId`, `getSession`, `updateLastActivity` and `getCart` (App/frontend/src/utils/sessionManager.js:26, 42, 58, 68), and nothing catches it.
- App/frontend/src/utils/api.js is not part of this model. Every backend call is an input. It defines no `startSession` and no `sessionHeartbeat`. The errors those calls end with are named constants.
- Rendering, routing, styling and animation of the pages and components are left out. The same goes for the 1500 ms navigation delay after a connect and the polling intervals of the cart page.
- Timers and asynchrony are explicit events in a chosen order. These are the heartbeat interval, the scanner's cooldown and the moment a backend call settles. Real interleavings of in-flight requests are not modelled.
- The camera is not modelled. This covers device enumeration (App/frontend/src/components/BarcodeScanner.jsx:34-63), the decoding libraries and everything in QRScanner.jsx outside `handleScan` and `handleError`. `hasCamera` is part of the scanner state but no event changes it.
- Checkout's 8% tax and its floating-point display (App/frontend/src/pages/Checkout.jsx:66-69) are not modelled.
- Serializer checks that reject malformed fields are not modelled. These include UUID syntax in request bodies, field lengths and missing fields. The table-dependent checks are modelled. Backend A's cart view refuses an unknown session id; backend B's GET views fail on an id that is not a UUID.
- Transactions and `select_for_update` locks are not modelled as concurrency. Backend A's rollback on an exception is modelled.
- `UserSignupView` (App/server/api/views.py:26-31) is not modelled: users enter the model only through the guest path of payment creation.
- `SESSION_TIMEOUT_SECONDS` lives in the settings module, which is not part of this model. Backend A's timeout is therefore a parameter (`ApiUtils.Config.timeoutMs`). Backend B uses the 30 s default of `SESSION_HEARTBEAT_TIMEOUT`.
- Ids are modelled as counters, so a larger id is a later creation time. Backend A's payment ids are positions in creation order.
- ShopModels.IdText: a session id's text is the decimal digits of its counter, not a 36-character UUID. Only the amount field of the UPI link is read back.
- ConnectPage.ManualInputChange: the field is upper-cased character by character, so it keeps its length. JavaScript's `toUpperCase` lengthens some non-ASCII letters (ß becomes SS); ids with such letters are outside the model.
- ConnectPage.Normalise: `toUpperCase` is modelled on ASCII letters only. JavaScript also upper-cases other letters, and some of those change length (ß becomes SS). Ids with non-ASCII letters are outside the model.
- SessionStore.AddScannedProduct: the cart it returns is the stored one, as JSON reads it back. In the returned object itself a quantity of `undefined + n` is NaN, which the store holds as `null`; both count as one unit. A quantity held as a string is outside the model: `+=` would concatenate it.
- SessionStore.PriceOf: a price is modelled as integer cents. `parseFloat` of a fractional or non-cent price, and floating-point sums, are outside the model.
- ApiUtils.CalculateCartTotal: its contract states only that an empty cart totals zero. That the total is price × quantity is stated by ApiProperties.ReportedTotalIsPriceTimesQuantity.
- ApiViews.CartResponse: the lines are listed in table order (creation order). The model `CartItem` orders them by product name (App/server/api/models.py:78), with ties in whatever order the database returns; that ordering is not modelled. The same holds for `ApiViews.CartView`, `ApiViews.CartScan` and `ApiViews.CartRemove`, which answer with this body.
- ShopCart.CartView: newest first is modelled as the reverse of table order. Two lines created at the same instant are listed later row first; the database leaves the order of such ties unspecified.
- Numeric widths: amounts and quantities are unbounded integers in the model. The source's columns are bounded: `DecimalField(max_digits=10 or 12, decimal_places=2)` for prices, subtotals and totals, and `PositiveIntegerField` for quantities. What the database does when repeated scans push a value past its column is out of scope.
- Response bodies keep only the fields the model reasons about. Timestamps, product names and serializer output for each line are not kept. Backend B's 'NOT_CREATED' payment status is an absent status.
- Trolley and product records have no behaviour of their own. Their fields are folded into the table datatypes.

## Findings

| source | as written | input that shows it | evidently intended | confidence | as-written member | corrected member |
|---|---|---|---|---|---|---|
| App/server/api/utils.py:32-43 | `enforce_session_timeout` expires a timed-out session and then raises inside `get_locked_session`'s atomic block, so the expiry is rolled back | an active session idle for longer than the timeout receives a heartbeat or an end request | the timed-out session ends and its trolley is freed | not executed; high | ApiProperties.ExpiredSessionIsStuck | ApiProperties.ExpiredSessionReleased |
| App/server/api/views.py:233-240 | every payment for a session without a user inserts a guest with phone '0000000000', and `phone_number` is unique | two sessions without a user each create a payment; the second insert fails | one guest user shared by all such sessions | not executed; high | ApiProperties.SecondGuestPaymentFails | ApiProperties.GuestPaymentSucceeds |
| App/frontend/src/utils/productImageMap.js:46-47 | `MAP[key]` on an object literal also finds `Object.prototype` members | a product with category "constructor" and no known barcode gets the `Object` function as its picture | only the table's own keys are looked up | not executed; high | ProductImage.InheritedNameReturnsNonPicture | ProductImage.GetProductImage |
| App/server/api/views.py:102-112 | ending an already-inactive session unassigns its trolley whenever the trolley is marked assigned | session 0 (inactive) and session 1 (active) on trolley T1; end session 0 | the trolley is freed only when no active session holds it | not executed; medium | ApiProperties.EndingOldSessionFreesBusyTrolley | ApiProperties.EndingOldSessionKeepsBusyTrolley |
