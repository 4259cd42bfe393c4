# Ashinity real-estate backend: a Dafny model of its core

This project models the service logic of the Ashinity real-estate backend, an Express and Prisma server, as pure Dafny functions over immutable tables. Its five parts are:

- **Wallet ledger and Paystack webhook.**
  - Modules: `Ledger`, `WalletService`, `WalletController`, `PaystackService`, `Webhook`.
  - Wallet funding, withdrawal and wallet creation.
  - The recipient-code cache.
  - The controllers' mapping of errors to replies.
  - The signed webhook that settles transactions. Each guarded atomic block is one transition `(store, event) -> (status, store')`.
  - `Settlement` holds the repaired ledger described under Findings. Its invariant: every balance equals what its settled transactions add up to.
- **Property relations and listing.**
  - Modules: `Catalog`, `PropertyService`, `PropertyListing`, `PropertyCreation`, `PublicId`.
  - Toggling a user's bought, wishlist, invested or rented relation with a property, including the sale-status side effect of "bought".
  - The per-user status flags and the search and price filter.
  - The four activity tabs and their merge, newest first.
  - Property creation: the image guard, the uploads and the defaults.
  - The Cloudinary public-id extraction, modelled as the regular expression it is.
- **OTP and account state.**
  - Modules: `Otp`, `Accounts`, `AuthService`.
  - Registration, login, email verification, forgot and reset password, Google sign-in, and the phone code.
  - Codes are zero-padded decimal strings. One expiry instant is shared by the email and phone codes.
- **Authorization and role administration.**
  - Modules: `AuthMiddleware`, `RoleGuard`, `AdminService`, `AdminController`.
  - Bearer-header parsing and token verification.
  - The three role guards.
  - Role change, suspension and deletion of users.
- **Prisma error classifier** (module `ErrorHandler`): a total map from an error value to the message a client sees.

`Common`, `Tables`, `Text` and `Sorting` hold shared vocabulary:

- `Option`/`Result`;
- first-match lookup over a table;
- JavaScript string operations (`split`, `padStart`, `toLowerCase`, `replace(/[^0-9]/g, "")`, `parseInt`, `Number`);
- the descending sort the ORM's `orderBy: desc` performs.

Everything outside the process becomes an input. This covers:

- gateway, uploader, mailer and SMS replies;
- the HMAC signature verdict;
- `jwt.sign` and `jwt.verify`, and bcrypt's comparison;
- `Date.now()`, `Math.random()` and the generated uuid.

A database write that can fail takes a flag or an error value saying whether it did.

## Model

| member | source | states |
|---|---|---|
| Webhook.HandleWebhook | src/controllers/paystack.webhook.ts:16-93 | Every delivery answers 200, 401 or 500. It answers 401 exactly when the signature is bad. Any answer other than 200 leaves the store as it was. No delivery adds or drops a transaction, changes a reference or a type, or alters a row that is already SUCCESS. |
| Webhook.ApplyAtomically | src/controllers/paystack.webhook.ts:33-48 | The `$transaction` block is all or nothing. A storage failure gives 500 and the unchanged store. On success only row `i` and at most one wallet change. |
| Webhook.Credit | src/controllers/paystack.webhook.ts:34-37 | `increment` raises exactly the owner's balance by the amount. Every other wallet stays as it was. |
| Webhook.Settle | src/controllers/paystack.webhook.ts:39-46 | The update writes the status, the event id as a decimal string, the channel and the event data. Wallet, type, amount, reference and creation time are kept. |
| Webhook.WebhookKeepsValid | src/controllers/paystack.webhook.ts:20-89 | Every delivery keeps references unique and every transaction pointing at an existing wallet. |
| Webhook.BadSignatureRejected | src/controllers/paystack.webhook.ts:16-18 | A bad signature gives 401 and changes nothing. |
| Webhook.ChargeIgnoredWhenUnknownOrSettled | src/controllers/paystack.webhook.ts:27-31 | `charge.success` for an unknown reference, or for a SUCCESS row, gives 200 and changes nothing. |
| Webhook.ChargeCreditsOnce | src/controllers/paystack.webhook.ts:23-50 | On a row that is not SUCCESS, `charge.success` credits the event's amount in naira to exactly that row's wallet. It settles the row as SUCCESS. Every other wallet and row stays as it was. |
| Webhook.ChargeReplayIsNoOp | src/controllers/paystack.webhook.ts:29-31 | A second identical `charge.success` hits the SUCCESS guard: 200, no change. |
| Webhook.ChargeRedeliveryCreditsOnce | src/controllers/paystack.webhook.ts:29-48 | Any number of deliveries of one `charge.success` leave the store exactly as the first left it. |
| Webhook.TransferSuccessSettles | src/controllers/paystack.webhook.ts:54-85 | `transfer.success` never changes a balance. On a known row that is not yet SUCCESS it sets that row to SUCCESS. |
| Webhook.TransferFailedRefunds | src/controllers/paystack.webhook.ts:63-83 | `transfer.failed` on a known row that is not SUCCESS credits the event amount to its wallet and marks the row FAILED. |
| Webhook.TransferFailedReplayRefundsAgain | src/controllers/paystack.webhook.ts:61-72 | The guard excludes only SUCCESS, so replaying `transfer.failed` refunds a second time. |
| Webhook.OtherEventsIgnored | src/controllers/paystack.webhook.ts:88-89 | Any other event type gives 200 and changes nothing. |
| Webhook.StorageFailureIsAllOrNothing | src/controllers/paystack.webhook.ts:65-93 | A failure inside the atomic block gives 500. Neither the balance nor the status is written. |
| Ledger.FindTx | src/controllers/paystack.webhook.ts:27 | The lookup by reference returns the first row carrying the reference. It returns nothing exactly when no row carries it. |
| Ledger.FindTxUnique | src/controllers/paystack.webhook.ts:58 | While references are unique, any row carrying a reference is the one the lookup returns. |
| Ledger.AppendKeepsUnique | src/services/wallet.service.ts:26-34 | Appending a row with a new reference keeps references unique. |
| WalletService.InitializeWalletFunding | src/services/wallet.service.ts:13-53 | The minimum is checked before any lookup, then the wallet must exist. Only then is one PENDING FUND row `FUND_<now>_<userId>` recorded. The gateway is then sent the amount in kobo. Its answer is the result. A refusal by the minimum, wallet or reference check leaves the store as it was and contacts no gateway. A gateway error is returned, and the PENDING row stays. |
| WalletService.FundingRecordsBeforeGateway | src/services/wallet.service.ts:23-36 | A funding records exactly one new PENDING FUND row with the amount, whatever the gateway answers. The row is found by its reference. Balances are unchanged and the store stays valid. |
| WalletService.MinimumIsInclusive | src/services/wallet.service.ts:18 | 500 naira is accepted and 499.99 is refused with the minimum message. |
| WalletService.WithdrawFromWallet | src/services/wallet.service.ts:58-97 | The checks run in this order: missing wallet, `balance < amount`, no recipient code (absent or empty). Each refuses with its message and no change. A success records one PENDING WITHDRAW row and sends the amount in kobo to the recipient. No balance ever changes. |
| WalletService.WithdrawWholeBalance | src/services/wallet.service.ts:61 | Withdrawing exactly the balance passes the check. One kobo more is refused. |
| WalletService.WithdrawKeepsValid | src/services/wallet.service.ts:68-77 | A withdrawal keeps the store's unique references and wallet links. |
| WalletService.CreateWalletForUser | src/services/wallet.service.ts:103-107 | A second wallet for the same user is refused with P2002. A user id that names no user is refused with P2003. Otherwise the new wallet holds 0 NGN and nothing else changes. |
| WalletService.CreateWalletKeepsValid | src/services/wallet.service.ts:103-107 | Creating a wallet keeps the store valid. |
| WalletService.GetUserWalletWithTransactions | src/services/wallet.service.ts:116-128 | A missing wallet is refused. Otherwise the result is the wallet with a newest-first permutation of its own transactions. |
| WalletService.WalletViewIsExactlyOwnTransactions | src/services/wallet.service.ts:118-124 | The view lists every transaction of the wallet and none of another wallet. |
| WalletController.ToReply | src/controllers/wallet.controller.ts:18-21 | A service error becomes 400 with its message. A result is answered as is. |
| WalletController.FundWallet | src/controllers/wallet.controller.ts:4-22 | A falsy email gives 400 "Email is required" without calling the service. Otherwise the service runs on the body's amount, which may be absent. Its URL and reference are copied into the reply, and its errors become 400. An absent amount gives 400 with nothing written and no gateway call: "Wallet not found" without a wallet, otherwise the ORM's missing-argument message. |
| WalletService.InitializeFromBody | src/services/wallet.service.ts:13-34 | A present amount runs the service as modelled. An absent amount passes the minimum check, then fails the wallet lookup or the row's required `amount`, before any write or gateway call. |
| WalletController.SmallFundingRefusedByService | src/controllers/wallet.controller.ts:7-11 | The controller does not check the amount. A small funding is refused by the service's minimum. |
| WalletController.FundingReplyCopiesGateway | src/controllers/wallet.controller.ts:13-17 | The reply's `authorizationUrl` and `reference` are the gateway's. |
| WalletController.WithdrawWallet | src/controllers/wallet.controller.ts:24-44 | A missing or non-positive amount gives 400 "Invalid amount" and no service call. Otherwise the service's outcome is answered, with errors as 400. |
| WalletController.GetWallet | src/controllers/wallet.controller.ts:46-58 | The wallet is answered exactly when it exists, with exactly the wallet's own transactions, newest first. Otherwise the reply is 400 with the service's message. |
| WalletController.WalletFailuresAre400 | src/controllers/wallet.controller.ts:40-43 | Every failed withdrawal or wallet read is answered with 400. |
| PaystackService.CreatePaystackRecipient | src/services/paystack.service.ts:7-40 | With no bank account the call fails with "Bank account not linked". A truthy stored code is returned with no gateway call. Otherwise the gateway is called and its code is stored on that bank account and returned. |
| PaystackService.RecipientFrame | src/services/paystack.service.ts:34-37 | Only the recipient code of the caller's bank account can change. Wallets, transactions and every other bank account stay as they were. |
| PaystackService.RecipientIdempotent | src/services/paystack.service.ts:11 | After a non-empty code is obtained, the next call returns it without contacting the gateway. |
| PaystackService.EmptyCodeNotRemembered | src/services/paystack.service.ts:11 | An empty code is stored but is falsy, so the next call contacts the gateway again. |
| PaystackService.RecipientEnablesWithdrawal | src/services/wallet.service.ts:63-66 | Once a non-empty code is stored, a withdrawal no longer fails for want of one. |
| Settlement.WithdrawHeld | src/services/wallet.service.ts:68-77 | The repaired withdrawal makes the same checks and records the same row. It also takes the amount from the balance when the row is recorded. |
| Settlement.HandleWebhookSettled | src/controllers/paystack.webhook.ts:54-86 | The repaired webhook answers 401 exactly when the signature is invalid. A signed event that does not name a PENDING row of its own type gets 200 with nothing changed, even when storage would fail. On a row it processes, a storage failure gives 500 with nothing changed. Rows that are not PENDING are never touched. |
| Settlement.SettledAgreesWithOriginal | src/controllers/paystack.webhook.ts:24-86 | On a PENDING row of the event's own type whose stored amount equals the event's amount, the repaired webhook gives the same answer and the same store as the original. |
| Settlement.SettledSkipsWhereOriginalFails | src/controllers/paystack.webhook.ts:54-86 | Where the two differ: a `transfer.failed` replayed on a FAILED row with storage down gets 500 from the original but 200 with nothing changed from the repaired webhook. |
| Settlement.SettledKeepsConserved | src/controllers/paystack.webhook.ts:20-89 | Every delivery to the repaired webhook keeps each balance equal to the sum its settled transactions contribute. |
| Settlement.FundingKeepsConserved | src/services/wallet.service.ts:26-34 | Recording a PENDING funding keeps the ledger conserved. |
| Settlement.WithdrawHeldKeepsConserved | src/services/wallet.service.ts:68-77 | The repaired withdrawal keeps the ledger conserved: the row and the hold appear together. |
| Settlement.CreateWalletKeepsConserved | src/services/wallet.service.ts:103-107 | Creating a wallet in a conserved ledger keeps it conserved. |
| Settlement.SettledReplayIsNoOp | src/controllers/paystack.webhook.ts:59-61 | With the repaired guard every event is idempotent. A second identical delivery answers 200 and changes nothing. |
| Settlement.WithdrawThenFailMintsMoney | src/services/wallet.service.ts:68-77 | In the code as written, a withdrawal followed by its `transfer.failed` leaves the owner richer by the amount. |
| Settlement.WithdrawThenFailRestores | src/controllers/paystack.webhook.ts:66-72 | Repaired: a withdrawal and its `transfer.failed`, delivered once or twice, return the owner to the opening balance. |
| ErrorHandler.Classify | src/utils/prisimErrorHandler.ts:3-27 | P2002 names the targets joined by ", ", or "unknown" when they are absent. P2025, P2000 and P2003 have fixed texts, and an initialization error gives the database text. A plain `Error` whose message mentions Cloudinary gives the upload text. Anything else passes its own message on. |
| ErrorHandler.ClassifyHidesDriverMessage | src/utils/prisimErrorHandler.ts:6-18 | For a recognised code, or an initialization error, the answer does not depend on the driver's message. |
| ErrorHandler.ClassifyPassThrough | src/utils/prisimErrorHandler.ts:26 | When no rule applies, the message is returned unchanged. |
| ErrorHandler.CloudinaryRuleNeedsPlainError | src/utils/prisimErrorHandler.ts:21-23 | The Cloudinary rule applies only to errors named "Error". |
| ErrorHandler.EmptyTargetIsNotUnknown | src/utils/prisimErrorHandler.ts:7-8 | An empty target list gives the bare prefix. Only a missing list gives "unknown". |
| PublicId.ExtractPublicId | src/services/property.service.ts:5-8 | A capture, when there is one, is a non-empty run of characters other than '/' and '.'. |
| PublicId.SearchNoneIff | src/services/property.service.ts:6 | The leftmost-match search from a position fails exactly when no later position is matchable. |
| PublicId.NoneIffNoMatchable | src/services/property.service.ts:6-7 | The result is null exactly when no "/upload/" is followed by a character other than '/' and '.'. |
| PublicId.MatchAt | src/services/property.service.ts:6 | A match at a marker exists exactly when a character other than '/' and '.' follows it. The capture is such a run. |
| PublicId.FirstSegmentAfterVersion | src/services/property.service.ts:6-7 | After "/upload/v<digits>/", the first segment is captured. |
| PublicId.BacktracksToVersion | src/services/property.service.ts:6 | When nothing capturable follows "v<digits>/", the optional group is given up and "v<digits>" is captured. |
| PublicId.UnversionedUpload | src/services/property.service.ts:6-7 | Without a version group, the first segment after "/upload/" is captured. This covers segments starting with "v" too, unless the segment is "v<digits>" followed by "/" and a further path character, which the expression reads as a version. |
| PublicId.VideoUploadIsCaptured | src/services/property.service.ts:6-7 | "/upload/video.jpg" yields "video": a leading "v" alone does not make a version. |
| PublicId.FolderUploadYieldsFolder | src/services/property.service.ts:5-8 | For an image uploaded into the "properties-ashinity" folder, the helper returns the folder name. |
| PublicId.ImageId | src/services/property.service.ts:102-103 | The corrected extraction: the last path segment without its extension, never containing '/' or '.'. |
| PublicId.ImageIdOfUpload | src/services/property.service.ts:149-150 | Whatever folders precede it, the corrected extraction returns the image's own id. |
| PublicId.FolderUploadsDisagree | src/services/property.service.ts:102-103 | For folder uploads the helper returns the folder, while the corrected extraction returns the image id. |
| PropertyService.ActionRelation | src/services/property.service.ts:188-245 | The four action names, and only they, select a relation. |
| PropertyService.StatusFor | src/services/property.service.ts:263-279 | Without a truthy user id the status is `{}`. Otherwise each flag is the user's membership in the matching relation. |
| PropertyService.GetPropertyById | src/services/property.service.ts:256-281 | A missing property gives "Property not found". Otherwise the result is the property's row with the user's status. |
| PropertyService.SetSaleStatus | src/services/property.service.ts:192-204 | The status update fails with P2025 exactly when the property is missing. Otherwise it changes only that row's sale status. |
| PropertyService.ToggleWrites | src/services/property.service.ts:188-242 | A toggle touches only the chosen relation's table. Only "bought" can change a property, and then only its sale status. |
| PropertyService.ToggleProperty | src/services/property.service.ts:182-250 | An unknown action is refused with "Invalid action" and no change. Otherwise the writes run. A thrown error is returned, or else the property is read back with the user's status. |
| PropertyService.ToggleKeepsValid | src/services/property.service.ts:188-242 | For an existing user and property, a toggle succeeds and keeps the catalog valid. Every property lookup stays as it was. |
| PropertyService.ToggleFlips | src/services/property.service.ts:188-242 | A toggle flips the pair's membership in the chosen relation and no other pair's. |
| PropertyService.BoughtSetsSaleStatus | src/services/property.service.ts:192-204 | "bought" marks the property SOLD when adding and AVAILABLE when removing. Nothing else about the property changes. |
| PropertyService.ToggleTwiceRestores | src/services/property.service.ts:188-242 | Toggling the same pair twice restores every relation's membership. |
| PropertyService.ToggleReportsFlip | src/services/property.service.ts:249 | The returned view shows the chosen flag flipped and the other three unchanged. |
| PropertyService.ToggleMissingPropertyChangesNothing | src/services/property.service.ts:198-204 | Adding a pair for a missing property fails on the foreign key and changes nothing. |
| PropertyListing.PriceInMillions | src/services/property.service.ts:300-301 | The price is NaN exactly when it has no digits. |
| PropertyListing.DecoratedPriceReadsDigits | src/services/property.service.ts:300 | A price whose only digits are the decimal form of `n` reads as `n / 1e6`. |
| PropertyListing.NoDigitsVanish | src/services/property.service.ts:300 | Removing non-digits from a digit-free text leaves nothing. |
| PropertyListing.GetAllProperties | src/services/property.service.ts:286-307 | An anonymous listing never fails. |
| PropertyListing.ListingIsFilteredWithStatus | src/services/property.service.ts:294-306 | On a valid catalog the listing shows exactly the properties that pass the query and price filters. Each carries the request's user status. |
| PropertyListing.ViewAll | src/services/property.service.ts:306 | `Promise.all` fails exactly when some property is missing. Otherwise each view is `getPropertyById` of its property. |
| PropertyListing.EmptyQueryMatchesAll | src/services/property.service.ts:295-298 | Without a query every property matches. |
| PropertyListing.QueryIgnoresCase | src/services/property.service.ts:295-298 | A query and its lower-case form select the same properties. |
| PropertyListing.WiderRangeKeepsMore | src/services/property.service.ts:300-301 | Widening the price range never drops a property. |
| PropertyListing.UserLinks | src/services/property.service.ts:312-332 | A user's rows of a relation are sorted newest first. They hold exactly that user's rows. |
| PropertyListing.GetUserPropertyTabs | src/services/property.service.ts:310-375 | A missing user gives "User not found". Otherwise the merge is a newest-first permutation of the four tabs together. |
| PropertyListing.TabsSorted | src/services/property.service.ts:339-361 | Each tab is newest first and stamped with its own kind. |
| PropertyListing.TabsAgreeWithStatus | src/services/property.service.ts:339-361 | A tab lists a property exactly when the matching status flag is set. |
| PropertyCreation.GalleryImages | src/services/property.service.ts:41-44 | The gallery holds exactly the `data:image` entries, each as many times as it was given. It is empty when `views` is absent. |
| PropertyCreation.ImageEntries | src/services/property.service.ts:43 | The filter keeps exactly the `data:image` entries, with their multiplicities, and nothing else. |
| PropertyCreation.ImageEntriesAppend | src/services/property.service.ts:43 | The filter keeps the order: filtering a concatenation gives the filtered parts one after the other. |
| PropertyCreation.UploadGallery | src/services/property.service.ts:45-53 | Failed gallery uploads are skipped. Every URL kept is one an upload returned. When none fail, the URLs are the uploads' in order. |
| PropertyCreation.UploadGalleryAppend | src/services/property.service.ts:43-53 | The loop over a concatenation gives the loop's URLs for each part, one after the other. |
| PropertyCreation.UploadGalleryOne | src/services/property.service.ts:44-52 | One file gives its URL when the upload succeeds and nothing when it throws. With the append lemma this fixes the URLs for every gallery. |
| PropertyCreation.CreateProperty | src/services/property.service.ts:10-72 | A main image that is not `data:image` is refused before any upload. A failed main upload throws "Failed to upload main image to Cloudinary" after that one upload, with the catalog unchanged. Otherwise the main and every gallery image are uploaded. A failure leaves the catalog as it was. Success needs the upload, an existing seller and a fresh id. It appends one row with the uploaded URLs. |
| PropertyCreation.OmittedFieldsDefault | src/services/property.service.ts:62-69 | Omitted fields default to rating 0, reviews 0, `{}` and `[]`. A new property is AVAILABLE. |
| PropertyCreation.GivenFieldsKept | src/services/property.service.ts:56-69 | Given fields are stored as given. |
| PropertyCreation.UploadsPrecedeInsert | src/services/property.service.ts:29-53 | Once the main image uploads, the main and gallery uploads all happen before the insert, whatever the insert does. |
| PropertyCreation.CreatedPropertyReadsBack | src/services/property.service.ts:56-71 | A created property keeps the catalog valid. It reads back by id with every flag off. |
| PropertyCreation.MainUploadFailureIsClassified | src/services/property.service.ts:29-38 | When a valid main image fails to upload, `createProperty` stores nothing after that one upload, and its error is classified as the image-upload message. |
| Otp.GenerateOtp | src/utils/otp.ts:1-5 | The code is all digits and exactly `length` long. Length 0 gives "0". |
| Otp.GenerateDefaultOtp | src/utils/otp.ts:1 | The default code is four digits. |
| Otp.OtpRoundTrip | src/utils/otp.ts:2-4 | Reading the padded code as a decimal gives the draw back. |
| Otp.OtpInjective | src/utils/otp.ts:2-4 | Distinct draws give distinct codes. |
| Otp.OtpExpiry | src/utils/otp.ts:7-9 | The expiry lies exactly `minutes` whole minutes after the clock reading, never before it. Partner: `Otp.DefaultValidityWindow`. |
| Otp.Expired | src/services/auth.service.ts:71 | A stored expiry has passed exactly when it is strictly earlier than now. A cleared expiry compares as instant 0, so it has passed for every positive clock reading. Partner: `Otp.ExpiredStaysExpired`. |
| Otp.FreshCodeNotExpired | src/utils/otp.ts:7-9 | A code is never expired at the instant it is issued, whatever its lifetime. |
| Otp.DefaultValidityWindow | src/utils/otp.ts:7-9 | A default code is accepted up to and including ten minutes after issue. |
| Otp.ExpiredStaysExpired | src/services/auth.service.ts:71 | Once expired, a code stays expired. |
| Accounts.ParseRole | src/controllers/admin.controller.ts:18 | Exactly the four role names parse. |
| Accounts.RoleNamesRoundTrip | src/services/admin.service.ts:3-5 | Role names and roles round-trip both ways. |
| Accounts.LoginClaims | src/services/auth.service.ts:59 | The login token carries the id and no role. |
| Accounts.UserIdOf | src/controllers/admin.controller.ts:36 | `Number(userId)` succeeds exactly on decimal digit strings, with their value. |
| AuthService.Register | src/services/auth.service.ts:21-46 | A taken email is refused with no change. Otherwise one unverified user is appended with a fresh four-digit code and a ten-minute expiry. A mail failure is reported but the user stays. |
| AuthService.RegisterKeepsValid | src/services/auth.service.ts:28-36 | Registration keeps emails, ids and Google ids unique. |
| AuthService.Login | src/services/auth.service.ts:50-62 | An unknown email is "Invalid credentials". An account without a password hash ends in the comparison's null-hash error. Success needs a hash the password matches and a verified email. The token signs `{ id }`. |
| AuthService.GoogleAccountRefusesPassword | src/services/auth.service.ts:50-54 | An account created by a Google sign-in has no hash, so no password logs into it. |
| AuthService.LoginCheckOrder | src/services/auth.service.ts:51-57 | "Email not verified" is reported exactly when the email exists with a hash the password matches. "Invalid credentials" is reported exactly for an unknown email or a hash the password does not match. |
| AuthService.CheckEmailOtp | src/services/auth.service.ts:67-71 | The checks run in order: not found, wrong code, expired. It passes exactly when the code matches and has not strictly expired. |
| AuthService.OtpCheckOrder | src/services/auth.service.ts:69-71 | A wrong code is "Invalid OTP" even when expired. A code is accepted at the instant of expiry and refused a millisecond later. |
| AuthService.VerifyEmailOtp | src/services/auth.service.ts:66-81 | A failed check changes nothing. A pass sets `emailVerified` and clears the code and expiry. |
| AuthService.VerifiedCodeIsSpent | src/services/auth.service.ts:73-80 | After verifying, the same code is refused as invalid and the table stays valid. |
| AuthService.HandleForgotPassword | src/services/auth.service.ts:86-109 | An unknown email is refused. Otherwise the code and expiry are overwritten, and a mail failure is reported after the write. |
| AuthService.ForgotPasswordReplacesCode | src/services/auth.service.ts:92-98 | Any earlier code is invalid afterwards. The new one holds for ten minutes. |
| AuthService.ResetPassword | src/services/auth.service.ts:114-131 | Reset uses the same checks. A pass replaces the hash and clears the code and expiry, keeping `emailVerified`. |
| AuthService.ResetThenLogin | src/services/auth.service.ts:124-130 | After a reset, a verified user logs in exactly with a password the new hash accepts. |
| AuthService.LoginWithGoogle | src/services/auth.service.ts:135-153 | A Google id found is returned unchanged. Otherwise a user with that email gains the Google id, or else a new verified user is created. |
| AuthService.GoogleLoginKeepsValid | src/services/auth.service.ts:138-149 | Google sign-in keeps the table's unique columns. |
| AuthService.GoogleLoginIdempotent | src/services/auth.service.ts:136-137 | A second Google sign-in with the same id changes nothing. |
| AuthService.SendPhoneOtp | src/services/auth.service.ts:157-173 | A missing user gives P2025. Otherwise the phone, phone code and shared expiry are written, and an SMS failure is reported after the write. |
| AuthService.VerifyPhoneOtp | src/services/auth.service.ts:177-192 | It passes exactly when the user exists, the code matches and has not expired. A pass sets `phoneVerified` and clears the phone code and shared expiry. A failure changes nothing. |
| AuthService.PhoneCodeSharesExpiry | src/services/auth.service.ts:160-167 | Sending a phone code resets the expiry the pending email code is checked against. |
| AuthService.SentPhoneCodeVerifies | src/services/auth.service.ts:155-192 | A phone code just sent, whether or not the SMS went out, verifies the phone up to ten minutes later. It is then spent: submitting it again is refused as invalid. |
| AuthMiddleware.BearerToken | src/middleware/auth.middleware.ts:11-14 | A token is read exactly when the header starts with "Bearer ". It is the text up to the next space. |
| AuthMiddleware.BearerRoundTrip | src/middleware/auth.middleware.ts:14 | A space-free token comes back out of its header, whatever follows a space. |
| AuthMiddleware.DoubleSpaceGivesEmptyToken | src/middleware/auth.middleware.ts:14 | "Bearer  a" yields the empty token, which is passed to the verifier unchanged. |
| AuthMiddleware.Authenticate | src/middleware/auth.middleware.ts:4-31 | The middleware continues exactly when a token is present and verifies, with that payload's id and role. Every refusal is 401. |
| AuthMiddleware.SignedTokenAuthenticates | src/middleware/auth.middleware.ts:16-27 | A header carrying a verifiable token admits its claims. |
| AuthMiddleware.MissingPrefixUnauthorized | src/middleware/auth.middleware.ts:11-12 | Without the prefix the answer is 401 "Unauthorized". |
| AuthMiddleware.IsSellerOrAdmin | src/middleware/auth.middleware.ts:34-52 | No user gives 401. A refused user gets 403 with the seller message. |
| RoleGuard.IsAdmin | src/middleware/roleGuard.ts:3-8 | Every refusal, a missing user included, is 403. |
| RoleGuard.IsSuperAdmin | src/middleware/roleGuard.ts:10-15 | Every refusal, a missing user included, is 403. |
| RoleGuard.GuardsAreRankThresholds | src/middleware/roleGuard.ts:4-12 | The seller guard admits exactly seller and above. The admin guard admits exactly admin and superadmin, and the superadmin guard exactly superadmin. |
| RoleGuard.UnknownRolePassesNothing | src/middleware/auth.middleware.ts:43-49 | A missing or unknown role passes no guard. |
| RoleGuard.GuardsNest | src/middleware/roleGuard.ts:4-12 | Whoever passes the superadmin guard passes the admin guard, and whoever passes that passes the seller guard. |
| RoleGuard.LoginTokenPassesNoGuard | src/services/auth.service.ts:59 | The login token carries no role, so its bearer passes none of the three guards. |
| RoleGuard.SessionClaims | src/middleware/auth.middleware.ts:17-25 | The corrected claims carry the id and the account's role name. |
| RoleGuard.SessionTokenFollowsRole | src/middleware/roleGuard.ts:4-12 | With the role in the token, each guard admits exactly the account roles at or above its level. |
| AdminService.GetAllUsers | src/services/admin.service.ts:7-11 | The listing is all users, newest first. |
| AdminService.AllUsersListed | src/services/admin.service.ts:7-11 | Every user is listed and nothing else. |
| AdminService.UpdateUserRole | src/services/admin.service.ts:13-18 | An invalid role fails validation with no change, and a missing user gives P2025. Otherwise only that user's role changes. |
| AdminService.UpdateRoleKeepsValid | src/services/admin.service.ts:13-18 | A role change keeps the table valid. |
| AdminService.UpdateRoleIdempotent | src/services/admin.service.ts:13-18 | Setting a role twice is setting it once. |
| AdminService.DeleteUser | src/services/admin.service.ts:20-24 | A missing user gives P2025. A user that other rows refer to is refused with P2003 and nothing changes. Otherwise exactly that row is removed and returned. |
| AdminService.DeleteRemovesExactly | src/services/admin.service.ts:20-24 | After an allowed deletion the id is gone, every other user remains, and the table stays valid. A refused deletion leaves the table as it was. |
| AdminService.SuspendUser | src/services/admin.service.ts:26-31 | A missing user gives P2025. Otherwise only that user's KYC status becomes SUSPENDED. |
| AdminService.SuspendKeepsValid | src/services/admin.service.ts:26-31 | Suspension keeps the table valid. |
| AdminController.FetchUsers | src/controllers/admin.controller.ts:9-12 | The reply lists every user exactly once, newest first. |
| AdminController.PromoteUser | src/controllers/admin.controller.ts:15-23 | A role outside the four gives 400 "Invalid role" and no change. Otherwise the id is converted and the update's outcome answered. |
| AdminController.PromoteSetsAnyRole | src/controllers/admin.controller.ts:18-22 | Any of the four roles is set for any existing user, lower ones included. |
| AdminController.PromoteRejectsUnknownRole | src/controllers/admin.controller.ts:18-19 | A name outside the four gives 400 and changes nothing. |
| AdminController.DemoteUser | src/controllers/admin.controller.ts:25-30 | The new role is passed through unchecked. |
| AdminController.DemoteIsUncheckedPromote | src/controllers/admin.controller.ts:25-30 | Demotion writes what promotion writes. For an invalid role, promotion answers 400 and demotion leaves a validation error unanswered. |
| AdminController.RemoveUser | src/controllers/admin.controller.ts:33-38 | It deletes the user named by `Number(userId)`. |
| AdminController.RemoveTwiceIsNotFound | src/controllers/admin.controller.ts:33-38 | Removing an unreferenced user deletes exactly that user. A second removal changes nothing and ends in an unanswered error. Removing a referenced user also ends in an unanswered error, and the user stays. |
| AdminController.SuspendUserAccount | src/controllers/admin.controller.ts:40-45 | It suspends the user named by `Number(userId)`. |
| AdminController.SuspendedUserCanStillLogin | src/controllers/admin.controller.ts:40-45 | Suspension does not affect login. |
| Text.NatToDecimalRoundTrip | src/utils/otp.ts:3 | Reading back the decimal form of `n` gives `n`. |
| Text.PadStart | src/utils/otp.ts:4 | The pad keeps the text as a suffix and fills the rest with the pad character up to the length. |
| Text.SplitJoin | src/middleware/auth.middleware.ts:14 | Joining the pieces of a split with the separator gives the text back. |
| Text.ContainsIffOccurs | src/services/property.service.ts:295-298 | `includes` holds exactly when the needle occurs at some position. |
| Text.ToLowerIdempotent | src/services/property.service.ts:295-298 | Lower-casing twice is lower-casing once. |
| Text.DigitsOnlyAppend | src/services/property.service.ts:300 | Removing non-digits distributes over concatenation. |
| Sorting.SortDesc | src/services/property.service.ts:364-366 | The sort returns a descending permutation of its input. |

## Left out

- External services are parameters. Paystack through axios, the Cloudinary upload and destroy calls, the mailer and the SMS service are each given as their reply.
- Cryptography is a parameter. The HMAC-SHA512 signature check (RFC 2104) is a boolean. `jwt.sign` and `jwt.verify` are functions, and a token's seven-day expiry lives inside `verify`. bcrypt's hash and comparison are also functions. The null-hash error of `login` uses the text of the `bcryptjs` package, the hashing package the seed script uses. src/utils/password.ts is not part of this model, so that it wraps the same package is assumed.
- `Date.now()`, `Math.random()` and `uuidv4()` are inputs. `Math.random()` is given as the drawn integer below `10 ** length`.
- Amounts are exact reals. The source's floating-point `amount / 100`, `amount * 100` and `price / 1_000_000` are not rounded. `parseInt` is exact on long digit strings.
- Concurrency is left out; one request is modelled at a time. The webhook's reference lookup sits outside its database transaction, so two concurrent deliveries can both pass the guard. `getPropertyById`'s `Promise.all` is read as one query.
- Request validators (`express-validator` rule arrays), routes, app wiring, the Google passport strategy, seeding, the KYC module, the unused user model and the documentation are left out.
- The property controller and the auth controller are left out. The auth controller calls `auth.forgotPassword`, which the service does not export (it exports `handleForgotPassword`), so that route fails before the modelled service runs.
- `updateProperty` and `deleteProperty` are left out apart from the `extractPublicId` they call. Their bodies are ORM writes and Cloudinary calls with no logic beyond the helper.
- `getUserWallet` is left out; it is a single lookup.
- `createWalletForUser` is modelled, but no shown file calls it, so where wallets come from is left open.
- Prisma's full error texts are left out. A driver error carries its code, its target list and a message only.
- Schema defaults not visible in the source are assumed: a new property is AVAILABLE, a new user is a `normal` user, and `kycStatus` starts absent.
- Column types not visible in the source are assumed. The user `role` column is a database enum of the four role names, so the ORM refuses any other value with a validation error; `updateUserRole`, `demoteUser` and `promoteUser` rest on this. The `kycStatus` column accepts "SUSPENDED", which `suspendUser` writes, although the KYC service and the user model type it as "PENDING", "VERIFIED" or "REJECTED" only.
- An id collision on `property.create` gives P2002.
- When several foreign keys fail at once, only one column is reported; the property is checked before the user.
- `Number()` is modelled on plain decimal strings: "" gives 0, and any other text is NaN. Signs, spaces, exponents and hexadecimal are outside the model.
- `toLowerCase` is ASCII only.
- Sort stability for equal timestamps is not modelled. The orderings are stated as sorted permutations, not as one particular order.
- `seller` include in `getPropertyById`: the related seller row is not part of the view.
- PropertyListing.GetUserPropertyTabs requires a valid catalog, whose relation rows all resolve. The ORM's foreign keys guarantee this in the running system.
- PropertyListing.GetAllProperties: its own contract only says an anonymous listing never fails. `ListingIsFilteredWithStatus` states the filter and the status.
- AuthMiddleware.IsSellerOrAdmin: its own contract states the refusals only. `RoleGuard.GuardsAreRankThresholds` and `RoleGuard.UnknownRolePassesNothing` state what passes.
- RoleGuard.IsAdmin, RoleGuard.IsSuperAdmin: their own contracts state the refusal reply only. `RoleGuard.GuardsAreRankThresholds` states what passes.
- Settlement.WithdrawHeld: when the gateway refuses the transfer, the hold stays on the balance, like the PENDING row the source leaves behind. Releasing it is left to the `transfer.failed` event.
- PropertyCreation.CreateProperty: uploads already made stay on Cloudinary when the insert fails. Nothing deletes them.
- AdminService.DeleteUser: whether other rows (wallet, bank account, properties, relation rows) refer to the user is an input, `referenced`, because the Prisma schema is not part of this model. A referenced user is refused with P2003, as with Prisma's default Restrict action. A cascading schema is not modelled, and an allowed deletion does not touch the ledger or catalog stores.
- ErrorHandler.Classify: P2002 with an empty target list gives the bare prefix, as the code does with `[].join(", ")`. It does not give "unknown".

## Findings

| source | as written | input that shows it | evidently intended | confidence | as-written member | corrected member |
|---|---|---|---|---|---|---|
| src/controllers/paystack.webhook.ts:61-72 | A withdrawal records a PENDING row but never takes the amount from the balance (src/services/wallet.service.ts:68-77). `transfer.failed` still refunds it, and the guard excludes only SUCCESS, so a replayed `transfer.failed` refunds again. | Balance 1000. Withdraw 400 (balance stays 1000). `transfer.failed` for that reference with amount 40000 kobo gives balance 1400. The same event again gives 1800. | Hold the amount when the withdrawal is recorded. Refund the stored amount once, and process only PENDING rows, so every balance equals what its settled rows contribute. | not executed | Settlement.WithdrawThenFailMintsMoney, Webhook.TransferFailedReplayRefundsAgain | Settlement.WithdrawHeld, Settlement.HandleWebhookSettled, Settlement.SettledKeepsConserved, Settlement.WithdrawThenFailRestores, Settlement.SettledReplayIsNoOp |
| src/services/property.service.ts:5-8 | The expression captures the first segment after "/upload/v<digits>/". Images are uploaded into the "properties-ashinity" folder (lines 29-38, 45-50), so it yields the folder name, and `destroy` (lines 103, 150) is called with the folder instead of the image. | `.../image/upload/v1700000000/properties-ashinity/abc123.jpg` gives "properties-ashinity". | Return the image's own id, the last path segment without its extension ("abc123"), which the `destroy` call prefixes with the folder. | not executed | PublicId.FolderUploadYieldsFolder | PublicId.ImageId, PublicId.ImageIdOfUpload, PublicId.FolderUploadsDisagree |
| src/services/auth.service.ts:59 | `login` and `loginWithGoogle` (line 151) sign `{ id }` only. The middleware copies `payload.role`, which is then undefined (src/middleware/auth.middleware.ts:22-25), so every role guard refuses every logged-in user. | An admin logs in and calls an admin route: `isAdmin` sees role undefined and answers 403. | Sign the account's role with the id, so each guard admits exactly the roles at or above its level. | not executed | RoleGuard.LoginTokenPassesNoGuard | RoleGuard.SessionClaims, RoleGuard.SessionTokenFollowsRole |
