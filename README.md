# Pet store backend — a Dafny model

This project models the request handlers and middleware of an Express and Mongoose pet-store backend:

- **User profiles, carts and wishlists**: `createProfile`, `addToCart`, `getCart`, `updateCartQuantity`, `removeFromCart`, `addToWishlist`, `getWishlist` and `removeFromWishlist`.
- **Catalog handlers** for pets, products and testimonials: create, find by id, update by id and delete by id, with the media-upload helpers.
- **The three schemas** those collections use, and the User schema.
- **The order handlers**: `createOrder` and `getUserOrders`.
- **The three token gates**: `authenticateFirebaseUser`, `isAdmin` and `verifyFirebaseToken`.
- **The object-key choice** for uploaded files (`getUploadPath`).

## How the model represents the backend

- **Database reads are snapshots.** Each handler receives what its reads return:
  - the `User.findOne` result as an `Option<UserRecord>`;
  - the ids `findById` can resolve as a `Catalog`;
  - a collection as a map from id to document.
- **Results are values.** A handler answers an HTTP status and what it writes back: the saved record, or the new collection.
- **Outside calls are parameters.** These include:
  - token verification (`verifyIdToken`);
  - the ObjectId format check (`ObjectId.isValid`, or the cast `findById` performs);
  - the clock.
- **Loops stay loops.** The JavaScript `find`/`findIndex` scans and the `filter` callback run by the quantity update are Dafny methods with loops. Each is proved against a function that states its result.
- **The cart handlers follow their code.** `addToCart`, `updateCartQuantity`, `removeFromCart`, `addToWishlist` and `removeFromWishlist` are methods that do what the code does, step by step. Each is proved equal to a specification function (`CartAfterAdd`, `QuantityReply`, `CartAfterRemove`, `WishlistAfterAdd`, `WishlistAfterRemove`). The lemmas state what those functions promise.
- **Catalog documents are generic.** A `Schema` lists String, Number and [String] paths with their defaults and validators. `Build` models `new Model(fields)`. `Valid` models the validators `save` runs. `Patch` models `findByIdAndUpdate`.
- **Multipart fields are text.** The catalog routes read multipart form data, so every body field is text: a price of "0" is truthy, and `CastNumber` turns text into a number.

## Model

| member | source | states |
|---|---|---|
| UserModel.RefsTo | ecommerce-backend/models/User.js:13-25 | a subdocument pushed for one target sets that kind's reference to the id and leaves the other unset |
| UserModel.NewCartEntry | ecommerce-backend/models/User.js:17 | a cart subdocument built without a quantity gets the default 1 |
| UserModel.ParseRole | ecommerce-backend/models/User.js:12 | the role enum accepts exactly "user" and "admin", and is the inverse of the role's text |
| UserModel.NewUser | ecommerce-backend/controllers/userController.js:29-40 | a new profile holds the given fields, role "user", and an empty cart, wishlist and order list |
| Entries.IndexOf | ecommerce-backend/controllers/userController.js:327-329 | `findIndex`: the first position whose reference equals the id, or -1 with no match anywhere |
| Entries.FindIndex | ecommerce-backend/controllers/userController.js:338-340 | the left-to-right scan returns exactly `IndexOf` |
| Entries.SplicedMultiset | ecommerce-backend/controllers/userController.js:333 | `splice(i, 1)` loses exactly the i-th subdocument and nothing else |
| Entries.KeepTargeting | ecommerce-backend/controllers/userController.js:256-258 | the filter throws iff some entry lacks the tested field; otherwise it keeps exactly the entries that target the item |
| Entries.TargetingMembers | ecommerce-backend/controllers/userController.js:256-258 | the entries that target an id and the others partition the list (membership and multiset) |
| Entries.SpliceKeepsUnique | ecommerce-backend/controllers/userController.js:333 | splicing keeps one entry per target |
| CartRules.QuantityOrOne | ecommerce-backend/controllers/userController.js:146 | `quantity \|\| 1` is never 0 and keeps every non-zero quantity, negative ones included |
| CartRules.AddedRaisesTarget | ecommerce-backend/controllers/userController.js:139-161 | after adding, the target is present with its old quantity plus n; every other entry keeps its place; the cart grows by one only when the target was absent |
| CartRules.AddedKeepsUnique | ecommerce-backend/controllers/userController.js:139-161 | adding keeps one entry per target and leaves exactly one for the added target |
| CartRules.IncrementIsAdd | ecommerce-backend/controllers/userController.js:253-266 | +1 on a non-negative quantity does what adding one through addToCart does |
| CartRules.DecrementOutcomes | ecommerce-backend/controllers/userController.js:253-268 | -1 on a quantity above 1 lowers it by one in place; -1 on an absent target changes nothing |
| CartRules.ZeroBranchAsWritten | ecommerce-backend/controllers/userController.js:255-258 | as written, reaching 0 keeps only the entry that reached it, or throws when an entry lacks the tested field |
| CartRules.ZeroBranchCounterexample | ecommerce-backend/controllers/userController.js:255-258 | on [p1×1, p2×2], -1 on p1 leaves [p1×0]; with a pet entry beside it, the step throws |
| CartRules.AdjustedKeepsUnique | ecommerce-backend/controllers/userController.js:247-268 | the helper as written never creates a second entry for a target |
| CartRules.IntendedRemovesOnlyTarget | ecommerce-backend/controllers/userController.js:255-258 | corrected: reaching 0 splices out exactly the target's entry |
| CartRules.IntendedKeepsPositive | ecommerce-backend/controllers/userController.js:253-268 | corrected: a ±1 step keeps every quantity positive and one entry per target |
| CartRules.IntendedKeepsUnique | ecommerce-backend/controllers/userController.js:253-268 | corrected: the helper never creates a second entry for a target |
| CartRules.WithoutFirstProperties | ecommerce-backend/controllers/userController.js:325-345 | removal takes out at most one entry, which targets the id; the others keep their order; it removes nothing iff the target is absent; with one entry per target, none is left |
| CartRules.ListedProperties | ecommerce-backend/controllers/userController.js:402-424 | listing makes the target present and is idempotent; old entries stay first and in order; one entry per target is kept |
| CartRules.PopulatedCart | ecommerce-backend/controllers/userController.js:186-200 | getCart keeps exactly the entries whose productId resolves |
| CartRules.PopulatedCartOne | ecommerce-backend/controllers/userController.js:200 | a lone cart entry is shown iff its product exists |
| CartRules.PopulatedCartConcat | ecommerce-backend/controllers/userController.js:200 | the filter works entry by entry: the view of two joined carts is the first view followed by the second, so order and repetitions are kept |
| CartRules.PopulatedWishlist | ecommerce-backend/controllers/userController.js:445-460 | getWishlist keeps exactly the entries whose product or pet resolves |
| CartRules.PopulatedWishlistOne | ecommerce-backend/controllers/userController.js:458-460 | a lone wishlist entry is shown iff its product or its pet exists |
| CartRules.PopulatedWishlistConcat | ecommerce-backend/controllers/userController.js:458-460 | the filter works entry by entry: the view of two joined wishlists is the first view followed by the second, so order and repetitions are kept |
| CartRules.PopulatedCartDropsPets | ecommerce-backend/controllers/userController.js:186-200 | as written, an entry for an existing pet is never shown |
| CartRules.PopulatedCartIntended | ecommerce-backend/controllers/userController.js:186-200 | corrected: an entry stays iff its product or its pet resolves |
| CartRules.PopulatedCartIntendedShowsAll | ecommerce-backend/controllers/userController.js:186-200 | corrected: a cart whose entries all resolve is shown whole, in order |
| UserController.CreateProfile | ecommerce-backend/controllers/userController.js:8-51 | the status is 400, 500 or 201; 400 iff name, email or phone is missing or a profile exists for the uid; 500 iff otherwise the uid is empty or the email is taken (the failed save); 201 iff the fields are present, the uid is non-empty and new, and the email is free; only 201 writes, and the store keeps its unique indexes |
| UserController.CartAfterAddKeepsUnique | ecommerce-backend/controllers/userController.js:139-161 | addToCart keeps one entry per target and leaves exactly one for each requested target |
| UserController.PetStepKeepsProductEntry | ecommerce-backend/controllers/userController.js:152-161 | the pet step leaves the product's single entry in place |
| UserController.RaiseOrPush | ecommerce-backend/controllers/userController.js:141-150 | the find-then-`+=`-or-push step computes `Added` |
| UserController.AddToCart | ecommerce-backend/controllers/userController.js:101-179 | 400 iff an id is malformed; 404 iff the ids are well formed and an item or the user is missing; only a 200 writes, and it writes the cart after both steps |
| UserController.UpdateItemInCart | ecommerce-backend/controllers/userController.js:237-269 | the inner helper throws, answers 404, changes the cart or leaves it, exactly as `ItemStep` says |
| UserController.UpdateCartQuantity | ecommerce-backend/controllers/userController.js:213-302 | a bad action or a missing itemId gives 400, an unknown user 404, neither writing; otherwise the status and the write are those of `QuantityReply` |
| UserController.SingleKindReply | ecommerce-backend/controllers/userController.js:271-295 | with one kind flag, the reply follows the single helper call: 500, 404 or 400 without a write, or 200 with the changed cart |
| UserController.NoKindReply | ecommerce-backend/controllers/userController.js:271-285 | with neither productId nor petId, nothing is updated: 400 |
| UserController.QuantityReplyKeepsUnique | ecommerce-backend/controllers/userController.js:233-295 | any written cart keeps one entry per target |
| UserController.NotFoundThenSaved | ecommerce-backend/controllers/userController.js:241-288 | as written, both flags set and a pet id give a 404 answer while the updated cart is still saved |
| UserController.IntendedReplyProperties | ecommerce-backend/controllers/userController.js:237-295 | corrected: a write happens iff the answer is 200; positive quantities and one entry per target are preserved |
| UserController.RemoveFromCart | ecommerce-backend/controllers/userController.js:304-359 | 400 iff an id is malformed; 404 iff the user is unknown or a requested target is not in the cart; otherwise the spliced cart is written with 200 |
| UserController.RemoveTwiceFails | ecommerce-backend/controllers/userController.js:325-345 | after a successful removal no requested target remains, so the same request then answers 404 |
| UserController.GetCart | ecommerce-backend/controllers/userController.js:182-210 | 404 for an unknown user; otherwise 200 with exactly the entries whose product exists, as the order-keeping filter PopulatedCart gives them |
| UserController.GetCartInOrder | ecommerce-backend/controllers/userController.js:195-200 | splitting the cart in two splits the shown entries at the same place, so they appear in cart order |
| UserController.ListedKeepsPresent | ecommerce-backend/controllers/userController.js:402-424 | listing one target keeps every target already listed |
| UserController.WishlistAfterAddProperties | ecommerce-backend/controllers/userController.js:402-424 | every requested target ends up listed; old entries stay first; repeating the request changes nothing; one entry per target is kept |
| UserController.ListItem | ecommerce-backend/controllers/userController.js:403-412 | the find-then-push step computes `Listed` |
| UserController.AddToWishlist | ecommerce-backend/controllers/userController.js:362-438 | 400 iff an id is malformed; 404 iff the user or a requested item is missing; otherwise the listed wishlist is written with 200 |
| UserController.GetWishlist | ecommerce-backend/controllers/userController.js:441-471 | 404 for an unknown user; an empty wishlist answers 200 with no list; otherwise the entries whose product or pet exists, as the order-keeping filter PopulatedWishlist gives them |
| UserController.GetWishlistInOrder | ecommerce-backend/controllers/userController.js:453-460 | splitting a non-empty wishlist in two splits the shown entries at the same place, so they appear in wishlist order |
| UserController.WishlistAfterRemoveProperties | ecommerce-backend/controllers/userController.js:494-516 | the removed entries and the rest together are the old wishlist (multiset); at most two are removed; nothing changes when none is removed |
| UserController.WishlistAfterRemoveKeepsOrder | ecommerce-backend/controllers/userController.js:494-516 | the entries that target none of the requested ids stand in the written wishlist in the same order as before |
| UserController.WishlistRemovedEntries | ecommerce-backend/controllers/userController.js:494-516 | every removed entry targets a requested id; the product's entry comes first |
| UserController.WishlistAfterRemoveLeavesNone | ecommerce-backend/controllers/userController.js:494-516 | with one entry per target, no requested target is left listed |
| UserController.RemoveFromWishlist | ecommerce-backend/controllers/userController.js:473-531 | 400 iff an id is malformed; 404 iff the user is unknown; otherwise 200, with the removed entries answered and the rest written, an absent target counting as success |
| Strings.IndexOf | ecommerce-backend/middleware/adminMiddleware.js:8 | the first occurrence of the pattern, or -1 when there is none |
| Strings.ReplaceFirstRemoves | ecommerce-backend/middleware/adminMiddleware.js:8 | `replace` with "" cuts exactly the first occurrence: putting it back restores the text |
| Strings.JoinSplit | ecommerce-backend/middleware/authMiddleware.js:7 | `split` loses nothing: joining the fields gives the text back |
| Strings.SplitFieldsHaveNoSeparator | ecommerce-backend/middleware/authMiddleware.js:7 | no field of a split contains the separator |
| Strings.Decimal | ecommerce-backend/middleware/fileUpload.js:18 | `${n}` is a non-empty run of digits with no leading zero |
| Strings.ParseDecimalRoundTrip | ecommerce-backend/middleware/fileUpload.js:18 | reading the decimal text of a number gives the number back |
| Firebase.BearerToken | ecommerce-backend/middleware/authMiddleware.js:5-8 | a token exists iff the header starts with "Bearer "; it is the space-free text after the prefix, up to a space or the end |
| Firebase.BearerTokenOf | ecommerce-backend/middleware/authMiddleware.js:5-8 | prefix, then a space-free word, then the end or a space, yields exactly that word |
| Firebase.CanonicalCredentials | ecommerce-backend/middleware/authMiddleware.js:5-8 | canonical RFC 6750 credentials yield the whole token |
| Firebase.NonCanonicalCredentials | ecommerce-backend/middleware/authMiddleware.js:5-8 | two RFC 6750 spellings (lower-case scheme, two spaces) yield no token or the empty one |
| AuthMiddleware.Authenticate | ecommerce-backend/middleware/authMiddleware.js:3-41 | a missing or empty token gives 403; Next iff the verifier accepts and the uid is non-empty, carrying the decoded token; 401 iff the verifier fails or the uid is empty |
| AuthMiddleware.AuthenticateUsesToken | ecommerce-backend/middleware/authMiddleware.js:5-33 | a well-formed header reaches the verifier with exactly its token |
| AuthMiddleware.AuthenticateRefusesNonCanonical | ecommerce-backend/middleware/authMiddleware.js:5-14 | "Bearer " alone, a double space, or a lower-case scheme gives 403 whatever the verifier says |
| AdminMiddleware.IsAdmin | ecommerce-backend/middleware/adminMiddleware.js:5-36 | a header that reduces to "" (or no header) gives 401; 500 iff the verifier throws; a verified token without a uid gives 401; a missing profile or a role other than admin gives 403; Next iff the uid is non-empty and stored with the admin role, carrying that stored profile |
| AdminMiddleware.AdminTokenCutsFirstPrefix | ecommerce-backend/middleware/adminMiddleware.js:8 | a prefixed header gives the rest; a header without "Bearer " is passed on whole |
| AdminMiddleware.AdminTokenRestores | ecommerce-backend/middleware/adminMiddleware.js:8 | the token is the header with its first "Bearer " cut out, wherever it stands |
| AdminMiddleware.AdminIsCaller | ecommerce-backend/middleware/adminMiddleware.js:25-31 | in a well-formed store, the profile let through belongs to the verified uid |
| VerifyFirebaseToken.VerifyToken | ecommerce-backend/middleware/verifyFirebaseToken.js:3-18 | no "Bearer " prefix gives 403; Next iff the verifier accepts, with the decoded token as it is; every denial is 403 |
| VerifyFirebaseToken.EmptyTokenReachesVerifier | ecommerce-backend/middleware/verifyFirebaseToken.js:4-13 | a header with two spaces after the scheme ("Bearer  x") sends "" to the verifier, and a token without a uid passes |
| OrderController.CreateOrder | ecommerce-backend/controllers/orderController.js:4-26 | 400 iff the uid, the items, the amount or the address is falsy, with nothing stored; otherwise 201 and exactly that order appended |
| OrderController.NegativeTotalAccepted | ecommerce-backend/controllers/orderController.js:8-10 | only truthiness is tested: a negative amount is recorded |
| OrderController.OrderOwnerFromBody | ecommerce-backend/controllers/orderController.js:6-17 | the order's owner is the uid in the body, even when it differs from the caller's |
| OrderController.GetUserOrders | ecommerce-backend/controllers/orderController.js:29-44 | queries by `req.user.firebaseUID`, which is undefined; 404 iff that query is empty; otherwise 200 with its result |
| OrderController.OrdersIgnoreCaller | ecommerce-backend/controllers/orderController.js:31-33 | as written, every caller gets the same reply |
| OrderController.OwnedBy | ecommerce-backend/controllers/orderController.js:33 | `find({firebaseUID})` returns exactly the stored orders with that owner |
| OrderController.GetOwnOrders | ecommerce-backend/controllers/orderController.js:29-44 | corrected: 404 iff the caller owns no order; otherwise exactly the caller's orders |
| OrderController.OwnOrdersSeparate | ecommerce-backend/controllers/orderController.js:29-44 | corrected: callers with different uids never see a common order |
| FileUpload.UploadFolder | ecommerce-backend/middleware/fileUpload.js:16-24 | "products" iff the mount path contains "products"; then "testimonials"; else "pets" |
| FileUpload.KeyRoundTrip | ecommerce-backend/middleware/fileUpload.js:16-24 | a key parses back to its folder, time and original name |
| FileUpload.KeysCollideOnlyOnSameInputs | ecommerce-backend/middleware/fileUpload.js:16-24 | two uploads share a key only with the same folder, millisecond and name |
| FileUpload.MountedRoutesAllPets | ecommerce-backend/server.js:39-41 | as written, uploads on all three mounted routers go to "pets" |
| FileUpload.IntendedUploadFolder | ecommerce-backend/middleware/fileUpload.js:16-24 | corrected: the folder is chosen on the singular words the mount paths contain |
| FileUpload.IntendedFolderPerRoute | ecommerce-backend/server.js:39-41 | corrected: each router's uploads get their own folder |
| Documents.CastNumber | ecommerce-backend/models/pet.js:20-24 | "" casts to null and only ""; a negative value comes from a leading '-' |
| Documents.CastNumberText | ecommerce-backend/models/pet.js:20-24 | casting the text of a whole number gives the number back |
| Documents.CastPlusSign | ecommerce-backend/models/pet.js:20-24 | digits with a leading '+' cast to the same number as the digits alone |
| Documents.Build | ecommerce-backend/controllers/petController.js:55-78 | fails iff a number does not cast; a given field takes its value; a field not given takes its default or stays unset; lists come from the request or the default |
| Documents.Patch | ecommerce-backend/controllers/petController.js:145-172 | fails iff a number does not cast; given fields are overwritten; every other stored field is kept |
| Documents.Overlay | ecommerce-backend/controllers/petController.js:145-172 | the update's keys within the schema overwrite; everything else is kept; nothing else is added |
| Documents.PatchIdempotent | ecommerce-backend/controllers/petController.js:145-172 | applying the same update twice stores what applying it once does |
| MediaUploads.Locations | ecommerce-backend/controllers/petController.js:12 | `map(file => file.location)`: same length, position by position |
| MediaUploads.FirstLocation | ecommerce-backend/controllers/petController.js:5-8 | the first image's location, or "" when the field has none |
| MediaUploads.AllLocations | ecommerce-backend/controllers/petController.js:10-18 | every file's location in upload order, or [] |
| MediaUploads.HandleFileUploads | ecommerce-backend/controllers/petController.js:4-21 | fails iff the request carried no multipart files; otherwise the image, images and videos come from the uploads |
| MediaUploads.HandleImageUpload | ecommerce-backend/controllers/testimonialController.js:4-11 | fails iff no multipart files; otherwise the first image's location |
| MediaUploads.MediaFollowsUploads | ecommerce-backend/controllers/petController.js:10-18 | every listed location is the uploaded file's at the same position, and none is dropped |
| MediaUploads.NoFilesNoMedia | ecommerce-backend/controllers/petController.js:4-21 | a multipart request without files yields "" and empty lists |
| MediaUploads.ImageHelpersAgree | ecommerce-backend/controllers/testimonialController.js:4-11 | the two helpers agree on the image |
| CatalogHandlers.Given | ecommerce-backend/controllers/petController.js:55-78 | the fields passed on are the schema's own fields from the body, plus the uploaded image, never the body's |
| CatalogHandlers.Create | ecommerce-backend/controllers/petController.js:24-86 | 400 iff a guard field is falsy; 201 iff the document builds, validates and its id is new; only then is it stored |
| CatalogHandlers.FindById | ecommerce-backend/controllers/petController.js:100-114 | 500 iff the id is malformed; 404 iff absent; 200 with the stored document; no write |
| CatalogHandlers.UpdateById | ecommerce-backend/controllers/petController.js:117-185 | 500 iff the id is malformed or a number does not cast; 404 iff absent; otherwise the patched document replaces only that one |
| CatalogHandlers.DeleteById | ecommerce-backend/controllers/petController.js:188-205 | 500 iff the id is malformed; 404 iff absent; otherwise exactly that document is removed and returned |
| CatalogHandlers.WrittenHoldsMedia | ecommerce-backend/controllers/petController.js:55-78 | a created or updated document holds this request's image and lists |
| CatalogHandlers.CreatedIsFound | ecommerce-backend/controllers/petController.js:100-114 | a created document is then found under its id, as returned |
| CatalogHandlers.DeletedIsGone | ecommerce-backend/controllers/petController.js:188-205 | after a delete, finding, updating or deleting that id answers 404 |
| CatalogHandlers.UpdateIdempotent | ecommerce-backend/controllers/petController.js:145-172 | repeating an update changes nothing more |
| PetModel.PetValidMeans | ecommerce-backend/models/pet.js:3-37 | a pet validates iff breed, description, image and category are non-empty, price is a number ≥ 0, and a numeric discount is ≥ 0 |
| PetModel.NewPetDefaults | ecommerce-backend/models/pet.js:10-33 | a descriptive field not given is ""; originalPrice and discount not given are 0 |
| PetModel.CategoryDefaultInvalid | ecommerce-backend/models/pet.js:34 | category is required but defaults to "", so relying on the default fails validation |
| PetController.PetGuardMeans | ecommerce-backend/controllers/petController.js:51-53 | the guard fails iff breed, description, price or category is not sent or empty, or no image was uploaded |
| PetController.CreatePet | ecommerce-backend/controllers/petController.js:24-86 | no multipart files gives 500; 400 iff the guard fails; 201 iff the guard passes, the pet built from the sent fields and the uploads validates and the id is new; the stored pet is that built document, holding the uploaded media |
| PetController.GetPetById | ecommerce-backend/controllers/petController.js:100-114 | 500 iff the id is malformed; 404 iff absent; 200 with the stored pet; no write |
| PetController.UpdatePet | ecommerce-backend/controllers/petController.js:117-185 | 500 iff no multipart files, a malformed id or a field that does not cast; 404 iff the pet is absent and the fields cast; on 200 the stored pet is the old one patched with the sent fields and always the new media |
| PetController.DeletePet | ecommerce-backend/controllers/petController.js:188-205 | 500 iff the id is malformed; 404 iff absent; otherwise only that pet is removed |
| PetController.UpdateWithoutFilesClearsMedia | ecommerce-backend/controllers/petController.js:143-172 | an update without files stores "" and empty lists, leaving the pet invalid |
| PetController.ZeroPriceAccepted | ecommerce-backend/controllers/petController.js:51-80 | a price of "0" passes the guard and validation, and is stored as 0 |
| PetController.NegativePriceRefused | ecommerce-backend/models/pet.js:20-24 | a negative price is refused by the min validator and nothing is stored |
| ProductModel.ProductValidMeans | ecommerce-backend/models/Product.js:3-35 | a product validates iff name, category, description and image are non-empty, price is a number ≥ 0, and numeric shippingCharges and discount are ≥ 0 |
| ProductModel.NewProductNumberDefaults | ecommerce-backend/models/Product.js:11-30 | shippingCharges defaults to 100; originalPrice and discount to 0 |
| ProductModel.NewProductTextDefaults | ecommerce-backend/models/Product.js:9-32 | Feature, Benefits, offers and sizes take their default texts; images the stock list; videos [] |
| ProductController.ProductGuardMeans | ecommerce-backend/controllers/productController.js:45-47 | the guard fails iff name, description, price or category is not sent or empty, or no image was uploaded |
| ProductController.CreateProduct | ecommerce-backend/controllers/productController.js:24-74 | no multipart files gives 500; 400 iff the guard fails; 201 iff the guard passes, the product built from the sent fields and the uploads validates and the id is new; the stored product is that built document, holding the uploaded media |
| ProductController.GetProductById | ecommerce-backend/controllers/productController.js:88-105 | 500 iff the id is malformed; 404 iff absent; 200 with the stored product; no write |
| ProductController.UpdateProduct | ecommerce-backend/controllers/productController.js:108-165 | 500 iff no multipart files, a malformed id or a field that does not cast; 404 iff the product is absent and the fields cast; on 200 the stored product is the old one patched with the sent fields and always the new media |
| ProductController.DeleteProduct | ecommerce-backend/controllers/productController.js:168-186 | 500 iff the id is malformed; 404 iff absent; otherwise only that product is removed |
| ProductController.UpdateWithoutFilesClearsMedia | ecommerce-backend/controllers/productController.js:128-151 | an update without files stores "" and empty lists, leaving the product invalid |
| ProductController.StockImagesNeverUsed | ecommerce-backend/controllers/productController.js:49-68 | the handler always passes the uploaded list, so the stock image default never applies |
| TestimonialModel.TestimonialValidMeans | ecommerce-backend/models/Testimonial.js:3-32 | a testimonial validates iff all five texts are non-empty and content has 10 to 500 characters |
| TestimonialModel.RatingDefault | ecommerce-backend/models/Testimonial.js:25-29 | rating defaults to the text "2" |
| TestimonialModel.ImageDefaultInvalid | ecommerce-backend/models/Testimonial.js:15-19 | image is required but defaults to "", so relying on the default fails validation |
| TestimonialController.TestimonialGuardMeans | ecommerce-backend/controllers/testimonialController.js:21-23 | the guard fails iff name, content, author or rating is not sent or empty, or no image was uploaded |
| TestimonialController.CreateTestimonial | ecommerce-backend/controllers/testimonialController.js:14-41 | no multipart files gives 500; 400 iff the guard fails; 201 iff the guard passes, the testimonial built from the sent fields and the image validates and the id is new; the stored testimonial is that built document |
| TestimonialController.GetTestimonialById | ecommerce-backend/controllers/testimonialController.js:56-73 | 500 iff the id is malformed; 404 iff absent; 200 with the stored testimonial; no write |
| TestimonialController.UpdateTestimonial | ecommerce-backend/controllers/testimonialController.js:76-108 | 500 iff no multipart files or a malformed id; 404 iff absent; on 200 the stored testimonial is the old one patched with the sent fields and always the new image |
| TestimonialController.DeleteTestimonial | ecommerce-backend/controllers/testimonialController.js:111-131 | 500 iff the id is malformed; 404 iff absent; otherwise only that testimonial is removed |
| TestimonialController.UpdateWithoutFileClearsImage | ecommerce-backend/controllers/testimonialController.js:82-96 | an update without a file stores "", leaving the testimonial invalid |
| TestimonialController.ContentLengthEnforced | ecommerce-backend/models/Testimonial.js:9-14 | content outside 10 to 500 characters is never stored |

## Left out

- **Concurrency.** Each handler works on one snapshot of its reads. The window between `findOne` and `save`, where two requests can overwrite each other, is not modelled.
- **Identifiers.** ObjectIds are plain strings. `ObjectId.isValid` and the id cast in `findById` are a parameter (`wellFormed`). The ObjectId format and `validateObjectId` are not part of this model.
- **Number-typed JSON fields.** `quantity`, `action`, `phone`, `petAge` and `totalAmount` are whole numbers. A client that sends them as strings, or as fractions, is not modelled.
- **Documents.CastNumber**: only "", digits, and digits after one leading '-' or '+' cast. Fractions, exponents, hexadecimal and texts padded with blanks are treated as cast errors, because amounts are whole numbers here. Floating point is out of scope.
- **TestimonialModel.TestimonialValidMeans**: the content length is counted in characters (Unicode scalar values), whereas the minlength and maxlength validators count UTF-16 code units. Text outside the Basic Multilingual Plane, such as emoji, therefore counts once here and twice in the source.
- **TestimonialController.ContentLengthEnforced**: states the 10 to 500 bound in characters, for the same reason as TestimonialValidMeans.
- **ProductModel.ProductValidMeans**: the `height` and `weight` paths of the Product schema are left out. They are Numbers with the defaults "4.3" and "", which involve floating point and a default that does not cast.
- **ProductController.CreateProduct**: since `height` and `weight` are left out, a body value for them that does not cast (such as "abc") is ignored, so the model answers 201 where the source's `save` fails with 500.
- **ProductController.UpdateProduct**: for the same reason, a `height` or `weight` that does not cast answers 200 in the model where the source's update fails with 500.
- **Mongoose internals.** `Patch` follows Mongoose 7 and later: keys left undefined are stripped from an update, and update validators do not run. Timestamps, `__v` and `populate` beyond the existence of the referenced document are not modelled.
- **Upload middleware.** The S3 client and the multer configuration are not modelled. `req.files` is an input, and `getUploadPath`'s clock reading is a parameter.
- **Routing.** Express routing, CORS and `server.js` start-up are not modelled. The routes' own inline handlers for finding by id are replaced by the controllers' handlers.
- **Handlers not in the core.** `getUserProfile`, the list handlers (`getPets`, `getProducts`, `getTestimonials`) and the admin routes are not part of this model.
- **Orders.** The Order schema is not part of this model, so an order's items are generic. The save failures of `createOrder` (500) are not modelled. `getUserOrders` takes the collection query as a parameter, because how an undefined filter value is treated is not visible here.
- **Tokens.** Token verification is the parameter `verify`. Claims other than `uid` are not modelled.
- **Responses.** Response bodies, messages and logging are not modelled. Only the status and what is written are.
- **UserController.UpdateCartQuantity**: after a second response attempt, the model ends the handler with the first status sent. What Express would log for the second attempt is not modelled.

## Findings

| source | as written | input that shows it | evidently intended | confidence | as-written member | corrected member |
|---|---|---|---|---|---|---|
| ecommerce-backend/controllers/userController.js:255-258 | on reaching quantity 0 the filter keeps the entries that equal the item and drops the rest; it calls `.equals` on a missing field | cart [p1×1, p2×2], action -1 on p1 leaves [p1×0]; cart [p1×1, pet d1] throws and answers 500 | remove only the entry that reached 0 | high; not executed | CartRules.ZeroBranchCounterexample | CartRules.IntendedRemovesOnlyTarget |
| ecommerce-backend/controllers/userController.js:241-288 | the helper's `return res.status(404)` only leaves the helper; the second call still updates and the cart is saved | productId and petId both present, itemId an existing pet: the client gets 404, and the cart gains the pet | stop the request at the 404 | high; not executed | UserController.NotFoundThenSaved | UserController.IntendedReplyProperties |
| ecommerce-backend/controllers/userController.js:186-200 | `populate("cart.productId", "cart.petId")` treats its second argument as a field selection, and the filter tests only productId | a cart holding one existing pet shows as empty | show pet entries as getWishlist does | medium; not executed | CartRules.PopulatedCartDropsPets | CartRules.PopulatedCartIntendedShowsAll |
| ecommerce-backend/controllers/orderController.js:31 | reads `req.user.firebaseUID`, but the decoded token carries `uid`, so the key is undefined for every caller | two callers with different uids get the same reply | look up the caller's own orders by the verified uid | high; not executed | OrderController.OrdersIgnoreCaller | OrderController.GetOwnOrders |
| ecommerce-backend/middleware/fileUpload.js:17-22 | tests the mount path for "products" and "testimonials", which the mount paths "/api/product" and "/api/testimonial" never contain | an upload through "/api/product" gets a key under "pets/" | one folder per router | high; not executed | FileUpload.MountedRoutesAllPets | FileUpload.IntendedFolderPerRoute |
