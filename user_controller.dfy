/** The profile, cart and wishlist handlers. Each handler runs on a snapshot:
    `user` is what `User.findOne({firebaseUID})` returns for the caller,
    `catalog` what `findById` can find, and `wellFormed` is
    `ObjectId.isValid`. A handler answers a status code and the record it
    writes back, if any (`None`: nothing is written). A body field the client
    leaves out is "" or 0, which every handler treats as absent. */
module UserController {
  import opened Common
  import opened UserModel
  import opened Entries
  import opened CartRules

  /** The body of the add and remove requests for carts and wishlists. */
  datatype ItemRequest = ItemRequest(productId: Id, petId: Id, quantity: int)

  /** The body of an updateCartQuantity request: `itemId` names the catalog
      item; `productId` and `petId` are only tested for presence. */
  datatype QuantityRequest = QuantityRequest(itemId: Id, action: int, productId: Id, petId: Id)

  /** A present id that `ObjectId.isValid` rejects. */
  predicate Malformed(id: Id, wellFormed: Id -> bool)
  {
    id != "" && !wellFormed(id)
  }

  /** A present id with no catalog item of that kind. */
  predicate Unknown(id: Id, k: Kind, catalog: Catalog)
  {
    id != "" && !catalog.Has(k, id)
  }

  // ---------------------------------------------------------------------
  // createProfile

  /** The profile fields of a createProfile body. */
  datatype ProfileRequest = ProfileRequest(
    name: string, email: string, phone: int,
    bio: string, petName: string, petType: string, petAge: int)

  datatype ProfileReply = ProfileReply(status: int, users: map<string, UserRecord>)

  /** createProfile for the caller whose token carries `uid`, over the stored
      profiles keyed by firebaseUID. A missing name, email or phone (phone 0 is
      falsy) answers 400; so does an existing profile for the uid. Saving a
      profile whose uid is empty (a required string) or whose email is taken
      (a unique index) fails and answers 500. Otherwise the profile is created
      with an empty cart and wishlist and the "user" role, keyed by the token's
      uid, not by anything in the body. */
  function CreateProfile(uid: string, body: ProfileRequest, users: map<string, UserRecord>): (r: ProfileReply)
    ensures r.status in {StatusBadRequest, StatusServerError, StatusCreated}
    ensures r.status == StatusBadRequest <==> body.name == "" || body.email == "" || body.phone == 0 || uid in users
    ensures r.status == StatusServerError <==>
      body.name != "" && body.email != "" && body.phone != 0 && uid !in users && (uid == "" || EmailTaken(users, body.email))
    ensures uid in users ==> r.users == users
    ensures r.status == StatusCreated <==>
      body.name != "" && body.email != "" && body.phone != 0 && uid != "" && uid !in users && !EmailTaken(users, body.email)
    ensures r.status == StatusCreated ==>
      r.users == users[uid := NewUser(uid, body.name, body.email, body.phone, body.bio, body.petName, body.petType, body.petAge)]
    ensures r.status != StatusCreated ==> r.users == users
    ensures StoreValid(users) ==> StoreValid(r.users)
  {
    if body.name == "" || body.email == "" || body.phone == 0 then ProfileReply(StatusBadRequest, users)
    else if uid in users then ProfileReply(StatusBadRequest, users)
    else if uid == "" || EmailTaken(users, body.email) then ProfileReply(StatusServerError, users)
    else
      var u := NewUser(uid, body.name, body.email, body.phone, body.bio, body.petName, body.petType, body.petAge);
      ProfileReply(StatusCreated, users[uid := u])
  }

  // ---------------------------------------------------------------------
  // addToCart

  /** The cart addToCart writes: the product step, then the pet step, each by
      `quantity || 1`. */
  function CartAfterAdd(cart: seq<CartEntry>, body: ItemRequest): seq<CartEntry>
  {
    var n := QuantityOrOne(body.quantity);
    var c := if body.productId != "" then Added(cart, ProductKind, body.productId, n) else cart;
    if body.petId != "" then Added(c, PetKind, body.petId, n) else c
  }

  /** addToCart never creates a second entry for a target, and afterwards each
      requested target has exactly one entry. */
  lemma CartAfterAddKeepsUnique(cart: seq<CartEntry>, body: ItemRequest)
    requires AtMostOnePerTarget(cart, EntryRefs)
    ensures AtMostOnePerTarget(CartAfterAdd(cart, body), EntryRefs)
    ensures body.petId != "" ==> |Targeting(CartAfterAdd(cart, body), EntryRefs, PetKind, body.petId)| == 1
    ensures body.productId != "" ==> |Targeting(CartAfterAdd(cart, body), EntryRefs, ProductKind, body.productId)| == 1
  {
    var n := QuantityOrOne(body.quantity);
    var c := if body.productId != "" then Added(cart, ProductKind, body.productId, n) else cart;
    if body.productId != "" {
      AddedKeepsUnique(cart, ProductKind, body.productId, n);
    }
    if body.petId != "" {
      AddedKeepsUnique(c, PetKind, body.petId, n);
      if body.productId != "" {
        PetStepKeepsProductEntry(c, body.productId, body.petId, n);
      }
    }
  }

  /** In a cart with one entry per target, the pet step leaves the entries for a
      product as they were. */
  lemma PetStepKeepsProductEntry(c: seq<CartEntry>, productId: Id, petId: Id, n: int)
    requires AtMostOnePerTarget(c, EntryRefs)
    requires |Targeting(c, EntryRefs, ProductKind, productId)| == 1
    ensures |Targeting(Added(c, PetKind, petId, n), EntryRefs, ProductKind, productId)| == 1
  {
    var i := IndexOf(c, EntryRefs, PetKind, petId);
    var r := Added(c, PetKind, petId, n);
    if i == -1 {
      var x := CartEntry(RefsTo(PetKind, petId), n);
      assert r == c + [x];
      TargetingOfConcat(c, [x], EntryRefs, ProductKind, productId);
      TargetingSingle(x, EntryRefs, ProductKind, productId);
    } else {
      var x := c[i].(quantity := c[i].quantity + n);
      assert r == c[..i] + [x] + c[i + 1..];
      TargetingSameRefs(c, i, x, EntryRefs, ProductKind, productId);
    }
  }

  /** One target's step as the handler runs it: `find`, then `+=` or `push`. */
  method RaiseOrPush(cart: seq<CartEntry>, k: Kind, id: Id, n: int) returns (r: seq<CartEntry>)
    ensures r == Added(cart, k, id, n)
  {
    var i := FindIndex(cart, EntryRefs, k, id);
    if i != -1 {
      r := cart[i := cart[i].(quantity := cart[i].quantity + n)];
    } else {
      r := cart + [CartEntry(RefsTo(k, id), n)];
    }
  }

  /** addToCart: a malformed id answers 400 and an id with no catalog item 404,
      both before the user is looked up; an unknown user answers 404. None of
      these writes anything. Otherwise the cart after both steps is written and
      the handler answers 200. */
  method AddToCart(body: ItemRequest, user: Option<UserRecord>, catalog: Catalog, wellFormed: Id -> bool)
    returns (status: int, saved: Option<UserRecord>)
    ensures status == StatusBadRequest <==> Malformed(body.productId, wellFormed) || Malformed(body.petId, wellFormed)
    ensures status == StatusNotFound <==>
      && !Malformed(body.productId, wellFormed) && !Malformed(body.petId, wellFormed)
      && (Unknown(body.productId, ProductKind, catalog) || Unknown(body.petId, PetKind, catalog) || user.None?)
    ensures status in {StatusOk, StatusBadRequest, StatusNotFound}
    ensures saved.Some? <==> status == StatusOk
    ensures saved.Some? ==> user.Some? && saved.value == user.value.(cart := CartAfterAdd(user.value.cart, body))
  {
    if body.productId != "" && !wellFormed(body.productId) {
      return StatusBadRequest, None;
    }
    if body.petId != "" && !wellFormed(body.petId) {
      return StatusBadRequest, None;
    }
    var product := body.productId != "" && catalog.Has(ProductKind, body.productId);
    var pet := body.petId != "" && catalog.Has(PetKind, body.petId);
    if body.productId != "" && !product {
      return StatusNotFound, None;
    }
    if body.petId != "" && !pet {
      return StatusNotFound, None;
    }
    if user.None? {
      return StatusNotFound, None;
    }
    var n := if body.quantity == 0 then 1 else body.quantity;
    var cart := user.value.cart;
    if product {
      cart := RaiseOrPush(cart, ProductKind, body.productId, n);
    }
    if pet {
      cart := RaiseOrPush(cart, PetKind, body.petId, n);
    }
    return StatusOk, Some(user.value.(cart := cart));
  }

  // ---------------------------------------------------------------------
  // updateCartQuantity

  /** The inner helper as the handler runs it: `findById`, `find`, `+=`, and the
      reassignment through `filter` when the quantity reaches 0 or below. */
  method UpdateItemInCart(cart: seq<CartEntry>, k: Kind, itemId: Id, action: int,
                          catalog: Catalog, wellFormed: Id -> bool) returns (o: ItemOutcome)
    ensures o == ItemStep(cart, k, itemId, action, catalog, wellFormed)
  {
    if !wellFormed(itemId) {
      return Threw;
    }
    if !catalog.Has(k, itemId) {
      return NotFound;
    }
    var i := FindIndex(cart, EntryRefs, k, itemId);
    if i != -1 {
      var c := cart[i := cart[i].(quantity := cart[i].quantity + action)];
      if c[i].quantity <= 0 {
        var ok, kept := KeepTargeting(c, EntryRefs, k, itemId);
        if !ok {
          return Threw;
        }
        c := kept;
      }
      return Changed(c);
    } else if action > 0 {
      return Changed(cart + [CartEntry(RefsTo(k, itemId), 1)]);
    }
    return Unchanged;
  }

  /** What the handler has done after a call of the inner helper: the response
      already sent (the first one wins), whether it has stopped on an
      exception, the `itemUpdated` flag, and the cart in memory. */
  datatype Progress = Progress(sent: Option<int>, aborted: bool, updated: bool, cart: seq<CartEntry>)

  /** The status the client sees: the first response sent. */
  function Respond(sent: Option<int>, status: int): int
  {
    if sent.Some? then sent.value else status
  }

  /** The helper's `return res.status(...)` answers the client but only ends the
      helper; a second response attempt throws, which ends the handler. */
  function Send(p: Progress, status: int): Progress
  {
    if p.sent.None? then p.(sent := Some(status)) else p.(aborted := true)
  }

  /** One helper call's effect on the handler. An exception ends the handler in
      its catch block, which answers 500 unless a response was already sent. */
  function Apply(p: Progress, o: ItemOutcome): Progress
  {
    if p.aborted then p
    else
      match o
      case Threw => p.(aborted := true, sent := Some(Respond(p.sent, StatusServerError)))
      case NotFound => Send(p, StatusNotFound)
      case Changed(c) => p.(updated := true, cart := c)
      case Unchanged => p
  }

  /** The status the client sees and the cart written, if any. */
  datatype Reply = Reply(status: int, saved: Option<seq<CartEntry>>)

  /** updateCartQuantity after its guards and the user lookup: the product
      call (when productId is present), then the pet call (when petId is
      present), both on `itemId`; without an update it answers 400, otherwise
      it saves and answers 200, the first response sent winning each time. */
  function QuantityReply(body: QuantityRequest, cart: seq<CartEntry>, catalog: Catalog, wellFormed: Id -> bool): Reply
  {
    var p0 := Progress(None, false, false, cart);
    var p1 := if body.productId != "" then Apply(p0, ItemStep(p0.cart, ProductKind, body.itemId, body.action, catalog, wellFormed)) else p0;
    var p2 := if body.petId != "" then Apply(p1, ItemStep(p1.cart, PetKind, body.itemId, body.action, catalog, wellFormed)) else p1;
    if p2.aborted then Reply(Respond(p2.sent, StatusServerError), None)
    else if !p2.updated then Reply(Respond(p2.sent, StatusBadRequest), None)
    else Reply(Respond(p2.sent, StatusOk), Some(p2.cart))
  }

  /** The action is exactly +1 or -1 and an itemId is present. */
  predicate QuantityRequestValid(body: QuantityRequest)
  {
    (body.action == 1 || body.action == -1) && body.itemId != ""
  }

  /** updateCartQuantity: an action other than exactly 1 or -1, or a missing
      itemId, answers 400 and an unknown user 404, with nothing written; then
      the cart is updated as `QuantityReply` states. */
  method UpdateCartQuantity(body: QuantityRequest, user: Option<UserRecord>, catalog: Catalog, wellFormed: Id -> bool)
    returns (status: int, saved: Option<UserRecord>)
    ensures !QuantityRequestValid(body) ==> status == StatusBadRequest && saved.None?
    ensures QuantityRequestValid(body) && user.None? ==> status == StatusNotFound && saved.None?
    ensures QuantityRequestValid(body) && user.Some? ==>
      var r := QuantityReply(body, user.value.cart, catalog, wellFormed);
      && status == r.status
      && (saved.Some? <==> r.saved.Some?)
      && (saved.Some? ==> saved.value == user.value.(cart := r.saved.value))
  {
    if body.action != 1 && body.action != -1 {
      return StatusBadRequest, None;
    }
    if body.itemId == "" {
      return StatusBadRequest, None;
    }
    if user.None? {
      return StatusNotFound, None;
    }
    var sent: Option<int> := None;
    var updated := false;
    var cart := user.value.cart;
    ghost var p := Progress(None, false, false, cart);
    if body.productId != "" {
      var o := UpdateItemInCart(cart, ProductKind, body.itemId, body.action, catalog, wellFormed);
      p := Apply(p, o);
      match o {
        case Threw =>
          return StatusServerError, None;
        case NotFound =>
          sent := Some(StatusNotFound);
        case Changed(c) =>
          cart := c;
          updated := true;
        case Unchanged =>
      }
    }
    assert p == Progress(sent, false, updated, cart);
    if body.petId != "" {
      var o := UpdateItemInCart(cart, PetKind, body.itemId, body.action, catalog, wellFormed);
      p := Apply(p, o);
      match o {
        case Threw =>
          return Respond(sent, StatusServerError), None;
        case NotFound =>
          if sent.Some? {
            return sent.value, None;
          }
          sent := Some(StatusNotFound);
        case Changed(c) =>
          cart := c;
          updated := true;
        case Unchanged =>
      }
    }
    if !updated {
      return Respond(sent, StatusBadRequest), None;
    }
    return Respond(sent, StatusOk), Some(user.value.(cart := cart));
  }

  /** With only one of productId and petId present, the handler answers what
      the one helper call gives: 500 on an exception, 404 for an id with no
      catalog item, 400 when nothing changed, and 200 with the changed cart
      written; every error answer writes nothing. */
  lemma SingleKindReply(body: QuantityRequest, cart: seq<CartEntry>, catalog: Catalog, wellFormed: Id -> bool)
    requires (body.productId != "") != (body.petId != "")
    ensures var k := if body.productId != "" then ProductKind else PetKind;
      var o := ItemStep(cart, k, body.itemId, body.action, catalog, wellFormed);
      var r := QuantityReply(body, cart, catalog, wellFormed);
      && (r.status == StatusOk <==> r.saved.Some?)
      && (o.Changed? ==> r == Reply(StatusOk, Some(o.cart)))
      && (o.Threw? ==> r == Reply(StatusServerError, None))
      && (o.NotFound? ==> r == Reply(StatusNotFound, None))
      && (o.Unchanged? ==> r == Reply(StatusBadRequest, None))
  {
  }

  /** With neither productId nor petId present, nothing is updated: 400. */
  lemma NoKindReply(body: QuantityRequest, cart: seq<CartEntry>, catalog: Catalog, wellFormed: Id -> bool)
    requires body.productId == "" && body.petId == ""
    ensures QuantityReply(body, cart, catalog, wellFormed) == Reply(StatusBadRequest, None)
  {
  }

  /** Whatever the request, the written cart keeps one entry per target. */
  lemma QuantityReplyKeepsUnique(body: QuantityRequest, cart: seq<CartEntry>, catalog: Catalog, wellFormed: Id -> bool)
    requires AtMostOnePerTarget(cart, EntryRefs)
    ensures QuantityReply(body, cart, catalog, wellFormed).saved.Some? ==>
      AtMostOnePerTarget(QuantityReply(body, cart, catalog, wellFormed).saved.value, EntryRefs)
  {
    var p0 := Progress(None, false, false, cart);
    var p1 := if body.productId != "" then Apply(p0, ItemStep(p0.cart, ProductKind, body.itemId, body.action, catalog, wellFormed)) else p0;
    AdjustedKeepsUnique(cart, ProductKind, body.itemId, body.action);
    assert AtMostOnePerTarget(p1.cart, EntryRefs);
    AdjustedKeepsUnique(p1.cart, PetKind, body.itemId, body.action);
  }

  function AnyId(id: Id): bool
  {
    true
  }

  /** With both productId and petId present and `itemId` naming a pet, the
      product call answers 404 and the pet call still updates the cart, which
      is then written: an error answer with a write behind it. */
  lemma NotFoundThenSaved()
    ensures var body := QuantityRequest("d1", 1, "x", "x");
      QuantityReply(body, [], Catalog({}, {"d1"}), AnyId)
        == Reply(StatusNotFound, Some([CartEntry(RefsTo(PetKind, "d1"), 1)]))
  {
    var body := QuantityRequest("d1", 1, "x", "x");
    var catalog := Catalog({}, {"d1"});
    var p0 := Progress(None, false, false, []);
    assert ItemStep([], ProductKind, "d1", 1, catalog, AnyId) == NotFound;
    var p1 := Apply(p0, NotFound);
    assert p1 == Progress(Some(StatusNotFound), false, false, []);
    var entry := CartEntry(RefsTo(PetKind, "d1"), 1);
    assert IndexOf([], EntryRefs, PetKind, "d1") == -1;
    assert ItemStep([], PetKind, "d1", 1, catalog, AnyId) == Changed([] + [entry]);
    var p2 := Apply(p1, Changed([entry]));
    assert p2 == Progress(Some(StatusNotFound), false, true, [entry]);
    assert body.productId != "" && body.petId != "";
    var q1 := if body.productId != "" then Apply(p0, ItemStep(p0.cart, ProductKind, body.itemId, body.action, catalog, AnyId)) else p0;
    assert q1 == p1;
    var q2 := if body.petId != "" then Apply(q1, ItemStep(q1.cart, PetKind, body.itemId, body.action, catalog, AnyId)) else q1;
    assert q2 == p2;
  }

  /** updateCartQuantity as evidently intended: the helper's 404 ends the
      request, and reaching quantity 0 drops only that entry. */
  function QuantityReplyIntended(body: QuantityRequest, cart: seq<CartEntry>, catalog: Catalog, wellFormed: Id -> bool): Reply
  {
    var o1 := if body.productId != "" then ItemStepIntended(cart, ProductKind, body.itemId, body.action, catalog, wellFormed) else Unchanged;
    if o1.Threw? then Reply(StatusServerError, None)
    else if o1.NotFound? then Reply(StatusNotFound, None)
    else
      var c1 := if o1.Changed? then o1.cart else cart;
      var o2 := if body.petId != "" then ItemStepIntended(c1, PetKind, body.itemId, body.action, catalog, wellFormed) else Unchanged;
      if o2.Threw? then Reply(StatusServerError, None)
      else if o2.NotFound? then Reply(StatusNotFound, None)
      else if !o1.Changed? && !o2.Changed? then Reply(StatusBadRequest, None)
      else Reply(StatusOk, Some(if o2.Changed? then o2.cart else c1))
  }

  /** Intended: every error answer comes before any write, and a ±1 update of
      a cart with positive quantities and one entry per target keeps both. */
  lemma IntendedReplyProperties(body: QuantityRequest, cart: seq<CartEntry>, catalog: Catalog, wellFormed: Id -> bool)
    requires body.action == 1 || body.action == -1
    ensures var r := QuantityReplyIntended(body, cart, catalog, wellFormed);
      r.status == StatusOk <==> r.saved.Some?
    ensures AllPositive(cart) && AtMostOnePerTarget(cart, EntryRefs) ==>
      var r := QuantityReplyIntended(body, cart, catalog, wellFormed);
      r.saved.Some? ==> AllPositive(r.saved.value) && AtMostOnePerTarget(r.saved.value, EntryRefs)
  {
    if AllPositive(cart) && AtMostOnePerTarget(cart, EntryRefs) {
      IntendedKeepsPositive(cart, ProductKind, body.itemId, body.action);
      var o1 := if body.productId != "" then ItemStepIntended(cart, ProductKind, body.itemId, body.action, catalog, wellFormed) else Unchanged;
      var c1 := if o1.Changed? then o1.cart else cart;
      IntendedKeepsPositive(c1, PetKind, body.itemId, body.action);
    }
  }

  // ---------------------------------------------------------------------
  // removeFromCart

  /** The cart removeFromCart writes: the first product entry spliced out, then
      the first pet entry; `None` when a requested target is not in the cart
      (404). */
  function CartAfterRemove(cart: seq<CartEntry>, body: ItemRequest): Option<seq<CartEntry>>
  {
    var p := WithoutFirst(cart, EntryRefs, ProductKind, body.productId);
    if body.productId != "" && p.0 == [] then None
    else
      var c := if body.productId != "" then p.1 else cart;
      var q := WithoutFirst(c, EntryRefs, PetKind, body.petId);
      if body.petId != "" && q.0 == [] then None
      else Some(if body.petId != "" then q.1 else c)
  }

  /** removeFromCart: a malformed id answers 400, an unknown user or a requested
      target not in the cart 404, none of them writing anything; otherwise the
      spliced cart is written and the handler answers 200. */
  method RemoveFromCart(body: ItemRequest, user: Option<UserRecord>, wellFormed: Id -> bool)
    returns (status: int, saved: Option<UserRecord>)
    ensures status == StatusBadRequest <==> Malformed(body.productId, wellFormed) || Malformed(body.petId, wellFormed)
    ensures status == StatusNotFound <==>
      && !Malformed(body.productId, wellFormed) && !Malformed(body.petId, wellFormed)
      && (user.None? || CartAfterRemove(user.value.cart, body).None?)
    ensures status in {StatusOk, StatusBadRequest, StatusNotFound}
    ensures saved.Some? <==> status == StatusOk
    ensures saved.Some? ==>
      && user.Some? && CartAfterRemove(user.value.cart, body).Some?
      && saved.value == user.value.(cart := CartAfterRemove(user.value.cart, body).value)
  {
    if body.productId != "" && !wellFormed(body.productId) {
      return StatusBadRequest, None;
    }
    if body.petId != "" && !wellFormed(body.petId) {
      return StatusBadRequest, None;
    }
    if user.None? {
      return StatusNotFound, None;
    }
    var cart := user.value.cart;
    if body.productId != "" {
      var i := FindIndex(cart, EntryRefs, ProductKind, body.productId);
      if i == -1 {
        return StatusNotFound, None;
      }
      cart := Spliced(cart, i);
    }
    if body.petId != "" {
      var i := FindIndex(cart, EntryRefs, PetKind, body.petId);
      if i == -1 {
        return StatusNotFound, None;
      }
      cart := Spliced(cart, i);
    }
    return StatusOk, Some(user.value.(cart := cart));
  }

  /** In a cart with one entry per target, a successful removal leaves that
      shape and no entry for a requested target, so repeating the same request
      answers 404. */
  lemma RemoveTwiceFails(cart: seq<CartEntry>, body: ItemRequest)
    requires AtMostOnePerTarget(cart, EntryRefs)
    requires body.productId != "" || body.petId != ""
    requires CartAfterRemove(cart, body).Some?
    ensures AtMostOnePerTarget(CartAfterRemove(cart, body).value, EntryRefs)
    ensures CartAfterRemove(CartAfterRemove(cart, body).value, body).None?
  {
    var c := if body.productId != "" then WithoutFirst(cart, EntryRefs, ProductKind, body.productId).1 else cart;
    WithoutFirstProperties(cart, EntryRefs, ProductKind, body.productId);
    WithoutFirstProperties(c, EntryRefs, PetKind, body.petId);
    var r := CartAfterRemove(cart, body).value;
    if body.productId != "" {
      if body.petId != "" {
        var j := IndexOf(c, EntryRefs, PetKind, body.petId);
        SpliceKeepsAbsent(c, j, EntryRefs, ProductKind, body.productId);
      }
      assert IndexOf(r, EntryRefs, ProductKind, body.productId) == -1;
      WithoutFirstProperties(r, EntryRefs, ProductKind, body.productId);
    } else {
      WithoutFirstProperties(r, EntryRefs, PetKind, body.petId);
    }
  }

  // ---------------------------------------------------------------------
  // getCart

  /** What a read handler answers: a status and the entries returned, if any. */
  datatype View<T> = View(status: int, items: Option<seq<T>>)

  /** getCart: 404 for an unknown user; otherwise 200 with the entries whose
      product exists, in order (an empty cart answers 200 with no entries). It
      writes nothing. */
  function GetCart(user: Option<UserRecord>, catalog: Catalog): (r: View<CartEntry>)
    ensures user.None? ==> r == View(StatusNotFound, None)
    ensures user.Some? ==>
      && r.status == StatusOk && r.items.Some?
      && (forall e :: e in r.items.value <==> e in user.value.cart && catalog.Resolves(ProductKind, e.refs.productId))
    ensures user.Some? ==> r.items == Some(PopulatedCart(user.value.cart, catalog))
  {
    if user.None? then View(StatusNotFound, None)
    else if |user.value.cart| == 0 then View(StatusOk, Some([]))
    else View(StatusOk, Some(PopulatedCart(user.value.cart, catalog)))
  }

  /** getCart keeps the cart's order: splitting the cart in two splits the
      entries shown in the same place. */
  lemma GetCartInOrder(user: UserRecord, catalog: Catalog, a: seq<CartEntry>, b: seq<CartEntry>)
    requires user.cart == a + b
    ensures GetCart(Some(user), catalog).items.value == PopulatedCart(a, catalog) + PopulatedCart(b, catalog)
  {
    PopulatedCartConcat(a, b, catalog);
  }

  // ---------------------------------------------------------------------
  // addToWishlist

  /** The wishlist addToWishlist writes: the product listed, then the pet. */
  function WishlistAfterAdd(wl: seq<WishlistEntry>, body: ItemRequest): seq<WishlistEntry>
  {
    var w := if body.productId != "" then Listed(wl, ProductKind, body.productId) else wl;
    if body.petId != "" then Listed(w, PetKind, body.petId) else w
  }

  /** Listing keeps every target that was already listed. */
  lemma ListedKeepsPresent(wl: seq<WishlistEntry>, k: Kind, id: Id, k': Kind, id': Id)
    requires IndexOf(wl, WishRefs, k', id') != -1
    ensures IndexOf(Listed(wl, k, id), WishRefs, k', id') != -1
  {
    ListedProperties(wl, k, id);
    var i := IndexOf(wl, WishRefs, k', id');
    assert Listed(wl, k, id)[i] == wl[i];
  }

  /** addToWishlist lists every requested target, never lists one twice, keeps
      the old entries first and in order, and repeating it changes nothing. */
  lemma WishlistAfterAddProperties(wl: seq<WishlistEntry>, body: ItemRequest)
    ensures var r := WishlistAfterAdd(wl, body);
      && (body.productId != "" ==> IndexOf(r, WishRefs, ProductKind, body.productId) != -1)
      && (body.petId != "" ==> IndexOf(r, WishRefs, PetKind, body.petId) != -1)
      && |wl| <= |r| && r[..|wl|] == wl
      && WishlistAfterAdd(r, body) == r
    ensures AtMostOnePerTarget(wl, WishRefs) ==> AtMostOnePerTarget(WishlistAfterAdd(wl, body), WishRefs)
  {
    WishlistAfterAddLists(wl, body);
    WishlistAfterAddIdempotent(wl, body);
    WishlistAfterAddExtends(wl, body);
    if AtMostOnePerTarget(wl, WishRefs) {
      WishlistAfterAddKeepsUnique(wl, body);
    }
  }

  lemma WishlistAfterAddExtends(wl: seq<WishlistEntry>, body: ItemRequest)
    ensures var r := WishlistAfterAdd(wl, body);
      |wl| <= |r| && r[..|wl|] == wl
  {
    var w := if body.productId != "" then Listed(wl, ProductKind, body.productId) else wl;
    var r := WishlistAfterAdd(wl, body);
    if body.productId != "" {
      ListedExtends(wl, ProductKind, body.productId);
    }
    if body.petId != "" {
      ListedExtends(w, PetKind, body.petId);
      PrefixOfPrefix(wl, w, r);
    }
  }

  lemma ListedExtends(wl: seq<WishlistEntry>, k: Kind, id: Id)
    ensures |wl| <= |Listed(wl, k, id)| && Listed(wl, k, id)[..|wl|] == wl
  {
    ListedProperties(wl, k, id);
  }

  lemma PrefixOfPrefix<T>(a: seq<T>, b: seq<T>, c: seq<T>)
    requires |a| <= |b| && b[..|a|] == a
    requires |b| <= |c| && c[..|b|] == b
    ensures |a| <= |c| && c[..|a|] == a
  {
    assert c[..|a|] == c[..|b|][..|a|];
  }

  lemma WishlistAfterAddKeepsUnique(wl: seq<WishlistEntry>, body: ItemRequest)
    requires AtMostOnePerTarget(wl, WishRefs)
    ensures AtMostOnePerTarget(WishlistAfterAdd(wl, body), WishRefs)
  {
    var w := if body.productId != "" then Listed(wl, ProductKind, body.productId) else wl;
    if body.productId != "" {
      ListedProperties(wl, ProductKind, body.productId);
    }
    if body.petId != "" {
      ListedProperties(w, PetKind, body.petId);
    }
  }

  lemma WishlistAfterAddLists(wl: seq<WishlistEntry>, body: ItemRequest)
    ensures var r := WishlistAfterAdd(wl, body);
      && (body.productId != "" ==> IndexOf(r, WishRefs, ProductKind, body.productId) != -1)
      && (body.petId != "" ==> IndexOf(r, WishRefs, PetKind, body.petId) != -1)
  {
    var w := if body.productId != "" then Listed(wl, ProductKind, body.productId) else wl;
    if body.productId != "" {
      ListedProperties(wl, ProductKind, body.productId);
    }
    if body.petId != "" {
      ListedProperties(w, PetKind, body.petId);
      if body.productId != "" {
        ListedKeepsPresent(w, PetKind, body.petId, ProductKind, body.productId);
      }
    }
  }

  lemma WishlistAfterAddIdempotent(wl: seq<WishlistEntry>, body: ItemRequest)
    ensures WishlistAfterAdd(WishlistAfterAdd(wl, body), body) == WishlistAfterAdd(wl, body)
  {
    var r := WishlistAfterAdd(wl, body);
    WishlistAfterAddLists(wl, body);
    if body.productId != "" {
      assert Listed(r, ProductKind, body.productId) == r;
    }
    if body.petId != "" {
      assert Listed(r, PetKind, body.petId) == r;
    }
  }

  /** One target's step as the handler runs it: `find`, and a `push` when the
      target is not listed yet (the `+=` on an existing entry stores nothing). */
  method ListItem(wl: seq<WishlistEntry>, k: Kind, id: Id) returns (r: seq<WishlistEntry>)
    ensures r == Listed(wl, k, id)
  {
    var i := FindIndex(wl, WishRefs, k, id);
    r := wl;
    if i == -1 {
      r := wl + [RefsTo(k, id)];
    }
  }

  /** addToWishlist: a malformed id answers 400; then the user is looked up
      before the catalog, and an unknown user or an id with no catalog item
      answers 404; none of these writes anything. Otherwise the wishlist with
      the targets listed is written and the handler answers 200. */
  method AddToWishlist(body: ItemRequest, user: Option<UserRecord>, catalog: Catalog, wellFormed: Id -> bool)
    returns (status: int, saved: Option<UserRecord>)
    ensures status == StatusBadRequest <==> Malformed(body.productId, wellFormed) || Malformed(body.petId, wellFormed)
    ensures status == StatusNotFound <==>
      && !Malformed(body.productId, wellFormed) && !Malformed(body.petId, wellFormed)
      && (user.None? || Unknown(body.productId, ProductKind, catalog) || Unknown(body.petId, PetKind, catalog))
    ensures status in {StatusOk, StatusBadRequest, StatusNotFound}
    ensures saved.Some? <==> status == StatusOk
    ensures saved.Some? ==> user.Some? && saved.value == user.value.(wishlist := WishlistAfterAdd(user.value.wishlist, body))
  {
    if body.productId != "" && !wellFormed(body.productId) {
      return StatusBadRequest, None;
    }
    if body.petId != "" && !wellFormed(body.petId) {
      return StatusBadRequest, None;
    }
    if user.None? {
      return StatusNotFound, None;
    }
    if body.productId != "" && !catalog.Has(ProductKind, body.productId) {
      return StatusNotFound, None;
    }
    if body.petId != "" && !catalog.Has(PetKind, body.petId) {
      return StatusNotFound, None;
    }
    var wl := user.value.wishlist;
    if body.productId != "" {
      wl := ListItem(wl, ProductKind, body.productId);
    }
    if body.petId != "" {
      wl := ListItem(wl, PetKind, body.petId);
    }
    return StatusOk, Some(user.value.(wishlist := wl));
  }

  // ---------------------------------------------------------------------
  // getWishlist

  /** getWishlist: 404 for an unknown user; an empty wishlist answers 200 with
      no entries at all; otherwise 200 with the entries whose product or pet
      exists, in order. It writes nothing. */
  function GetWishlist(user: Option<UserRecord>, catalog: Catalog): (r: View<WishlistEntry>)
    ensures user.None? ==> r == View(StatusNotFound, None)
    ensures user.Some? ==> r.status == StatusOk && (r.items.None? <==> user.value.wishlist == [])
    ensures user.Some? && r.items.Some? ==> forall e :: e in r.items.value <==>
      e in user.value.wishlist && (catalog.Resolves(ProductKind, e.productId) || catalog.Resolves(PetKind, e.petId))
    ensures user.Some? && r.items.Some? ==> r.items.value == PopulatedWishlist(user.value.wishlist, catalog)
  {
    if user.None? then View(StatusNotFound, None)
    else if |user.value.wishlist| == 0 then View(StatusOk, None)
    else View(StatusOk, Some(PopulatedWishlist(user.value.wishlist, catalog)))
  }

  /** getWishlist keeps the wishlist's order: splitting a non-empty wishlist in
      two splits the entries shown in the same place. */
  lemma GetWishlistInOrder(user: UserRecord, catalog: Catalog, a: seq<WishlistEntry>, b: seq<WishlistEntry>)
    requires user.wishlist == a + b && user.wishlist != []
    ensures GetWishlist(Some(user), catalog).items.value == PopulatedWishlist(a, catalog) + PopulatedWishlist(b, catalog)
  {
    PopulatedWishlistConcat(a, b, catalog);
  }

  // ---------------------------------------------------------------------
  // removeFromWishlist

  /** removeFromWishlist's `removedItems` and the wishlist it writes: the
      first product entry spliced out, then the first pet entry, an absent
      target being skipped. */
  function WishlistAfterRemove(wl: seq<WishlistEntry>, body: ItemRequest): (seq<WishlistEntry>, seq<WishlistEntry>)
  {
    var p := if body.productId != "" then WithoutFirst(wl, WishRefs, ProductKind, body.productId) else ([], wl);
    var q := if body.petId != "" then WithoutFirst(p.1, WishRefs, PetKind, body.petId) else ([], p.1);
    (p.0 + q.0, q.1)
  }

  /** removeFromWishlist loses exactly the removed entries and keeps the
      others; it leaves the wishlist as it was when no requested target is
      listed. */
  lemma WishlistAfterRemoveProperties(wl: seq<WishlistEntry>, body: ItemRequest)
    ensures multiset(WishlistAfterRemove(wl, body).0) + multiset(WishlistAfterRemove(wl, body).1) == multiset(wl)
    ensures |WishlistAfterRemove(wl, body).0| <= 2
    ensures WishlistAfterRemove(wl, body).0 == [] ==> WishlistAfterRemove(wl, body).1 == wl
  {
    var p: (seq<WishlistEntry>, seq<WishlistEntry>) := ([], wl);
    if body.productId != "" {
      p := WithoutFirst(wl, WishRefs, ProductKind, body.productId);
      WithoutFirstProperties(wl, WishRefs, ProductKind, body.productId);
    }
    var q: (seq<WishlistEntry>, seq<WishlistEntry>) := ([], p.1);
    if body.petId != "" {
      q := WithoutFirst(p.1, WishRefs, PetKind, body.petId);
      WithoutFirstProperties(p.1, WishRefs, PetKind, body.petId);
    }
    assert WishlistAfterRemove(wl, body) == (p.0 + q.0, q.1);
    assert multiset(p.0 + q.0) == multiset(p.0) + multiset(q.0);
  }

  /** removeFromWishlist keeps the order of the entries it does not remove:
      those targeting none of the requested ids stand in the written wishlist
      exactly as they stood before. */
  lemma WishlistAfterRemoveKeepsOrder(wl: seq<WishlistEntry>, body: ItemRequest)
    ensures Untargeted(WishlistAfterRemove(wl, body).1, body) == Untargeted(wl, body)
  {
    var p := if body.productId != "" then WithoutFirst(wl, WishRefs, ProductKind, body.productId) else ([], wl);
    var q := if body.petId != "" then WithoutFirst(p.1, WishRefs, PetKind, body.petId) else ([], p.1);
    assert WishlistAfterRemove(wl, body).1 == q.1;
    WithoutFirstProperties(wl, WishRefs, ProductKind, body.productId);
    WithoutFirstProperties(p.1, WishRefs, PetKind, body.petId);
    if body.productId != "" && body.petId != "" {
      calc {
        Untargeted(q.1, body);
        Others(Others(q.1, WishRefs, ProductKind, body.productId), WishRefs, PetKind, body.petId);
        { OthersCommute(q.1, WishRefs, ProductKind, body.productId, PetKind, body.petId); }
        Others(Others(p.1, WishRefs, PetKind, body.petId), WishRefs, ProductKind, body.productId);
        { OthersCommute(p.1, WishRefs, PetKind, body.petId, ProductKind, body.productId); }
        Others(Others(wl, WishRefs, ProductKind, body.productId), WishRefs, PetKind, body.petId);
      }
    }
  }

  /** The wishlist entries that target none of the requested ids, in order. */
  function Untargeted(wl: seq<WishlistEntry>, body: ItemRequest): seq<WishlistEntry>
  {
    var p := if body.productId != "" then Others(wl, WishRefs, ProductKind, body.productId) else wl;
    if body.petId != "" then Others(p, WishRefs, PetKind, body.petId) else p
  }

  /** The removed entries are the requested targets' entries, the product's
      first. */
  lemma WishlistRemovedEntries(wl: seq<WishlistEntry>, body: ItemRequest)
    ensures body.productId != "" && IndexOf(wl, WishRefs, ProductKind, body.productId) != -1 ==>
      WishlistAfterRemove(wl, body).0[0] == wl[IndexOf(wl, WishRefs, ProductKind, body.productId)]
    ensures forall e :: e in WishlistAfterRemove(wl, body).0 ==>
      (body.productId != "" && Targets(WishRefs, e, ProductKind, body.productId)) ||
      (body.petId != "" && Targets(WishRefs, e, PetKind, body.petId))
  {
    var p: (seq<WishlistEntry>, seq<WishlistEntry>) := ([], wl);
    if body.productId != "" {
      p := WithoutFirst(wl, WishRefs, ProductKind, body.productId);
    }
    var q: (seq<WishlistEntry>, seq<WishlistEntry>) := ([], p.1);
    if body.petId != "" {
      q := WithoutFirst(p.1, WishRefs, PetKind, body.petId);
    }
    assert WishlistAfterRemove(wl, body) == (p.0 + q.0, q.1);
    assert forall e :: e in p.0 + q.0 ==> e in p.0 || e in q.0;
  }

  /** With one entry per target, removeFromWishlist leaves no requested target
      listed and keeps that shape. */
  lemma WishlistAfterRemoveLeavesNone(wl: seq<WishlistEntry>, body: ItemRequest)
    requires AtMostOnePerTarget(wl, WishRefs)
    ensures var rest := WishlistAfterRemove(wl, body).1;
      && AtMostOnePerTarget(rest, WishRefs)
      && (body.productId != "" ==> IndexOf(rest, WishRefs, ProductKind, body.productId) == -1)
      && (body.petId != "" ==> IndexOf(rest, WishRefs, PetKind, body.petId) == -1)
  {
    var p := if body.productId != "" then WithoutFirst(wl, WishRefs, ProductKind, body.productId) else ([], wl);
    WithoutFirstProperties(wl, WishRefs, ProductKind, body.productId);
    WithoutFirstProperties(p.1, WishRefs, PetKind, body.petId);
    var q := if body.petId != "" then WithoutFirst(p.1, WishRefs, PetKind, body.petId) else ([], p.1);
    if body.productId != "" && body.petId != "" && q.0 != [] {
      var j := IndexOf(p.1, WishRefs, PetKind, body.petId);
      SpliceKeepsAbsent(p.1, j, WishRefs, ProductKind, body.productId);
    }
  }

  /** removeFromWishlist: a malformed id answers 400 and an unknown user 404,
      with nothing written; otherwise the wishlist is written, an absent target
      counting as success, and the handler answers 200 with the entries it
      removed. */
  method RemoveFromWishlist(body: ItemRequest, user: Option<UserRecord>, wellFormed: Id -> bool)
    returns (status: int, removedItems: seq<WishlistEntry>, saved: Option<UserRecord>)
    ensures status == StatusBadRequest <==> Malformed(body.productId, wellFormed) || Malformed(body.petId, wellFormed)
    ensures status == StatusNotFound <==>
      !Malformed(body.productId, wellFormed) && !Malformed(body.petId, wellFormed) && user.None?
    ensures status in {StatusOk, StatusBadRequest, StatusNotFound}
    ensures saved.Some? <==> status == StatusOk
    ensures saved.Some? ==> user.Some?
    ensures saved.Some? && user.Some? ==>
      var (removed, rest) := WishlistAfterRemove(user.value.wishlist, body);
      removedItems == removed && saved.value == user.value.(wishlist := rest)
  {
    if body.productId != "" && !wellFormed(body.productId) {
      return StatusBadRequest, [], None;
    }
    if body.petId != "" && !wellFormed(body.petId) {
      return StatusBadRequest, [], None;
    }
    if user.None? {
      return StatusNotFound, [], None;
    }
    var wl := user.value.wishlist;
    removedItems := [];
    if body.productId != "" {
      var i := FindIndex(wl, WishRefs, ProductKind, body.productId);
      if i != -1 {
        removedItems := removedItems + [wl[i]];
        wl := Spliced(wl, i);
      }
    }
    if body.petId != "" {
      var i := FindIndex(wl, WishRefs, PetKind, body.petId);
      if i != -1 {
        removedItems := removedItems + [wl[i]];
        wl := Spliced(wl, i);
      }
    }
    return StatusOk, removedItems, Some(user.value.(wishlist := wl));
  }
}
