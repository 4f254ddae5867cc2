/** What the cart and wishlist handlers do to a list of subdocuments, one
    target at a time, stated as functions; the handlers in `UserController`
    are proved against them. */
module CartRules {
  import opened Common
  import opened UserModel
  import opened Entries

  /** `quantity || 1`: a request quantity of 0 (or none) counts as 1; any other
      number, negative ones included, is taken as it is. */
  function QuantityOrOne(q: int): (n: int)
    ensures n != 0
    ensures q != 0 ==> n == q
  {
    if q == 0 then 1 else q
  }

  /** The quantity the cart holds for a target: that of its first entry, or 0. */
  function QuantityOf(cart: seq<CartEntry>, k: Kind, id: Id): int
  {
    var i := IndexOf(cart, EntryRefs, k, id);
    if i == -1 then 0 else cart[i].quantity
  }

  /** Every entry has a positive quantity. */
  predicate AllPositive(cart: seq<CartEntry>)
  {
    forall j :: 0 <= j < |cart| ==> cart[j].quantity > 0
  }

  // ---------------------------------------------------------------------
  // addToCart

  /** One target's step of addToCart: the first entry for the target goes up
      by `n`; without one, an entry `{target, n}` is pushed at the end. */
  function Added(cart: seq<CartEntry>, k: Kind, id: Id, n: int): seq<CartEntry>
  {
    var i := IndexOf(cart, EntryRefs, k, id);
    if i == -1 then cart + [CartEntry(RefsTo(k, id), n)]
    else cart[i := cart[i].(quantity := cart[i].quantity + n)]
  }

  /** After adding, the target is in the cart with its old quantity (0 when it
      was absent) plus `n`; every other entry keeps its place and its value;
      the cart grows only when the target was absent, by one entry at the end. */
  lemma AddedRaisesTarget(cart: seq<CartEntry>, k: Kind, id: Id, n: int)
    ensures var r := Added(cart, k, id, n);
      && IndexOf(r, EntryRefs, k, id) != -1
      && QuantityOf(r, k, id) == QuantityOf(cart, k, id) + n
      && |r| == |cart| + (if IndexOf(cart, EntryRefs, k, id) == -1 then 1 else 0)
      && (forall j :: 0 <= j < |cart| && j != IndexOf(cart, EntryRefs, k, id) ==> r[j] == cart[j])
      && Others(r, EntryRefs, k, id) == Others(cart, EntryRefs, k, id)
  {
    var i := IndexOf(cart, EntryRefs, k, id);
    var r := Added(cart, k, id, n);
    if i == -1 {
      var x := CartEntry(RefsTo(k, id), n);
      assert r == cart + [x];
      assert Targets(EntryRefs, r[|cart|], k, id);
      assert forall j :: 0 <= j < |cart| ==> r[j] == cart[j];
      assert IndexOf(r, EntryRefs, k, id) == |cart|;
      OthersAppend(cart, [x], EntryRefs, k, id);
      assert Others([x], EntryRefs, k, id) == [] + Others([x][1..], EntryRefs, k, id);
    } else {
      var x := cart[i].(quantity := cart[i].quantity + n);
      assert Targets(EntryRefs, r[i], k, id);
      assert IndexOf(r, EntryRefs, k, id) == i;
      OthersUpdate(cart, i, x, EntryRefs, k, id);
    }
  }

  /** Adding never creates a second entry for a target: a cart with one entry
      per target keeps that shape, and holds exactly one entry for this one. */
  lemma AddedKeepsUnique(cart: seq<CartEntry>, k: Kind, id: Id, n: int)
    requires AtMostOnePerTarget(cart, EntryRefs)
    ensures AtMostOnePerTarget(Added(cart, k, id, n), EntryRefs)
    ensures |Targeting(Added(cart, k, id, n), EntryRefs, k, id)| == 1
  {
    var i := IndexOf(cart, EntryRefs, k, id);
    var r := Added(cart, k, id, n);
    if i == -1 {
      AppendKeepsUnique(cart, CartEntry(RefsTo(k, id), n), EntryRefs, k, id);
    } else {
      UpdateKeepsUnique(cart, i, cart[i].(quantity := cart[i].quantity + n), EntryRefs);
    }
    AddedRaisesTarget(cart, k, id, n);
    TargetingOfUnique(r, EntryRefs, k, id);
  }

  // ---------------------------------------------------------------------
  // updateCartQuantity's inner helper

  /** What one call of the inner helper of updateCartQuantity leaves behind:
      it threw (the handler answers 500), it answered 404, it changed the
      cart (`itemUpdated` set), or it left everything as it was. */
  datatype ItemOutcome = Threw | NotFound | Changed(cart: seq<CartEntry>) | Unchanged

  /** The helper once the catalog item is found: the first entry for it moves
      by `action`; when that brings its quantity to 0 or below, the cart is
      reassigned through the filter, which keeps only the entries that target
      the item and throws when an entry lacks the tested field. Without an
      entry, a positive action pushes `{target, 1}`; any other leaves the cart. */
  function Adjusted(cart: seq<CartEntry>, k: Kind, id: Id, action: int): ItemOutcome
  {
    var i := IndexOf(cart, EntryRefs, k, id);
    if i != -1 then
      var bumped := cart[i := cart[i].(quantity := cart[i].quantity + action)];
      if bumped[i].quantity <= 0 then
        if AllHaveRef(bumped, EntryRefs, k) then Changed(Targeting(bumped, EntryRefs, k, id)) else Threw
      else Changed(bumped)
    else if action > 0 then Changed(cart + [CartEntry(RefsTo(k, id), 1)])
    else Unchanged
  }

  /** The whole helper: `findById` on a malformed id throws a cast error, an id
      with no catalog item answers 404, and otherwise the cart is adjusted. */
  function ItemStep(cart: seq<CartEntry>, k: Kind, itemId: Id, action: int,
                    catalog: Catalog, wellFormed: Id -> bool): ItemOutcome
  {
    if !wellFormed(itemId) then Threw
    else if !catalog.Has(k, itemId) then NotFound
    else Adjusted(cart, k, itemId, action)
  }

  /** +1 on a cart whose quantity for the target is not negative is the same
      as adding one through addToCart. */
  lemma IncrementIsAdd(cart: seq<CartEntry>, k: Kind, id: Id)
    requires QuantityOf(cart, k, id) >= 0
    ensures Adjusted(cart, k, id, 1) == Changed(Added(cart, k, id, 1))
  {
  }

  /** -1 on a quantity above 1 lowers it by one and keeps every entry in place;
      -1 on a target that is not in the cart changes nothing (the handler then
      answers 400). */
  lemma DecrementOutcomes(cart: seq<CartEntry>, k: Kind, id: Id)
    ensures QuantityOf(cart, k, id) > 1 ==> Adjusted(cart, k, id, -1) == Changed(Added(cart, k, id, -1))
    ensures IndexOf(cart, EntryRefs, k, id) == -1 ==> Adjusted(cart, k, id, -1) == Unchanged
  {
  }

  /** As written, bringing a quantity to 0 or below keeps the entry that reached
      it, with that quantity, and drops every other entry of a cart with one
      entry per target. If some entry lacks the tested reference field, the
      filter throws instead. */
  lemma ZeroBranchAsWritten(cart: seq<CartEntry>, k: Kind, id: Id, action: int)
    requires AtMostOnePerTarget(cart, EntryRefs)
    requires IndexOf(cart, EntryRefs, k, id) != -1
    requires QuantityOf(cart, k, id) + action <= 0
    ensures var i := IndexOf(cart, EntryRefs, k, id);
      var kept := cart[i].(quantity := cart[i].quantity + action);
      var bumped := cart[i := kept];
      Adjusted(cart, k, id, action) == if AllHaveRef(bumped, EntryRefs, k) then Changed([kept]) else Threw
  {
    var i := IndexOf(cart, EntryRefs, k, id);
    var kept := cart[i].(quantity := cart[i].quantity + action);
    var bumped := cart[i := kept];
    UpdateKeepsUnique(cart, i, kept, EntryRefs);
    IndexOfAfterUpdate(cart, i, kept, EntryRefs, k, id);
    TargetingOfUnique(bumped, EntryRefs, k, id);
    assert Targeting(bumped, EntryRefs, k, id) == [kept];
  }

  /** A concrete cart on which the zero-quantity branch loses an unrelated
      line: two products with quantities 1 and 2; -1 on the first leaves only
      the first, at quantity 0. With a pet entry in the cart the same step
      throws. */
  lemma ZeroBranchCounterexample()
    ensures var p1 := CartEntry(RefsTo(ProductKind, "p1"), 1);
      var p2 := CartEntry(RefsTo(ProductKind, "p2"), 2);
      Adjusted([p1, p2], ProductKind, "p1", -1) == Changed([CartEntry(RefsTo(ProductKind, "p1"), 0)])
    ensures var p1 := CartEntry(RefsTo(ProductKind, "p1"), 1);
      var d := CartEntry(RefsTo(PetKind, "d1"), 1);
      Adjusted([p1, d], ProductKind, "p1", -1) == Threw
  {
    var p1 := CartEntry(RefsTo(ProductKind, "p1"), 1);
    var p2 := CartEntry(RefsTo(ProductKind, "p2"), 2);
    var d := CartEntry(RefsTo(PetKind, "d1"), 1);
    assert IndexOf([p1, p2], EntryRefs, ProductKind, "p1") == 0;
    var bumped := [p1, p2][0 := p1.(quantity := 0)];
    assert bumped[1..] == [p2];
    assert Targeting(bumped, EntryRefs, ProductKind, "p1")
        == [bumped[0]] + Targeting([p2], EntryRefs, ProductKind, "p1");
    assert Targeting([p2], EntryRefs, ProductKind, "p1")
        == [] + Targeting([p2][1..], EntryRefs, ProductKind, "p1");
    assert "p2" != "p1" by { assert "p2"[1] != "p1"[1]; }
    assert IndexOf([p1, d], EntryRefs, ProductKind, "p1") == 0;
    var bumped2 := [p1, d][0 := p1.(quantity := 0)];
    assert !EntryRefs(bumped2[1]).Get(ProductKind).Some?;
  }

  /** Whatever the outcome, the helper as written never creates a second entry
      for a target. */
  lemma AdjustedKeepsUnique(cart: seq<CartEntry>, k: Kind, id: Id, action: int)
    requires AtMostOnePerTarget(cart, EntryRefs)
    ensures Adjusted(cart, k, id, action).Changed? ==> AtMostOnePerTarget(Adjusted(cart, k, id, action).cart, EntryRefs)
  {
    var i := IndexOf(cart, EntryRefs, k, id);
    if i != -1 {
      var kept := cart[i].(quantity := cart[i].quantity + action);
      UpdateKeepsUnique(cart, i, kept, EntryRefs);
      if kept.quantity <= 0 {
        ZeroBranchAsWritten(cart, k, id, action);
      }
    } else if action > 0 {
      AppendKeepsUnique(cart, CartEntry(RefsTo(k, id), 1), EntryRefs, k, id);
    }
  }

  /** The helper as evidently intended: when the quantity reaches 0 or below,
      the entry is dropped and all other entries are kept. */
  function AdjustedIntended(cart: seq<CartEntry>, k: Kind, id: Id, action: int): ItemOutcome
  {
    var i := IndexOf(cart, EntryRefs, k, id);
    if i != -1 then
      var bumped := cart[i := cart[i].(quantity := cart[i].quantity + action)];
      if bumped[i].quantity <= 0 then Changed(Others(bumped, EntryRefs, k, id))
      else Changed(bumped)
    else if action > 0 then Changed(cart + [CartEntry(RefsTo(k, id), 1)])
    else Unchanged
  }

  /** The intended helper, with its lookups in front. */
  function ItemStepIntended(cart: seq<CartEntry>, k: Kind, itemId: Id, action: int,
                            catalog: Catalog, wellFormed: Id -> bool): ItemOutcome
  {
    if !wellFormed(itemId) then Threw
    else if !catalog.Has(k, itemId) then NotFound
    else AdjustedIntended(cart, k, itemId, action)
  }

  /** Intended: reaching 0 removes exactly the target's entry from a cart with
      one entry per target, every other entry staying in order. */
  lemma IntendedRemovesOnlyTarget(cart: seq<CartEntry>, k: Kind, id: Id, action: int)
    requires AtMostOnePerTarget(cart, EntryRefs)
    requires IndexOf(cart, EntryRefs, k, id) != -1
    requires QuantityOf(cart, k, id) + action <= 0
    ensures AdjustedIntended(cart, k, id, action) == Changed(Spliced(cart, IndexOf(cart, EntryRefs, k, id)))
  {
    var i := IndexOf(cart, EntryRefs, k, id);
    var kept := cart[i].(quantity := cart[i].quantity + action);
    var bumped := cart[i := kept];
    assert bumped[i].quantity <= 0;
    assert AdjustedIntended(cart, k, id, action) == Changed(Others(bumped, EntryRefs, k, id));
    OthersUpdate(cart, i, kept, EntryRefs, k, id);
    OthersSplice(cart, i, EntryRefs, k, id);
    SpliceLeavesNoTarget(cart, EntryRefs, k, id);
    OthersOfAbsent(Spliced(cart, i), EntryRefs, k, id);
    assert Others(bumped, EntryRefs, k, id) == Spliced(cart, i);
  }

  /** Intended: a ±1 step keeps every quantity in the cart positive and keeps
      one entry per target. */
  lemma IntendedKeepsPositive(cart: seq<CartEntry>, k: Kind, id: Id, action: int)
    requires AllPositive(cart) && AtMostOnePerTarget(cart, EntryRefs)
    requires action == 1 || action == -1
    ensures AdjustedIntended(cart, k, id, action).Changed? ==>
      var c := AdjustedIntended(cart, k, id, action).cart;
      AllPositive(c) && AtMostOnePerTarget(c, EntryRefs)
  {
    var i := IndexOf(cart, EntryRefs, k, id);
    if i != -1 {
      var kept := cart[i].(quantity := cart[i].quantity + action);
      UpdateKeepsUnique(cart, i, kept, EntryRefs);
      if kept.quantity <= 0 {
        IntendedRemovesOnlyTarget(cart, k, id, action);
        SpliceKeepsUnique(cart, i, EntryRefs);
        var c := Spliced(cart, i);
        forall j | 0 <= j < |c| ensures c[j].quantity > 0 {
          if j < i { assert c[j] == cart[j]; } else { assert c[j] == cart[j + 1]; }
        }
      }
    } else if action > 0 {
      AppendKeepsUnique(cart, CartEntry(RefsTo(k, id), 1), EntryRefs, k, id);
    }
  }

  /** Intended: the helper never creates a second entry for a target. */
  lemma IntendedKeepsUnique(cart: seq<CartEntry>, k: Kind, id: Id, action: int)
    requires AtMostOnePerTarget(cart, EntryRefs)
    ensures AdjustedIntended(cart, k, id, action).Changed? ==>
      AtMostOnePerTarget(AdjustedIntended(cart, k, id, action).cart, EntryRefs)
  {
    var i := IndexOf(cart, EntryRefs, k, id);
    if i != -1 {
      var kept := cart[i].(quantity := cart[i].quantity + action);
      UpdateKeepsUnique(cart, i, kept, EntryRefs);
      if kept.quantity <= 0 {
        IntendedRemovesOnlyTarget(cart, k, id, action);
        SpliceKeepsUnique(cart, i, EntryRefs);
      }
    } else if action > 0 {
      AppendKeepsUnique(cart, CartEntry(RefsTo(k, id), 1), EntryRefs, k, id);
    }
  }

  // ---------------------------------------------------------------------
  // Removal (removeFromCart, removeFromWishlist)

  /** `findIndex` then `splice(i, 1)`: the first subdocument for the target and
      the list without it; nothing and the list itself when there is none. */
  function WithoutFirst<T>(s: seq<T>, refs: T -> Refs, k: Kind, id: Id): (seq<T>, seq<T>)
  {
    var i := IndexOf(s, refs, k, id);
    if i == -1 then ([], s) else ([s[i]], Spliced(s, i))
  }

  /** Removal loses exactly the removed subdocument, which targets `id`, keeps
      the others in order, and removes nothing when the target is absent. In a
      list with one entry per target, no entry for the target is left, and the
      list keeps that shape. */
  lemma WithoutFirstProperties<T>(s: seq<T>, refs: T -> Refs, k: Kind, id: Id)
    ensures var (removed, rest) := WithoutFirst(s, refs, k, id);
      && multiset(removed) + multiset(rest) == multiset(s)
      && (forall e :: e in removed ==> Targets(refs, e, k, id))
      && |removed| <= 1
      && Others(rest, refs, k, id) == Others(s, refs, k, id)
      && (IndexOf(s, refs, k, id) == -1 <==> removed == [])
      && (removed == [] ==> rest == s)
    ensures AtMostOnePerTarget(s, refs) ==>
      var rest := WithoutFirst(s, refs, k, id).1;
      IndexOf(rest, refs, k, id) == -1 && AtMostOnePerTarget(rest, refs)
  {
    var i := IndexOf(s, refs, k, id);
    if i != -1 {
      SplicedMultiset(s, i);
      OthersSplice(s, i, refs, k, id);
      if AtMostOnePerTarget(s, refs) {
        SpliceLeavesNoTarget(s, refs, k, id);
        SpliceKeepsUnique(s, i, refs);
      }
    }
  }

  // ---------------------------------------------------------------------
  // addToWishlist

  /** One target's step of addToWishlist: the wishlist subdocument has no
      quantity, so raising a quantity stores nothing and a pushed quantity is
      stripped; all that remains is membership. */
  function Listed(wl: seq<WishlistEntry>, k: Kind, id: Id): seq<WishlistEntry>
  {
    if IndexOf(wl, WishRefs, k, id) != -1 then wl else wl + [RefsTo(k, id)]
  }

  /** After listing, the target is in the wishlist; listing again changes
      nothing; the old entries stay first and in order; one entry per target
      is kept. */
  lemma ListedProperties(wl: seq<WishlistEntry>, k: Kind, id: Id)
    ensures IndexOf(Listed(wl, k, id), WishRefs, k, id) != -1
    ensures Listed(Listed(wl, k, id), k, id) == Listed(wl, k, id)
    ensures Listed(wl, k, id)[..|wl|] == wl
    ensures |Listed(wl, k, id)| <= |wl| + 1
    ensures AtMostOnePerTarget(wl, WishRefs) ==> AtMostOnePerTarget(Listed(wl, k, id), WishRefs)
  {
    var r := Listed(wl, k, id);
    if IndexOf(wl, WishRefs, k, id) == -1 {
      assert Targets(WishRefs, r[|wl|], k, id);
      if AtMostOnePerTarget(wl, WishRefs) {
        AppendKeepsUnique(wl, RefsTo(k, id), WishRefs, k, id);
      }
    }
  }

  // ---------------------------------------------------------------------
  // getCart and getWishlist

  /** getCart's result: `populate("cart.productId", "cart.petId")` resolves only
      productId (its second argument is a field selection, not a path), and the
      filter keeps the entries whose productId is not null after that, so only
      entries whose product exists survive; pet entries never do. */
  function PopulatedCart(cart: seq<CartEntry>, catalog: Catalog): (r: seq<CartEntry>)
    ensures |r| <= |cart|
    ensures forall e :: e in r <==> e in cart && catalog.Resolves(ProductKind, e.refs.productId)
    decreases |cart|
  {
    if |cart| == 0 then []
    else
      var rest := PopulatedCart(cart[1..], catalog);
      assert forall e :: e in cart <==> e == cart[0] || e in cart[1..];
      if catalog.Resolves(ProductKind, cart[0].refs.productId) then [cart[0]] + rest else rest
  }

  /** getWishlist's result: both references are populated, and an entry stays
      when either resolves. */
  function PopulatedWishlist(wl: seq<WishlistEntry>, catalog: Catalog): (r: seq<WishlistEntry>)
    ensures |r| <= |wl|
    ensures forall e :: e in r <==>
      e in wl && (catalog.Resolves(ProductKind, e.productId) || catalog.Resolves(PetKind, e.petId))
    decreases |wl|
  {
    if |wl| == 0 then []
    else
      var rest := PopulatedWishlist(wl[1..], catalog);
      assert forall e :: e in wl <==> e == wl[0] || e in wl[1..];
      var e := wl[0];
      if catalog.Resolves(ProductKind, e.productId) || catalog.Resolves(PetKind, e.petId) then [e] + rest else rest
  }

  /** getCart shows a lone entry exactly when its product exists. */
  lemma PopulatedCartOne(e: CartEntry, catalog: Catalog)
    ensures PopulatedCart([e], catalog) == if catalog.Resolves(ProductKind, e.refs.productId) then [e] else []
  {
    assert [e][1..] == [];
  }

  /** getCart filters entry by entry: the view of two carts joined is the view
      of the first followed by the view of the second, so the shown entries
      keep the cart's order and repetitions. */
  lemma {:induction false} PopulatedCartConcat(a: seq<CartEntry>, b: seq<CartEntry>, catalog: Catalog)
    ensures PopulatedCart(a + b, catalog) == PopulatedCart(a, catalog) + PopulatedCart(b, catalog)
    decreases |a|
  {
    if |a| == 0 {
      assert a + b == b;
    } else {
      assert (a + b)[0] == a[0];
      assert (a + b)[1..] == a[1..] + b;
      PopulatedCartConcat(a[1..], b, catalog);
    }
  }

  /** getWishlist shows a lone entry exactly when its product or its pet exists. */
  lemma PopulatedWishlistOne(e: WishlistEntry, catalog: Catalog)
    ensures PopulatedWishlist([e], catalog) ==
      if catalog.Resolves(ProductKind, e.productId) || catalog.Resolves(PetKind, e.petId) then [e] else []
  {
    assert [e][1..] == [];
  }

  /** getWishlist filters entry by entry, keeping the wishlist's order and
      repetitions. */
  lemma {:induction false} PopulatedWishlistConcat(a: seq<WishlistEntry>, b: seq<WishlistEntry>, catalog: Catalog)
    ensures PopulatedWishlist(a + b, catalog) == PopulatedWishlist(a, catalog) + PopulatedWishlist(b, catalog)
    decreases |a|
  {
    if |a| == 0 {
      assert a + b == b;
    } else {
      assert (a + b)[0] == a[0];
      assert (a + b)[1..] == a[1..] + b;
      PopulatedWishlistConcat(a[1..], b, catalog);
    }
  }

  /** As written, getCart drops an entry for an existing pet. */
  lemma PopulatedCartDropsPets(cart: seq<CartEntry>, catalog: Catalog, id: Id)
    requires id in catalog.pets
    requires CartEntry(RefsTo(PetKind, id), 1) in cart
    ensures CartEntry(RefsTo(PetKind, id), 1) !in PopulatedCart(cart, catalog)
  {
  }

  /** getCart as evidently intended: both references are populated and an entry
      stays when either resolves, as getWishlist does. */
  function PopulatedCartIntended(cart: seq<CartEntry>, catalog: Catalog): (r: seq<CartEntry>)
    ensures |r| <= |cart|
    ensures forall e :: e in r <==>
      e in cart && (catalog.Resolves(ProductKind, e.refs.productId) || catalog.Resolves(PetKind, e.refs.petId))
    decreases |cart|
  {
    if |cart| == 0 then []
    else
      var rest := PopulatedCartIntended(cart[1..], catalog);
      assert forall e :: e in cart <==> e == cart[0] || e in cart[1..];
      var e := cart[0];
      if catalog.Resolves(ProductKind, e.refs.productId) || catalog.Resolves(PetKind, e.refs.petId) then [e] + rest else rest
  }

  /** Intended: a cart whose every entry refers to an existing product or pet is
      shown whole, in order. */
  lemma {:induction false} PopulatedCartIntendedShowsAll(cart: seq<CartEntry>, catalog: Catalog)
    requires forall j :: 0 <= j < |cart| ==>
      catalog.Resolves(ProductKind, cart[j].refs.productId) || catalog.Resolves(PetKind, cart[j].refs.petId)
    ensures PopulatedCartIntended(cart, catalog) == cart
    decreases |cart|
  {
    if |cart| > 0 {
      PopulatedCartIntendedShowsAll(cart[1..], catalog);
      assert cart == [cart[0]] + cart[1..];
    }
  }
}
