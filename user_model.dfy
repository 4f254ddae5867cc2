/** The User schema: a profile keyed by the identity provider's uid, with a cart
    of line items, a wishlist, and a role. */
module UserModel {
  import opened Common

  /** Which catalog collection a reference points into. */
  datatype Kind = ProductKind | PetKind

  /** The two optional ObjectId references that cart and wishlist subdocuments carry. */
  datatype Refs = Refs(productId: Option<Id>, petId: Option<Id>)
  {
    /** The reference of the given kind. */
    function Get(k: Kind): Option<Id>
    {
      match k
      case ProductKind => productId
      case PetKind => petId
    }
  }

  /** The references of a subdocument pushed for one target: only the field of
      its kind is set. */
  function RefsTo(k: Kind, id: Id): (r: Refs)
    ensures r.Get(k) == Some(id)
    ensures forall k' :: k' != k ==> r.Get(k').None?
  {
    match k
    case ProductKind => Refs(Some(id), None)
    case PetKind => Refs(None, Some(id))
  }

  /** The ids present in the Product and Pet collections (what `findById` and
      `populate` can resolve). */
  datatype Catalog = Catalog(products: set<Id>, pets: set<Id>)
  {
    predicate Has(k: Kind, id: Id)
    {
      match k
      case ProductKind => id in products
      case PetKind => id in pets
    }

    /** A stored reference that `populate` replaces by a document (not by null). */
    predicate Resolves(k: Kind, r: Option<Id>)
    {
      r.Some? && Has(k, r.value)
    }
  }

  /** A cart subdocument: `{productId?, petId?, quantity}`. */
  datatype CartEntry = CartEntry(refs: Refs, quantity: int)

  /** A wishlist subdocument: `{productId?, petId?}`; the schema gives it no quantity. */
  type WishlistEntry = Refs

  function EntryRefs(e: CartEntry): Refs
  {
    e.refs
  }

  function WishRefs(e: WishlistEntry): Refs
  {
    e
  }

  /** A cart subdocument built from only its references takes the schema's
      default quantity. */
  function NewCartEntry(refs: Refs): (e: CartEntry)
    ensures e.refs == refs && e.quantity == 1
  {
    CartEntry(refs, 1)
  }

  /** The `role` enum. */
  datatype Role = User | Admin

  datatype UserRecord = UserRecord(
    firebaseUID: string,
    name: string,
    email: string,
    phone: int,
    bio: string,
    petName: string,
    petType: string,
    petAge: int,
    role: Role,
    cart: seq<CartEntry>,
    wishlist: seq<WishlistEntry>,
    orders: seq<Id>)

  /** The text of the `role` field. */
  function RoleName(r: Role): string
  {
    match r
    case User => "user"
    case Admin => "admin"
  }

  /** Parsing a stored role text against the enum; any other text fails validation. */
  function ParseRole(s: string): (r: Option<Role>)
    ensures r.Some? ==> RoleName(r.value) == s
    ensures forall role :: RoleName(role) == s ==> r == Some(role)
  {
    if s == "user" then Some(User) else if s == "admin" then Some(Admin) else None
  }

  /** A record built from the profile fields, with every omitted field at its
      schema default: role "user", empty cart, wishlist and order list. A body
      field left out arrives as "" or 0, which are also the schema defaults of
      bio, petName, petType and petAge. */
  function NewUser(firebaseUID: string, name: string, email: string, phone: int,
                   bio: string, petName: string, petType: string, petAge: int): (u: UserRecord)
    ensures u.role == User && u.cart == [] && u.wishlist == [] && u.orders == []
    ensures u.firebaseUID == firebaseUID && u.name == name && u.email == email && u.phone == phone
    ensures u.bio == bio && u.petName == petName && u.petType == petType && u.petAge == petAge
  {
    UserRecord(firebaseUID, name, email, phone, bio, petName, petType, petAge, User, [], [], [])
  }

  /** The schema's validators: firebaseUID, name and email are required strings
      (a required string rejects ""); phone is a required number, which any
      number satisfies. */
  predicate UserValid(u: UserRecord)
  {
    u.firebaseUID != "" && u.name != "" && u.email != ""
  }

  /** The collection's unique indexes: one profile per firebaseUID (the map's key
      is the record's own uid) and no two profiles share an email. */
  predicate StoreValid(users: map<string, UserRecord>)
  {
    && (forall uid :: uid in users ==> users[uid].firebaseUID == uid && UserValid(users[uid]))
    && (forall a, b :: a in users && b in users && a != b ==> users[a].email != users[b].email)
  }

  /** Whether some stored profile already uses this email. */
  predicate EmailTaken(users: map<string, UserRecord>, email: string)
  {
    exists uid :: uid in users && users[uid].email == email
  }
}
