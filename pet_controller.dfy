/** The pet handlers: create, find, update and delete by id. */
module PetController {
  import opened Common
  import opened Documents
  import opened MediaUploads
  import opened CatalogHandlers
  import opened PetModel

  /** The fields createPet tests for truthiness. */
  const PetGuard: set<string> := {"breed", "description", "price", "image", "category"}

  /** The list fields handed to the model: both are always given, [] when no file came. */
  function MediaLists(m: Media): map<string, seq<string>>
  {
    map["images" := m.images, "videos" := m.videos]
  }

  lemma PetMediaPaths()
    ensures "image" in PetSchema.texts && "images" in PetSchema.lists && "videos" in PetSchema.lists
  {
  }

  /** The guard fails exactly when one of breed, description, price and
      category was not sent or is "", or no image was uploaded. */
  lemma PetGuardMeans(body: Body, image: string)
    ensures MissingRequired(PetGuard, Given(PetSchema, body, image)) <==>
      !Sent(body, "breed") || !Sent(body, "description") || !Sent(body, "price") || !Sent(body, "category") || image == ""
  {
    var g := Given(PetSchema, body, image);
    assert "breed" in PetSchema.texts && "description" in PetSchema.texts && "category" in PetSchema.texts;
    assert "price" in PetSchema.numbers;
    if !Sent(body, "breed") { assert !Truthy(g, "breed"); }
    if !Sent(body, "description") { assert !Truthy(g, "description"); }
    if !Sent(body, "price") { assert !Truthy(g, "price"); }
    if !Sent(body, "category") { assert !Truthy(g, "category"); }
    if image == "" { assert !Truthy(g, "image"); }
  }

  /** createPet. A request that is not multipart fails in the upload helper,
      before the guard: 500. A falsy required field or a missing image: 400.
      Otherwise the pet is built from the body and the uploads and saved:
      201 when it passes validation under a fresh id, 500 otherwise. */
  function CreatePet(body: Body, files: Option<Files>, store: Store, newId: Id): (r: Reply)
    ensures files.None? ==> r.status == StatusServerError
    ensures r.status == StatusBadRequest <==>
      files.Some? &&
      (!Sent(body, "breed") || !Sent(body, "description") || !Sent(body, "price") || !Sent(body, "category")
       || FirstLocation(files.value, "image") == "")
    ensures r.status != StatusCreated ==> r.store == store && r.record.None?
    ensures files.Some? ==>
      var built := Build(PetSchema, Given(PetSchema, body, FirstLocation(files.value, "image")),
                         MediaLists(HandleFileUploads(files).value));
      && (r.status == StatusCreated <==>
            Sent(body, "breed") && Sent(body, "description") && Sent(body, "price") && Sent(body, "category") && FirstLocation(files.value, "image") != ""
            && built.Some? && PetValid(built.value) && newId !in store)
      && (r.status == StatusCreated ==> r.record == built)
    ensures r.status == StatusCreated ==>
      && files.Some? && newId !in store
      && r.record.Some? && PetValid(r.record.value)
      && r.store == store[newId := r.record.value]
      && "image" in r.record.value.texts && r.record.value.texts["image"] == FirstLocation(files.value, "image")
      && "images" in r.record.value.lists && r.record.value.lists["images"] == AllLocations(files.value, "images")
      && "videos" in r.record.value.lists && r.record.value.lists["videos"] == AllLocations(files.value, "videos")
  {
    match HandleFileUploads(files)
    case None => Reply(StatusServerError, store, None)
    case Some(m) =>
      PetGuardMeans(body, m.image);
      PetMediaPaths();
      WrittenHoldsMedia(PetSchema, PetGuard, body, m.image, MediaLists(m), store, newId, _ => true);
      Create(PetSchema, PetGuard, body, m.image, MediaLists(m), store, newId)
  }

  /** getPetById: 500 for a malformed id, 404 for an unknown one, otherwise
      the stored pet; nothing is written. */
  function GetPetById(store: Store, id: Id, wellFormed: Id -> bool): (r: Reply)
    ensures r.store == store
    ensures r.status == StatusServerError <==> !wellFormed(id)
    ensures r.status == StatusNotFound <==> wellFormed(id) && id !in store
    ensures r.status == StatusOk <==> wellFormed(id) && id in store
    ensures r.status == StatusOk ==> r.record == Some(store[id])
  {
    FindById(store, id, wellFormed)
  }

  /** updatePet. 500 when the request is not multipart, the id is malformed
      or a number does not cast; 404 for an unknown id. Otherwise the pet is
      overwritten with the sent fields and, always, with the media of this
      request, and no validator runs. */
  function UpdatePet(body: Body, files: Option<Files>, store: Store, id: Id, wellFormed: Id -> bool): (r: Reply)
    ensures r.status == StatusServerError <==>
      files.None? || !wellFormed(id) || CastFails(PetSchema, Given(PetSchema, body, FirstLocation(files.value, "image")))
    ensures r.status == StatusOk <==>
      files.Some? && wellFormed(id) && !CastFails(PetSchema, Given(PetSchema, body, FirstLocation(files.value, "image"))) && id in store
    ensures r.status == StatusNotFound <==>
      files.Some? && wellFormed(id) && !CastFails(PetSchema, Given(PetSchema, body, FirstLocation(files.value, "image"))) && id !in store
    ensures r.status != StatusOk ==> r.store == store && r.record.None?
    ensures r.status == StatusOk ==>
      && files.Some? && id in store
      && r.record.Some? && r.store == store[id := r.record.value]
      && "image" in r.record.value.texts && r.record.value.texts["image"] == FirstLocation(files.value, "image")
      && "images" in r.record.value.lists && r.record.value.lists["images"] == AllLocations(files.value, "images")
      && "videos" in r.record.value.lists && r.record.value.lists["videos"] == AllLocations(files.value, "videos")
    ensures r.status == StatusOk ==>
      r.record == Patch(PetSchema, store[id], Given(PetSchema, body, FirstLocation(files.value, "image")), MediaLists(HandleFileUploads(files).value))
  {
    match HandleFileUploads(files)
    case None => Reply(StatusServerError, store, None)
    case Some(m) =>
      PetMediaPaths();
      WrittenHoldsMedia(PetSchema, PetGuard, body, m.image, MediaLists(m), store, id, wellFormed);
      UpdateById(PetSchema, body, m.image, MediaLists(m), store, id, wellFormed)
  }

  /** deletePet: 500 for a malformed id, 404 for an unknown one, otherwise the
      pet is removed. */
  function DeletePet(store: Store, id: Id, wellFormed: Id -> bool): (r: Reply)
    ensures r.status == StatusServerError <==> !wellFormed(id)
    ensures r.status == StatusNotFound <==> wellFormed(id) && id !in store
    ensures r.status != StatusOk ==> r.store == store
    ensures r.status == StatusOk ==> id in store && r.store == store - {id}
  {
    DeleteById(store, id, wellFormed)
  }

  /** An update sent without files stores an empty image and empty lists,
      which leaves the pet failing its own validation. */
  lemma UpdateWithoutFilesClearsMedia(body: Body, store: Store, id: Id, wellFormed: Id -> bool)
    requires UpdatePet(body, Some(map[]), store, id, wellFormed).status == StatusOk
    ensures var d := UpdatePet(body, Some(map[]), store, id, wellFormed).record.value;
      d.texts["image"] == "" && d.lists["images"] == [] && d.lists["videos"] == [] && !PetValid(d)
  {
    var d := UpdatePet(body, Some(map[]), store, id, wellFormed).record.value;
    PetValidMeans(d);
  }

  /** Multipart fields are text, so a price of "0" is truthy: it passes the
      guard and, being no less than 0, validation. */
  lemma ZeroPriceAccepted(body: Body, files: Files, store: Store, newId: Id)
    requires Sent(body, "breed") && Sent(body, "description") && Sent(body, "category")
    requires "price" in body && body["price"] == "0"
    requires "originalPrice" !in body && "discount" !in body
    requires FirstLocation(files, "image") != "" && newId !in store
    ensures var r := CreatePet(body, Some(files), store, newId);
      r.status == StatusCreated && r.record.value.numbers["price"] == Num(0)
  {
    var m := HandleFileUploads(Some(files)).value;
    ZeroPriceBuildsValid(body, m.image, MediaLists(m));
  }

  lemma ZeroPriceBuildsValid(body: Body, image: string, lists: map<string, seq<string>>)
    requires Sent(body, "breed") && Sent(body, "description") && Sent(body, "category")
    requires "price" in body && body["price"] == "0"
    requires "originalPrice" !in body && "discount" !in body
    requires image != ""
    ensures var d := Build(PetSchema, Given(PetSchema, body, image), lists);
      d.Some? && PetValid(d.value) && d.value.numbers["price"] == Num(0)
  {
    var g := Given(PetSchema, body, image);
    OnlyPriceGiven(body, image);
    var d := Build(PetSchema, g, lists).value;
    assert Some(d.numbers["price"]) == CastNumber("0");
    NumberDefault(PetSchema, g, lists, "discount", 0);
    PetValidMeans(d);
  }

  lemma OnlyPriceGiven(body: Body, image: string)
    requires "price" in body && body["price"] == "0"
    requires "originalPrice" !in body && "discount" !in body
    ensures var g := Given(PetSchema, body, image);
      && !CastFails(PetSchema, g)
      && Build(PetSchema, g, map[]).Some?
      && "price" in g && g["price"] == "0"
      && "price" in PetSchema.numbers
      && CastNumber("0") == Some(Num(0))
  {
    var g := Given(PetSchema, body, image);
    assert CastNumber("0") == Some(Num(0));
    forall f | f in PetSchema.numbers && f in g ensures CastNumber(g[f]).Some? {
      assert f == "price";
    }
  }

  /** A negative price passes the guard but not the min validator: the save
      is refused with 500 and nothing is stored. */
  lemma NegativePriceRefused(body: Body, files: Files, store: Store, newId: Id, n: int)
    requires n < 0 && "price" in body && body["price"] == NumberText(n)
    ensures var r := CreatePet(body, Some(files), store, newId);
      r.status != StatusCreated && r.store == store
  {
    var m := HandleFileUploads(Some(files)).value;
    var g := Given(PetSchema, body, m.image);
    CastNumberText(n);
    assert "price" in PetSchema.numbers && "price" in g && g["price"] == NumberText(n);
    NegativePriceInvalid(g, MediaLists(m), n);
  }

  lemma NegativePriceInvalid(g: map<string, string>, lists: map<string, seq<string>>, n: int)
    requires n < 0 && "price" in g && CastNumber(g["price"]) == Some(Num(n))
    ensures Build(PetSchema, g, lists).Some? ==> !PetValid(Build(PetSchema, g, lists).value)
  {
    if Build(PetSchema, g, lists).Some? {
      var d := Build(PetSchema, g, lists).value;
      assert "price" in PetSchema.numbers;
      assert d.numbers["price"] == Num(n);
      assert "price" in PetSchema.nonNegative;
    }
  }
}
