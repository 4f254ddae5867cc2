/** The product handlers: create, find, update and delete by id. */
module ProductController {
  import opened Common
  import opened Documents
  import opened MediaUploads
  import opened CatalogHandlers
  import opened ProductModel

  /** The fields createProduct tests for truthiness. */
  const ProductGuard: set<string> := {"name", "description", "price", "image", "category"}

  /** The list fields handed to the model: both are always given, [] when no file came. */
  function ProductLists(m: Media): map<string, seq<string>>
  {
    map["images" := m.images, "videos" := m.videos]
  }

  lemma ProductMediaPaths()
    ensures "image" in ProductSchema.texts && "images" in ProductSchema.lists && "videos" in ProductSchema.lists
  {
  }

  /** The guard fails exactly when one of name, description, price and
      category was not sent or is "", or no image was uploaded. */
  lemma ProductGuardMeans(body: Body, image: string)
    ensures MissingRequired(ProductGuard, Given(ProductSchema, body, image)) <==>
      !Sent(body, "name") || !Sent(body, "description") || !Sent(body, "price") || !Sent(body, "category") || image == ""
  {
    var g := Given(ProductSchema, body, image);
    assert "name" in ProductSchema.texts && "description" in ProductSchema.texts && "category" in ProductSchema.texts;
    assert "price" in ProductSchema.numbers;
    if !Sent(body, "name") { assert !Truthy(g, "name"); }
    if !Sent(body, "description") { assert !Truthy(g, "description"); }
    if !Sent(body, "price") { assert !Truthy(g, "price"); }
    if !Sent(body, "category") { assert !Truthy(g, "category"); }
    if image == "" { assert !Truthy(g, "image"); }
  }

  /** createProduct. A request that is not multipart fails in the upload
      helper, before the guard: 500. A falsy required field or a missing
      image: 400. Otherwise the product is built and saved: 201 when it
      passes validation under a fresh id, 500 otherwise. */
  function CreateProduct(body: Body, files: Option<Files>, store: Store, newId: Id): (r: Reply)
    ensures files.None? ==> r.status == StatusServerError
    ensures r.status == StatusBadRequest <==>
      files.Some? &&
      (!Sent(body, "name") || !Sent(body, "description") || !Sent(body, "price") || !Sent(body, "category")
       || FirstLocation(files.value, "image") == "")
    ensures r.status != StatusCreated ==> r.store == store && r.record.None?
    ensures files.Some? ==>
      var built := Build(ProductSchema, Given(ProductSchema, body, FirstLocation(files.value, "image")),
                         ProductLists(HandleFileUploads(files).value));
      && (r.status == StatusCreated <==>
            Sent(body, "name") && Sent(body, "description") && Sent(body, "price") && Sent(body, "category") && FirstLocation(files.value, "image") != ""
            && built.Some? && ProductValid(built.value) && newId !in store)
      && (r.status == StatusCreated ==> r.record == built)
    ensures r.status == StatusCreated ==>
      && files.Some? && newId !in store
      && r.record.Some? && ProductValid(r.record.value)
      && r.store == store[newId := r.record.value]
      && "image" in r.record.value.texts && r.record.value.texts["image"] == FirstLocation(files.value, "image")
      && "images" in r.record.value.lists && r.record.value.lists["images"] == AllLocations(files.value, "images")
      && "videos" in r.record.value.lists && r.record.value.lists["videos"] == AllLocations(files.value, "videos")
  {
    match HandleFileUploads(files)
    case None => Reply(StatusServerError, store, None)
    case Some(m) =>
      ProductGuardMeans(body, m.image);
      ProductMediaPaths();
      WrittenHoldsMedia(ProductSchema, ProductGuard, body, m.image, ProductLists(m), store, newId, _ => true);
      Create(ProductSchema, ProductGuard, body, m.image, ProductLists(m), store, newId)
  }

  /** getProductById: 500 for a malformed id, 404 for an unknown one,
      otherwise the stored product; nothing is written. */
  function GetProductById(store: Store, id: Id, wellFormed: Id -> bool): (r: Reply)
    ensures r.store == store
    ensures r.status == StatusServerError <==> !wellFormed(id)
    ensures r.status == StatusNotFound <==> wellFormed(id) && id !in store
    ensures r.status == StatusOk <==> wellFormed(id) && id in store
    ensures r.status == StatusOk ==> r.record == Some(store[id])
  {
    FindById(store, id, wellFormed)
  }

  /** updateProduct. 500 when the request is not multipart, the id is
      malformed or a number does not cast; 404 for an unknown id. Otherwise
      the product is overwritten with the sent fields and, always, with the
      media of this request, and no validator runs. */
  function UpdateProduct(body: Body, files: Option<Files>, store: Store, id: Id, wellFormed: Id -> bool): (r: Reply)
    ensures r.status == StatusServerError <==>
      files.None? || !wellFormed(id) || CastFails(ProductSchema, Given(ProductSchema, body, FirstLocation(files.value, "image")))
    ensures r.status == StatusOk <==>
      files.Some? && wellFormed(id) && !CastFails(ProductSchema, Given(ProductSchema, body, FirstLocation(files.value, "image"))) && id in store
    ensures r.status == StatusNotFound <==>
      files.Some? && wellFormed(id) && !CastFails(ProductSchema, Given(ProductSchema, body, FirstLocation(files.value, "image"))) && id !in store
    ensures r.status != StatusOk ==> r.store == store && r.record.None?
    ensures r.status == StatusOk ==>
      && files.Some? && id in store
      && r.record.Some? && r.store == store[id := r.record.value]
      && "image" in r.record.value.texts && r.record.value.texts["image"] == FirstLocation(files.value, "image")
      && "images" in r.record.value.lists && r.record.value.lists["images"] == AllLocations(files.value, "images")
      && "videos" in r.record.value.lists && r.record.value.lists["videos"] == AllLocations(files.value, "videos")
    ensures r.status == StatusOk ==>
      r.record == Patch(ProductSchema, store[id], Given(ProductSchema, body, FirstLocation(files.value, "image")), ProductLists(HandleFileUploads(files).value))
  {
    match HandleFileUploads(files)
    case None => Reply(StatusServerError, store, None)
    case Some(m) =>
      ProductMediaPaths();
      WrittenHoldsMedia(ProductSchema, ProductGuard, body, m.image, ProductLists(m), store, id, wellFormed);
      UpdateById(ProductSchema, body, m.image, ProductLists(m), store, id, wellFormed)
  }

  /** deleteProduct: 500 for a malformed id, 404 for an unknown one,
      otherwise the product is removed. */
  function DeleteProduct(store: Store, id: Id, wellFormed: Id -> bool): (r: Reply)
    ensures r.status == StatusServerError <==> !wellFormed(id)
    ensures r.status == StatusNotFound <==> wellFormed(id) && id !in store
    ensures r.status != StatusOk ==> r.store == store
    ensures r.status == StatusOk ==> id in store && r.store == store - {id}
  {
    DeleteById(store, id, wellFormed)
  }

  /** An update sent without files stores an empty image and empty lists,
      which leaves the product failing its own validation. */
  lemma UpdateWithoutFilesClearsMedia(body: Body, store: Store, id: Id, wellFormed: Id -> bool)
    requires UpdateProduct(body, Some(map[]), store, id, wellFormed).status == StatusOk
    ensures var d := UpdateProduct(body, Some(map[]), store, id, wellFormed).record.value;
      d.texts["image"] == "" && d.lists["images"] == [] && d.lists["videos"] == [] && !ProductValid(d)
  {
    var d := UpdateProduct(body, Some(map[]), store, id, wellFormed).record.value;
    ProductValidMeans(d);
  }

  /** The handler always passes the uploaded image list, so a product created
      without "images" files gets [] and never the stock image list. */
  lemma StockImagesNeverUsed(body: Body, files: Files, store: Store, newId: Id)
    requires "images" !in files
    requires CreateProduct(body, Some(files), store, newId).status == StatusCreated
    ensures CreateProduct(body, Some(files), store, newId).record.value.lists["images"] == []
    ensures DefaultProductImages != []
  {
  }
}
