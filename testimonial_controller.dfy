/** The testimonial handlers: create, find, update and delete by id. */
module TestimonialController {
  import opened Common
  import opened Documents
  import opened MediaUploads
  import opened CatalogHandlers
  import opened TestimonialModel

  /** The fields createTestimonial tests for truthiness. */
  const TestimonialGuard: set<string> := {"name", "content", "image", "author", "rating"}

  lemma TestimonialPaths()
    ensures "image" in TestimonialSchema.texts && "content" in TestimonialSchema.texts
    ensures TestimonialSchema.lists == map[] && TestimonialSchema.numbers == map[]
  {
  }

  /** The guard fails exactly when one of name, content, author and rating
      was not sent or is "", or no image was uploaded. */
  lemma TestimonialGuardMeans(body: Body, image: string)
    ensures MissingRequired(TestimonialGuard, Given(TestimonialSchema, body, image)) <==>
      !Sent(body, "name") || !Sent(body, "content") || !Sent(body, "author") || !Sent(body, "rating") || image == ""
  {
    var g := Given(TestimonialSchema, body, image);
    assert "name" in TestimonialSchema.texts && "content" in TestimonialSchema.texts;
    assert "author" in TestimonialSchema.texts && "rating" in TestimonialSchema.texts;
    if !Sent(body, "name") { assert !Truthy(g, "name"); }
    if !Sent(body, "content") { assert !Truthy(g, "content"); }
    if !Sent(body, "author") { assert !Truthy(g, "author"); }
    if !Sent(body, "rating") { assert !Truthy(g, "rating"); }
    if image == "" { assert !Truthy(g, "image"); }
  }

  /** createTestimonial. A request that is not multipart fails in the upload
      helper: 500. A falsy required field or a missing image: 400. Otherwise
      the testimonial is built and saved: 201 when it passes validation
      (content of 10 to 500 characters) under a fresh id, 500 otherwise. */
  function CreateTestimonial(body: Body, files: Option<Files>, store: Store, newId: Id): (r: Reply)
    ensures files.None? ==> r.status == StatusServerError
    ensures r.status == StatusBadRequest <==>
      files.Some? &&
      (!Sent(body, "name") || !Sent(body, "content") || !Sent(body, "author") || !Sent(body, "rating")
       || FirstLocation(files.value, "image") == "")
    ensures r.status != StatusCreated ==> r.store == store && r.record.None?
    ensures files.Some? ==>
      var built := Build(TestimonialSchema, Given(TestimonialSchema, body, FirstLocation(files.value, "image")),
                         map[]);
      && (r.status == StatusCreated <==>
            Sent(body, "name") && Sent(body, "content") && Sent(body, "author") && Sent(body, "rating") && FirstLocation(files.value, "image") != ""
            && built.Some? && TestimonialValid(built.value) && newId !in store)
      && (r.status == StatusCreated ==> r.record == built)
    ensures r.status == StatusCreated ==>
      && files.Some? && newId !in store
      && r.record.Some? && TestimonialValid(r.record.value)
      && r.store == store[newId := r.record.value]
      && "image" in r.record.value.texts && r.record.value.texts["image"] == FirstLocation(files.value, "image")
  {
    match HandleImageUpload(files)
    case None => Reply(StatusServerError, store, None)
    case Some(image) =>
      TestimonialGuardMeans(body, image);
      TestimonialPaths();
      WrittenHoldsMedia(TestimonialSchema, TestimonialGuard, body, image, map[], store, newId, _ => true);
      Create(TestimonialSchema, TestimonialGuard, body, image, map[], store, newId)
  }

  /** getTestimonialById: 500 for a malformed id, 404 for an unknown one,
      otherwise the stored testimonial; nothing is written. */
  function GetTestimonialById(store: Store, id: Id, wellFormed: Id -> bool): (r: Reply)
    ensures r.store == store
    ensures r.status == StatusServerError <==> !wellFormed(id)
    ensures r.status == StatusNotFound <==> wellFormed(id) && id !in store
    ensures r.status == StatusOk <==> wellFormed(id) && id in store
    ensures r.status == StatusOk ==> r.record == Some(store[id])
  {
    FindById(store, id, wellFormed)
  }

  /** updateTestimonial. 500 when the request is not multipart or the id is
      malformed; 404 for an unknown id. Otherwise the testimonial is
      overwritten with the sent fields and, always, with the image of this
      request, and no validator runs. */
  function UpdateTestimonial(body: Body, files: Option<Files>, store: Store, id: Id, wellFormed: Id -> bool): (r: Reply)
    ensures r.status == StatusServerError <==> files.None? || !wellFormed(id)
    ensures r.status == StatusOk <==> files.Some? && wellFormed(id) && id in store
    ensures r.status == StatusNotFound <==> files.Some? && wellFormed(id) && id !in store
    ensures r.status != StatusOk ==> r.store == store && r.record.None?
    ensures r.status == StatusOk ==>
      && files.Some? && id in store
      && r.record.Some? && r.store == store[id := r.record.value]
      && "image" in r.record.value.texts && r.record.value.texts["image"] == FirstLocation(files.value, "image")
    ensures r.status == StatusOk ==>
      r.record == Patch(TestimonialSchema, store[id], Given(TestimonialSchema, body, FirstLocation(files.value, "image")), map[])
  {
    match HandleImageUpload(files)
    case None => Reply(StatusServerError, store, None)
    case Some(image) =>
      TestimonialPaths();
      WrittenHoldsMedia(TestimonialSchema, TestimonialGuard, body, image, map[], store, id, wellFormed);
      UpdateById(TestimonialSchema, body, image, map[], store, id, wellFormed)
  }

  /** deleteTestimonial: 500 for a malformed id, 404 for an unknown one,
      otherwise the testimonial is removed. */
  function DeleteTestimonial(store: Store, id: Id, wellFormed: Id -> bool): (r: Reply)
    ensures r.status == StatusServerError <==> !wellFormed(id)
    ensures r.status == StatusNotFound <==> wellFormed(id) && id !in store
    ensures r.status != StatusOk ==> r.store == store
    ensures r.status == StatusOk ==> id in store && r.store == store - {id}
  {
    DeleteById(store, id, wellFormed)
  }

  /** An update sent without a file stores an empty image, which leaves the
      testimonial failing its own validation. */
  lemma UpdateWithoutFileClearsImage(body: Body, store: Store, id: Id, wellFormed: Id -> bool)
    requires UpdateTestimonial(body, Some(map[]), store, id, wellFormed).status == StatusOk
    ensures var d := UpdateTestimonial(body, Some(map[]), store, id, wellFormed).record.value;
      d.texts["image"] == "" && !TestimonialValid(d)
  {
    var d := UpdateTestimonial(body, Some(map[]), store, id, wellFormed).record.value;
    TestimonialValidMeans(d);
  }

  /** Content outside 10 to 500 characters passes the guard when non-empty,
      but not the length validators: nothing is stored. */
  lemma ContentLengthEnforced(body: Body, files: Files, store: Store, newId: Id)
    requires "content" in body && (|body["content"]| < 10 || |body["content"]| > 500)
    ensures var r := CreateTestimonial(body, Some(files), store, newId);
      r.status != StatusCreated && r.store == store
  {
    var image := FirstLocation(files, "image");
    var g := Given(TestimonialSchema, body, image);
    TestimonialPaths();
    assert "content" in g && g["content"] == body["content"];
    if Build(TestimonialSchema, g, map[]).Some? {
      var d := Build(TestimonialSchema, g, map[]).value;
      assert d.texts["content"] == body["content"];
      TestimonialValidMeans(d);
    }
  }
}
