/** The request handlers the pet, product and testimonial controllers share:
    create with a required-field guard, find, update and delete by id. Each
    works on a snapshot of one collection; `wellFormed` says whether an id
    casts to an ObjectId (a failed cast is an error, answered with 500). */
module CatalogHandlers {
  import opened Common
  import opened Documents

  type Store = map<Id, Doc>

  /** The text fields of a multipart body; a field not sent is absent. */
  type Body = map<string, string>

  datatype Reply = Reply(status: int, store: Store, record: Option<Doc>)

  /** The fields a handler passes on: the schema's own text and Number paths
      read from the body, and "image" from the uploads, never from the body. */
  function Given(s: Schema, body: Body, image: string): (g: map<string, string>)
    ensures "image" in g && g["image"] == image
    ensures forall f :: f in g && f != "image" ==> f in body && g[f] == body[f] && (f in s.texts || f in s.numbers)
    ensures forall f :: f in body && f != "image" && (f in s.texts || f in s.numbers) ==> f in g
  {
    (map f | f in body && f != "image" && (f in s.texts || f in s.numbers) :: body[f])["image" := image]
  }

  /** A field is truthy when it was sent and is not "" (every multipart field
      is text, so "0" is truthy). */
  predicate Truthy(g: map<string, string>, f: string)
  {
    f in g && g[f] != ""
  }

  /** A body field was sent with a non-empty text. */
  predicate Sent(body: Body, f: string)
  {
    f in body && body[f] != ""
  }

  /** Some field of the guard is falsy. */
  predicate MissingRequired(guard: set<string>, g: map<string, string>)
  {
    exists f :: f in guard && !Truthy(g, f)
  }

  /** Create: a falsy guard field answers 400; a cast error, a failed
      validator or a clash with an existing id answers 500 (the rejected
      `save`); otherwise 201 and the new document is stored under the fresh id. */
  function Create(s: Schema, guard: set<string>, body: Body, image: string, lists: map<string, seq<string>>,
                  store: Store, newId: Id): (r: Reply)
    ensures r.status == StatusBadRequest || r.status == StatusServerError || r.status == StatusCreated
    ensures r.status == StatusBadRequest <==> MissingRequired(guard, Given(s, body, image))
    ensures r.status == StatusCreated <==>
      && !MissingRequired(guard, Given(s, body, image))
      && Build(s, Given(s, body, image), lists).Some?
      && Valid(s, Build(s, Given(s, body, image), lists).value)
      && newId !in store
    ensures r.status != StatusCreated ==> r.store == store && r.record.None?
    ensures r.status == StatusCreated ==>
      && r.record == Build(s, Given(s, body, image), lists)
      && r.record.Some? && Valid(s, r.record.value)
      && r.store == store[newId := r.record.value]
  {
    var g := Given(s, body, image);
    if MissingRequired(guard, g) then Reply(StatusBadRequest, store, None)
    else
      match Build(s, g, lists)
      case None => Reply(StatusServerError, store, None)
      case Some(d) =>
        if !Valid(s, d) || newId in store then Reply(StatusServerError, store, None)
        else Reply(StatusCreated, store[newId := d], Some(d))
  }

  /** Find by id: a malformed id answers 500, an unknown one 404. Nothing is written. */
  function FindById(store: Store, id: Id, wellFormed: Id -> bool): (r: Reply)
    ensures r.store == store
    ensures r.status == StatusServerError <==> !wellFormed(id)
    ensures r.status == StatusNotFound <==> wellFormed(id) && id !in store
    ensures r.status == StatusOk <==> wellFormed(id) && id in store
    ensures r.record.Some? <==> r.status == StatusOk
    ensures r.status == StatusOk ==> r.record == Some(store[id])
  {
    if !wellFormed(id) then Reply(StatusServerError, store, None)
    else if id !in store then Reply(StatusNotFound, store, None)
    else Reply(StatusOk, store, Some(store[id]))
  }

  /** Update by id: a malformed id or a cast error answers 500, an unknown id
      404; otherwise the document is patched without validation and the
      patched document is returned. No other document changes. */
  function UpdateById(s: Schema, body: Body, image: string, lists: map<string, seq<string>>,
                      store: Store, id: Id, wellFormed: Id -> bool): (r: Reply)
    ensures r.status == StatusServerError <==> !wellFormed(id) || CastFails(s, Given(s, body, image))
    ensures r.status == StatusNotFound <==> wellFormed(id) && !CastFails(s, Given(s, body, image)) && id !in store
    ensures r.status != StatusOk ==> r.store == store && r.record.None?
    ensures r.status == StatusOk ==>
      && id in store
      && r.record == Patch(s, store[id], Given(s, body, image), lists)
      && r.record.Some?
      && r.store == store[id := r.record.value]
  {
    var g := Given(s, body, image);
    if !wellFormed(id) || CastFails(s, g) then Reply(StatusServerError, store, None)
    else if id !in store then Reply(StatusNotFound, store, None)
    else
      var d := Patch(s, store[id], g, lists).value;
      Reply(StatusOk, store[id := d], Some(d))
  }

  /** Delete by id: a malformed id answers 500, an unknown one 404; otherwise
      the document is removed and returned. */
  function DeleteById(store: Store, id: Id, wellFormed: Id -> bool): (r: Reply)
    ensures r.status == StatusServerError <==> !wellFormed(id)
    ensures r.status == StatusNotFound <==> wellFormed(id) && id !in store
    ensures r.status != StatusOk ==> r.store == store && r.record.None?
    ensures r.status == StatusOk ==> id in store && r.record == Some(store[id]) && r.store == store - {id}
  {
    if !wellFormed(id) then Reply(StatusServerError, store, None)
    else if id !in store then Reply(StatusNotFound, store, None)
    else Reply(StatusOk, store - {id}, Some(store[id]))
  }

  /** A created or updated document holds the image and the lists of this
      request. */
  lemma WrittenHoldsMedia(s: Schema, guard: set<string>, body: Body, image: string, lists: map<string, seq<string>>,
                          store: Store, id: Id, wellFormed: Id -> bool)
    requires "image" in s.texts
    ensures var r := Create(s, guard, body, image, lists, store, id);
      r.status == StatusCreated ==>
        && "image" in r.record.value.texts && r.record.value.texts["image"] == image
        && (forall f :: f in s.lists && f in lists ==> f in r.record.value.lists && r.record.value.lists[f] == lists[f])
    ensures var r := UpdateById(s, body, image, lists, store, id, wellFormed);
      r.status == StatusOk ==>
        && "image" in r.record.value.texts && r.record.value.texts["image"] == image
        && (forall f :: f in s.lists && f in lists ==> f in r.record.value.lists && r.record.value.lists[f] == lists[f])
  {
  }

  /** A created document is found under its id, as it was returned. */
  lemma CreatedIsFound(s: Schema, guard: set<string>, body: Body, image: string, lists: map<string, seq<string>>,
                       store: Store, newId: Id, wellFormed: Id -> bool)
    requires wellFormed(newId)
    requires Create(s, guard, body, image, lists, store, newId).status == StatusCreated
    ensures var r := Create(s, guard, body, image, lists, store, newId);
      FindById(r.store, newId, wellFormed).record == r.record
  {
  }

  /** After a delete, the id is unknown: finding, updating or deleting it
      again answers 404. */
  lemma DeletedIsGone(store: Store, id: Id, wellFormed: Id -> bool, s: Schema, body: Body, image: string,
                      lists: map<string, seq<string>>)
    requires DeleteById(store, id, wellFormed).status == StatusOk
    requires !CastFails(s, Given(s, body, image))
    ensures var after := DeleteById(store, id, wellFormed).store;
      && FindById(after, id, wellFormed).status == StatusNotFound
      && UpdateById(s, body, image, lists, after, id, wellFormed).status == StatusNotFound
      && DeleteById(after, id, wellFormed).status == StatusNotFound
  {
  }

  /** Repeating an update changes nothing more. */
  lemma UpdateIdempotent(s: Schema, body: Body, image: string, lists: map<string, seq<string>>,
                         store: Store, id: Id, wellFormed: Id -> bool)
    requires UpdateById(s, body, image, lists, store, id, wellFormed).status == StatusOk
    ensures var once := UpdateById(s, body, image, lists, store, id, wellFormed);
      UpdateById(s, body, image, lists, once.store, id, wellFormed) == once
  {
    var g := Given(s, body, image);
    PatchIdempotent(s, store[id], g, lists);
  }
}
