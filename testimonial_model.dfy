/** The Testimonial schema. */
module TestimonialModel {
  import opened Common
  import opened Documents

  const TestimonialSchema: Schema := Schema(
    map["name" := None, "content" := None, "image" := Some(""), "author" := None, "rating" := Some("2")],
    map[],
    map[],
    {"name", "content", "image", "author", "rating"},
    {},
    map["content" := (10, 500)])

  predicate TestimonialValid(d: Doc)
  {
    Valid(TestimonialSchema, d)
  }

  /** A testimonial passes validation exactly when name, content, image,
      author and rating are non-empty texts and content has 10 to 500
      characters. */
  lemma TestimonialValidMeans(d: Doc)
    ensures TestimonialValid(d) <==>
      && (forall f :: f in {"name", "content", "image", "author", "rating"} ==> f in d.texts && d.texts[f] != "")
      && 10 <= |d.texts["content"]| <= 500
  {
    var s := TestimonialSchema;
    assert s.required * s.texts.Keys == {"name", "content", "image", "author", "rating"};
    assert "content" in s.lengths;
  }

  /** rating is a text that defaults to "2". */
  lemma RatingDefault(given: map<string, string>)
    requires "rating" !in given
    ensures Build(TestimonialSchema, given, map[]).value.texts["rating"] == "2"
  {
  }

  /** image is required yet defaults to "": a testimonial that relies on the
      default fails validation. */
  lemma ImageDefaultInvalid(given: map<string, string>)
    requires "image" !in given
    ensures !TestimonialValid(Build(TestimonialSchema, given, map[]).value)
  {
    var d := Build(TestimonialSchema, given, map[]).value;
    assert "image" in TestimonialSchema.required && "image" in TestimonialSchema.texts;
    assert d.texts["image"] == "";
  }
}
