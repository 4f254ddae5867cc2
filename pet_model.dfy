/** The Pet schema. */
module PetModel {
  import opened Common
  import opened Documents

  /** The descriptive String paths, all defaulting to "". */
  const PetDetails: set<string> := {"color", "bodyType", "height", "weight", "distinctFeature", "vaccinations",
                                    "temperament", "food", "funfact", "toys", "offers", "sizes", "gender"}

  const PetSchema: Schema := Schema(
    map["breed" := None, "description" := None, "image" := None,
        "color" := Some(""), "bodyType" := Some(""), "height" := Some(""), "weight" := Some(""),
        "distinctFeature" := Some(""), "vaccinations" := Some(""), "temperament" := Some(""),
        "food" := Some(""), "funfact" := Some(""), "toys" := Some(""),
        "offers" := Some(""), "sizes" := Some(""), "gender" := Some(""),
        "category" := Some("")],
    map["price" := None, "originalPrice" := Some(0), "discount" := Some(0)],
    map["images" := [], "videos" := []],
    {"breed", "description", "image", "price", "category"},
    {"price", "discount"},
    map[])

  predicate PetValid(d: Doc)
  {
    Valid(PetSchema, d)
  }

  /** A pet passes validation exactly when breed, description, image and
      category are non-empty texts, price is a number no less than 0, and a
      numeric discount is not negative. */
  lemma PetValidMeans(d: Doc)
    ensures PetValid(d) <==>
      && (forall f :: f in {"breed", "description", "image", "category"} ==> f in d.texts && d.texts[f] != "")
      && "price" in d.numbers && d.numbers["price"].Num? && d.numbers["price"].n >= 0
      && ("discount" in d.numbers && d.numbers["discount"].Num? ==> d.numbers["discount"].n >= 0)
  {
    var s := PetSchema;
    assert s.required * s.texts.Keys == {"breed", "description", "image", "category"};
    assert s.required * s.numbers.Keys == {"price"};
  }

  /** A new pet takes "" for a descriptive path not given, and 0 for
      originalPrice and discount when not given. */
  lemma NewPetDefaults(given: map<string, string>, lists: map<string, seq<string>>, f: string)
    requires !CastFails(PetSchema, given)
    ensures var d := Build(PetSchema, given, lists).value;
      && (f in PetDetails && f !in given ==> f in d.texts && d.texts[f] == "")
      && ("originalPrice" !in given ==> d.numbers["originalPrice"] == Num(0))
      && ("discount" !in given ==> d.numbers["discount"] == Num(0))
  {
    if f in PetDetails && f !in given {
      TextDefault(PetSchema, given, lists, f, "");
    }
    if "originalPrice" !in given {
      NumberDefault(PetSchema, given, lists, "originalPrice", 0);
    }
    if "discount" !in given {
      NumberDefault(PetSchema, given, lists, "discount", 0);
    }
  }

  /** category is required yet defaults to "": a pet that relies on the
      default fails validation. */
  lemma CategoryDefaultInvalid(given: map<string, string>, lists: map<string, seq<string>>)
    requires !CastFails(PetSchema, given) && "category" !in given
    ensures !PetValid(Build(PetSchema, given, lists).value)
  {
    var d := Build(PetSchema, given, lists).value;
    assert "category" in PetSchema.required && "category" in PetSchema.texts;
    assert d.texts["category"] == "";
  }
}
