/** The Product schema. */
module ProductModel {
  import opened Common
  import opened Documents

  /** The default of the images path. */
  const DefaultProductImages: seq<string> := ["../uploads/1737486070131.jpeg"]

  const ProductSchema: Schema := Schema(
    map["name" := None, "category" := None, "description" := None, "image" := None,
        "Feature" := Some("Healthy"), "Benefits" := Some("Sweet"),
        "offers" := Some("5% off on UPI"), "sizes" := Some("Pack of 1")],
    map["shippingCharges" := Some(100), "price" := None, "originalPrice" := Some(0), "discount" := Some(0)],
    map["images" := DefaultProductImages, "videos" := []],
    {"name", "category", "description", "image", "price"},
    {"shippingCharges", "price", "discount"},
    map[])

  predicate ProductValid(d: Doc)
  {
    Valid(ProductSchema, d)
  }

  /** A product passes validation exactly when name, category, description
      and image are non-empty texts, price is a number no less than 0, and a
      numeric shippingCharges or discount is not negative. */
  lemma ProductValidMeans(d: Doc)
    ensures ProductValid(d) <==>
      && (forall f :: f in {"name", "category", "description", "image"} ==> f in d.texts && d.texts[f] != "")
      && "price" in d.numbers && d.numbers["price"].Num? && d.numbers["price"].n >= 0
      && (forall f :: f in {"shippingCharges", "discount"} && f in d.numbers && d.numbers[f].Num? ==> d.numbers[f].n >= 0)
  {
    var s := ProductSchema;
    assert s.required * s.texts.Keys == {"name", "category", "description", "image"};
    assert s.required * s.numbers.Keys == {"price"};
  }

  /** A new product takes the schema's defaults for the numbers not given:
      shippingCharges 100, originalPrice and discount 0. */
  lemma NewProductNumberDefaults(given: map<string, string>, lists: map<string, seq<string>>)
    requires !CastFails(ProductSchema, given)
    requires "shippingCharges" !in given && "originalPrice" !in given && "discount" !in given
    ensures var d := Build(ProductSchema, given, lists).value;
      && d.numbers["shippingCharges"] == Num(100)
      && d.numbers["originalPrice"] == Num(0)
      && d.numbers["discount"] == Num(0)
  {
    NumberDefault(ProductSchema, given, lists, "shippingCharges", 100);
    NumberDefault(ProductSchema, given, lists, "originalPrice", 0);
    NumberDefault(ProductSchema, given, lists, "discount", 0);
  }

  /** ... and for the texts and lists not given: Feature "Healthy", Benefits
      "Sweet", offers "5% off on UPI", sizes "Pack of 1", the stock image list
      and no videos. */
  lemma NewProductTextDefaults(given: map<string, string>)
    requires !CastFails(ProductSchema, given)
    requires "Feature" !in given && "Benefits" !in given && "offers" !in given && "sizes" !in given
    ensures var d := Build(ProductSchema, given, map[]).value;
      && d.texts["Feature"] == "Healthy" && d.texts["Benefits"] == "Sweet"
      && d.texts["offers"] == "5% off on UPI" && d.texts["sizes"] == "Pack of 1"
      && d.lists == map["images" := DefaultProductImages, "videos" := []]
  {
    var s := ProductSchema;
    TextDefault(s, given, map[], "Feature", "Healthy");
    TextDefault(s, given, map[], "Benefits", "Sweet");
    TextDefault(s, given, map[], "offers", "5% off on UPI");
    TextDefault(s, given, map[], "sizes", "Pack of 1");
    var d := Build(s, given, map[]).value;
    assert d.lists.Keys == {"images", "videos"};
  }
}
