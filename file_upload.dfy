/** getUploadPath: the object-store key under which an uploaded file is put,
    chosen from the mount path of the router that received the upload. The
    clock reading is a parameter. */
module FileUpload {
  import opened Common
  import opened Strings

  /** The folder of the key: "products" when the mount path contains
      "products", else "testimonials" when it contains "testimonials", else
      "pets". "products" is tested first. */
  function UploadFolder(baseUrl: string): (f: string)
    ensures f == "products" <==> Contains(baseUrl, "products")
    ensures f == "testimonials" <==> !Contains(baseUrl, "products") && Contains(baseUrl, "testimonials")
    ensures f == "pets" <==> !Contains(baseUrl, "products") && !Contains(baseUrl, "testimonials")
  {
    if Contains(baseUrl, "products") then "products"
    else if Contains(baseUrl, "testimonials") then "testimonials"
    else "pets"
  }

  /** `<folder>/<now>-<originalname>`, `now` in milliseconds written in decimal. */
  function GetUploadPath(baseUrl: string, now: nat, originalName: string): string
  {
    UploadFolder(baseUrl) + "/" + Decimal(now) + "-" + originalName
  }

  datatype UploadKey = UploadKey(folder: string, time: nat, originalName: string)

  /** Reads a key back: the folder up to the first '/', the digits up to the
      next '-', and the rest as the file's own name. */
  function ParseKey(key: string): Option<UploadKey>
  {
    match SplitAt(key, '/')
    case None => None
    case Some((folder, rest)) =>
      match SplitAt(rest, '-')
      case None => None
      case Some((digits, name)) =>
        if |digits| > 0 && AllDigits(digits) then Some(UploadKey(folder, ParseDecimal(digits), name)) else None
  }

  /** A key determines the folder, the time and the name it was built from,
      whatever the name contains. */
  lemma KeyRoundTrip(baseUrl: string, now: nat, originalName: string)
    ensures ParseKey(GetUploadPath(baseUrl, now, originalName)) ==
      Some(UploadKey(UploadFolder(baseUrl), now, originalName))
  {
    var folder, digits := UploadFolder(baseUrl), Decimal(now);
    var rest := digits + "-" + originalName;
    assert GetUploadPath(baseUrl, now, originalName) == folder + ['/'] + rest;
    assert '/' !in folder;
    SplitAtFirst(folder, '/', rest);
    assert '-' !in digits by {
      forall i | 0 <= i < |digits| ensures digits[i] != '-' {
        assert IsDigit(digits[i]);
      }
    }
    SplitAtFirst(digits, '-', originalName);
    ParseDecimalRoundTrip(now);
  }

  /** Two uploads get the same key only when they share folder, millisecond and name. */
  lemma KeysCollideOnlyOnSameInputs(b1: string, t1: nat, n1: string, b2: string, t2: nat, n2: string)
    requires GetUploadPath(b1, t1, n1) == GetUploadPath(b2, t2, n2)
    ensures UploadFolder(b1) == UploadFolder(b2) && t1 == t2 && n1 == n2
  {
    KeyRoundTrip(b1, t1, n1);
    KeyRoundTrip(b2, t2, n2);
  }

  /** A character of the pattern that the text lacks rules the pattern out. */
  lemma AbsentChar(s: string, pat: string, k: nat)
    requires k < |pat| && pat[k] !in s
    ensures !Contains(s, pat)
  {
    forall j ensures !OccursAt(s, pat, j) {
      if 0 <= j && j + |pat| <= |s| {
        assert s[j..j + |pat|][k] == s[j + k];
      }
    }
  }

  lemma OccursContains(s: string, pat: string, j: int)
    requires OccursAt(s, pat, j)
    ensures Contains(s, pat)
  {
  }

  /** The routers are mounted at "/api/product", "/api/testimonial" and
      "/api/pet"; none of these contains "products" or "testimonials", so
      every upload lands under "pets/". */
  lemma MountedRoutesAllPets()
    ensures UploadFolder("/api/product") == "pets"
    ensures UploadFolder("/api/testimonial") == "pets"
    ensures UploadFolder("/api/pet") == "pets"
  {
    ProductRouteFolder();
    TestimonialRouteFolder();
    PetRouteFolder();
  }

  /** A path lacking a letter of each word goes to "pets". */
  lemma LacksLetterOfEach(s: string, k1: nat, k2: nat)
    requires k1 < 8 && "products"[k1] !in s
    requires k2 < 12 && "testimonials"[k2] !in s
    ensures UploadFolder(s) == "pets"
  {
    AbsentChar(s, "products", k1);
    AbsentChar(s, "testimonials", k2);
  }

  lemma ProductRouteFolder()
    ensures UploadFolder("/api/product") == "pets"
  {
    LacksLetterOfEach("/api/product", 7, 1);
  }

  lemma TestimonialRouteFolder()
    ensures UploadFolder("/api/testimonial") == "pets"
  {
    AbsentChar("/api/testimonial", "products", 1);
    TestimonialRouteLacksPlural();
  }

  lemma PetRouteFolder()
    ensures UploadFolder("/api/pet") == "pets"
  {
    LacksLetterOfEach("/api/pet", 1, 5);
  }

  /** Every letter of "testimonials" occurs in "/api/testimonial"; the word
      would need an 's' after "testimonial", where the path ends. */
  lemma TestimonialRouteLacksPlural()
    ensures !Contains("/api/testimonial", "testimonials")
  {
    var s := "/api/testimonial";
    var tail := s[11..];
    assert tail == "onial";
    forall j ensures !OccursAt(s, "testimonials", j) {
      if 0 <= j && j + 12 <= |s| {
        assert s[j..j + 12][11] == tail[j];
      }
    }
  }

  /** The folder choice as evidently intended: matched against the singular
      words that the mount paths actually contain. */
  function IntendedUploadFolder(baseUrl: string): (f: string)
    ensures f == "products" <==> Contains(baseUrl, "product")
    ensures f == "testimonials" <==> !Contains(baseUrl, "product") && Contains(baseUrl, "testimonial")
    ensures f == "pets" <==> !Contains(baseUrl, "product") && !Contains(baseUrl, "testimonial")
  {
    if Contains(baseUrl, "product") then "products"
    else if Contains(baseUrl, "testimonial") then "testimonials"
    else "pets"
  }

  lemma IntendedTestimonialOf(s: string, k: nat, j: int)
    requires k < 7 && "product"[k] !in s
    requires OccursAt(s, "testimonial", j)
    ensures IntendedUploadFolder(s) == "testimonials"
  {
    AbsentChar(s, "product", k);
    OccursContains(s, "testimonial", j);
  }

  /** Under the intended test each router's uploads get their own folder. */
  lemma IntendedFolderPerRoute()
    ensures IntendedUploadFolder("/api/product") == "products"
    ensures IntendedUploadFolder("/api/testimonial") == "testimonials"
    ensures IntendedUploadFolder("/api/pet") == "pets"
  {
    IntendedProductFolder();
    IntendedTestimonialFolder();
    IntendedPetFolder();
  }

  lemma IntendedProductFolder()
    ensures IntendedUploadFolder("/api/product") == "products"
  {
    OccursContains("/api/product", "product", 5);
  }

  lemma IntendedTestimonialFolder()
    ensures IntendedUploadFolder("/api/testimonial") == "testimonials"
  {
    var s := "/api/testimonial";
    assert s[5..16] == "testimonial";
    assert OccursAt(s, "testimonial", 5);
    assert 'r' !in s by {
      forall i | 0 <= i < |s| ensures s[i] != 'r' {
      }
    }
    IntendedTestimonialOf(s, 1, 5);
  }

  lemma IntendedPetFolder()
    ensures IntendedUploadFolder("/api/pet") == "pets"
  {
    AbsentChar("/api/pet", "product", 1);
  }
}
