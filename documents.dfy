/** What the catalog schemas (Pet, Product, Testimonial) do to a document:
    casting text to numbers, filling defaults when a document is built, and
    the required / min / minlength / maxlength validators run on save. */
module Documents {
  import opened Common
  import opened Strings

  /** The value of a Number path: null, or a number. Amounts are whole
      numbers in this model. */
  datatype Number = Null | Num(n: int)

  /** The text of a whole number as a form field carries it. */
  function NumberText(n: int): string
  {
    if n >= 0 then Decimal(n) else "-" + Decimal(-n)
  }

  /** Casting a text field to a Number path: "" casts to null, a run of
      digits with an optional leading '-' or '+' to its value; anything else
      is a cast error. */
  function CastNumber(t: string): (r: Option<Number>)
    ensures r == Some(Null) <==> t == ""
    ensures r.Some? && r.value.Num? && r.value.n < 0 ==> t[0] == '-'
  {
    if t == "" then Some(Null)
    else if AllDigits(t) then Some(Num(ParseDecimal(t)))
    else if t[0] == '-' && |t| > 1 && AllDigits(t[1..]) then Some(Num(0 - ParseDecimal(t[1..])))
    else if t[0] == '+' && |t| > 1 && AllDigits(t[1..]) then Some(Num(ParseDecimal(t[1..])))
    else None
  }

  /** A leading '+' casts to the same number as the digits alone. */
  lemma CastPlusSign(d: string)
    requires d != [] && AllDigits(d)
    ensures CastNumber("+" + d) == CastNumber(d)
  {
    var t := "+" + d;
    assert t[1..] == d;
    assert !AllDigits(t) by {
      assert !IsDigit(t[0]);
    }
  }

  /** Casting the text of a number gives that number back. */
  lemma CastNumberText(n: int)
    ensures CastNumber(NumberText(n)) == Some(Num(n))
  {
    if n >= 0 {
      ParseDecimalRoundTrip(n);
    } else {
      var t := NumberText(n);
      assert t[1..] == Decimal(-n);
      assert !AllDigits(t) by {
        assert !IsDigit(t[0]);
      }
      ParseDecimalRoundTrip(-n);
    }
  }

  /** A schema: its String paths, Number paths and [String] paths with their
      defaults (None where the path has no default), and its validators. */
  datatype Schema = Schema(
    texts: map<string, Option<string>>,
    numbers: map<string, Option<int>>,
    lists: map<string, seq<string>>,
    required: set<string>,
    nonNegative: set<string>,
    lengths: map<string, (nat, nat)>)

  /** A stored document: the paths that hold a value, by kind. */
  datatype Doc = Doc(texts: map<string, string>, numbers: map<string, Number>, lists: map<string, seq<string>>)

  /** The validators run by `save`: a required String path holds a non-empty
      text, a required Number path a number; a `min: 0` path is not negative;
      a text with a length bound lies within it. */
  predicate Valid(s: Schema, d: Doc)
  {
    && (forall f :: f in s.required && f in s.texts ==> f in d.texts && d.texts[f] != "")
    && (forall f :: f in s.required && f in s.numbers ==> f in d.numbers && d.numbers[f].Num?)
    && (forall f :: f in s.nonNegative && f in d.numbers && d.numbers[f].Num? ==> d.numbers[f].n >= 0)
    && (forall f :: f in s.lengths && f in d.texts ==> s.lengths[f].0 <= |d.texts[f]| <= s.lengths[f].1)
  }

  /** Whether some given Number field fails to cast. */
  predicate CastFails(s: Schema, given: map<string, string>)
  {
    exists f :: f in s.numbers && f in given && CastNumber(given[f]).None?
  }

  /** `new Model(fields)`: a given field takes its (cast) value, a field not
      given takes its default, and a field with neither stays unset. None when
      a Number field cannot be cast (the error `save` then reports). */
  function Build(s: Schema, given: map<string, string>, lists: map<string, seq<string>>): (r: Option<Doc>)
    ensures r.None? <==> CastFails(s, given)
    ensures r.Some? ==>
      && (forall f :: f in s.texts && f in given ==> f in r.value.texts && r.value.texts[f] == given[f])
      && (forall f :: f in s.texts && f !in given ==>
            if s.texts[f].Some? then f in r.value.texts && r.value.texts[f] == s.texts[f].value
            else f !in r.value.texts)
      && (forall f :: f in s.numbers && f in given ==> f in r.value.numbers && Some(r.value.numbers[f]) == CastNumber(given[f]))
      && (forall f :: f in s.numbers && f !in given ==>
            if s.numbers[f].Some? then f in r.value.numbers && r.value.numbers[f] == Num(s.numbers[f].value)
            else f !in r.value.numbers)
      && (forall f :: f in s.lists ==> f in r.value.lists && r.value.lists[f] == if f in lists then lists[f] else s.lists[f])
  {
    if CastFails(s, given) then None
    else
      Some(Doc(
        map f | f in s.texts && (f in given || s.texts[f].Some?) :: if f in given then given[f] else s.texts[f].value,
        map f | f in s.numbers && (f in given || s.numbers[f].Some?) ::
          if f in given then CastNumber(given[f]).value else Num(s.numbers[f].value),
        map f | f in s.lists :: if f in lists then lists[f] else s.lists[f]))
  }

  /** A String path not given takes its default. */
  lemma TextDefault(s: Schema, given: map<string, string>, lists: map<string, seq<string>>, f: string, v: string)
    requires !CastFails(s, given) && f in s.texts && s.texts[f] == Some(v) && f !in given
    ensures f in Build(s, given, lists).value.texts && Build(s, given, lists).value.texts[f] == v
  {
  }

  /** A Number path not given takes its default. */
  lemma NumberDefault(s: Schema, given: map<string, string>, lists: map<string, seq<string>>, f: string, v: int)
    requires !CastFails(s, given) && f in s.numbers && s.numbers[f] == Some(v) && f !in given
    ensures f in Build(s, given, lists).value.numbers && Build(s, given, lists).value.numbers[f] == Num(v)
  {
  }

  /** `findByIdAndUpdate(id, fields)`: every given field of the schema is
      overwritten (a field left undefined is not part of the update), the
      rest is kept, and no validator runs. None when a Number field cannot be
      cast. */
  function Patch(s: Schema, d: Doc, given: map<string, string>, lists: map<string, seq<string>>): (r: Option<Doc>)
    ensures r.None? <==> CastFails(s, given)
    ensures r.Some? ==>
      && (forall f :: f in s.texts && f in given ==> f in r.value.texts && r.value.texts[f] == given[f])
      && (forall f :: f in s.numbers && f in given ==> f in r.value.numbers && Some(r.value.numbers[f]) == CastNumber(given[f]))
      && (forall f :: f in s.lists && f in lists ==> f in r.value.lists && r.value.lists[f] == lists[f])
      && (forall f :: f in d.texts && !(f in s.texts && f in given) ==> f in r.value.texts && r.value.texts[f] == d.texts[f])
      && (forall f :: f in d.numbers && !(f in s.numbers && f in given) ==> f in r.value.numbers && r.value.numbers[f] == d.numbers[f])
      && (forall f :: f in d.lists && !(f in s.lists && f in lists) ==> f in r.value.lists && r.value.lists[f] == d.lists[f])
  {
    if CastFails(s, given) then None
    else
      var casts := map f | f in s.numbers.Keys * given.Keys :: CastNumber(given[f]).value;
      Some(Doc(Overlay(d.texts, s.texts.Keys, given), Overlay(d.numbers, s.numbers.Keys, casts),
               Overlay(d.lists, s.lists.Keys, lists)))
  }

  /** `base` with the entries of `update` whose keys lie in `paths` written over it. */
  function Overlay<V>(base: map<string, V>, paths: set<string>, update: map<string, V>): (r: map<string, V>)
    ensures forall f :: f in paths && f in update ==> f in r && r[f] == update[f]
    ensures forall f :: f in base && !(f in paths && f in update) ==> f in r && r[f] == base[f]
    ensures forall f :: f in r ==> f in base || (f in paths && f in update)
  {
    map f | f in base.Keys + (paths * update.Keys) :: if f in paths && f in update then update[f] else base[f]
  }

  lemma OverlayIdempotent<V>(base: map<string, V>, paths: set<string>, update: map<string, V>)
    ensures Overlay(Overlay(base, paths, update), paths, update) == Overlay(base, paths, update)
  {
  }

  /** Applying the same update twice stores what applying it once does. */
  lemma PatchIdempotent(s: Schema, d: Doc, given: map<string, string>, lists: map<string, seq<string>>)
    requires !CastFails(s, given)
    ensures Patch(s, Patch(s, d, given, lists).value, given, lists) == Patch(s, d, given, lists)
  {
    var casts := map f | f in s.numbers.Keys * given.Keys :: CastNumber(given[f]).value;
    OverlayIdempotent(d.texts, s.texts.Keys, given);
    OverlayIdempotent(d.numbers, s.numbers.Keys, casts);
    OverlayIdempotent(d.lists, s.lists.Keys, lists);
  }
}
