/** `ProductRequestDTO` and the Bean Validation constraints on its fields,
    as one validity predicate. A null field is `None`. */
module ProductRequests {
  import opened Common

  /** `ProductCategory`, as the message on the category constraint lists it. */
  datatype Category = ELECTRONICS | BOOKS | FOOD | OTHER

  datatype ProductRequest = ProductRequest(
    name: Option<string>,
    description: Option<string>,
    price: Option<real>,
    stock: Option<Int32>,
    category: Option<Category>)

  // ---------------------------------------------------------------------
  // `String.trim`, which `@NotBlank` applies

  /** The characters `trim` removes at either end: U+0000 to U+0020. */
  predicate IsTrimmed(c: char)
  {
    c <= ' '
  }

  /** `s` without its leading trimmed characters. */
  function DropLeading(s: string): (r: string)
    ensures |r| <= |s| && r == s[|s| - |r|..]
    ensures r != [] ==> !IsTrimmed(r[0])
    ensures forall i :: 0 <= i < |s| - |r| ==> IsTrimmed(s[i])
  {
    if s != [] && IsTrimmed(s[0]) then DropLeading(s[1..]) else s
  }

  /** `s` without its trailing trimmed characters. */
  function DropTrailing(s: string): (r: string)
    ensures |r| <= |s| && r == s[..|r|]
    ensures r != [] ==> !IsTrimmed(r[|r| - 1])
    ensures forall i :: |r| <= i < |s| ==> IsTrimmed(s[i])
  {
    if s != [] && IsTrimmed(s[|s| - 1]) then DropTrailing(s[..|s| - 1]) else s
  }

  /** `String.trim`. */
  function Trim(s: string): string
  {
    DropTrailing(DropLeading(s))
  }

  /** A string trims to nothing exactly when every character of it is one that
      `trim` removes. */
  lemma TrimEmptyIffBlank(s: string)
    ensures Trim(s) == [] <==> forall i :: 0 <= i < |s| ==> IsTrimmed(s[i])
  {
  }

  // ---------------------------------------------------------------------
  // The constraints

  /** `@NotBlank`: present, and not empty once trimmed. */
  predicate NotBlank(s: Option<string>)
  {
    s.Some? && Trim(s.value) != []
  }

  /** `@Size(min, max)`: a null value passes; otherwise the length is in range. */
  predicate SizeWithin(s: Option<string>, min: nat, max: nat)
  {
    s.None? || min <= |s.value| <= max
  }

  /** `@DecimalMin(m)`, inclusive: a null value passes. */
  predicate DecimalMin(x: Option<real>, m: real)
  {
    x.None? || x.value >= m
  }

  /** `@Min(m)`: a null value passes. */
  predicate Min(x: Option<Int32>, m: int)
  {
    x.None? || x.value >= m
  }

  /** The bounds of the two `@Size` constraints, which both read `min = 2, max = 50`. */
  const NAME_MIN: nat := 2
  const NAME_MAX: nat := 50
  const DESCRIPTION_MIN: nat := 2
  const DESCRIPTION_MAX: nat := 50
  /** The bound of `@DecimalMin("0.01")` on the price. */
  const PRICE_MIN: real := 0.01

  predicate NameValid(r: ProductRequest)
  {
    NotBlank(r.name) && SizeWithin(r.name, NAME_MIN, NAME_MAX)
  }

  predicate DescriptionValid(r: ProductRequest)
  {
    NotBlank(r.description) && SizeWithin(r.description, DESCRIPTION_MIN, DESCRIPTION_MAX)
  }

  predicate PriceValid(r: ProductRequest)
  {
    r.price.Some? && DecimalMin(r.price, PRICE_MIN)
  }

  predicate StockValid(r: ProductRequest)
  {
    r.stock.Some? && Min(r.stock, 0)
  }

  predicate CategoryValid(r: ProductRequest)
  {
    r.category.Some?
  }

  /** The request passes `@Valid`: every field meets all its constraints. */
  predicate IsValid(r: ProductRequest)
  {
    NameValid(r) && DescriptionValid(r) && PriceValid(r) && StockValid(r) && CategoryValid(r)
  }

  /** `@NotBlank` holds exactly for a present string with a character other
      than U+0000..U+0020. */
  lemma NotBlankIff(s: Option<string>)
    ensures NotBlank(s) <==> s.Some? && exists i :: 0 <= i < |s.value| && s.value[i] > ' '
  {
    if s.Some? {
      TrimEmptyIffBlank(s.value);
    }
  }

  /** A request is valid if and only if its name and description are present,
      have between 2 and 50 characters and contain a character other than
      U+0000..U+0020, its price is present and at least 0.01, its stock is
      present and not negative, and its category is present. */
  lemma ValidIff(r: ProductRequest)
    ensures IsValid(r) <==>
      && r.name.Some? && 2 <= |r.name.value| <= 50
      && (exists i :: 0 <= i < |r.name.value| && r.name.value[i] > ' ')
      && r.description.Some? && 2 <= |r.description.value| <= 50
      && (exists i :: 0 <= i < |r.description.value| && r.description.value[i] > ' ')
      && r.price.Some? && r.price.value >= 0.01
      && r.stock.Some? && r.stock.value >= 0
      && r.category.Some?
  {
    NotBlankIff(r.name);
    NotBlankIff(r.description);
  }

  /** A valid request, and each constraint broken on its own: the five
      constraints are independent, and each alone rejects the request while
      the other four still hold. */
  lemma EachViolationAloneRejects()
    ensures var ok := ProductRequest(Some("Lamp"), Some("Desk lamp"), Some(19.90), Some(5), Some(OTHER));
      var n, d, p := ok.(name := Some("  ")), ok.(description := None), ok.(price := Some(0.0));
      var s, c := ok.(stock := Some(-1)), ok.(category := None);
      && IsValid(ok)
      && !IsValid(n) && !NameValid(n) && DescriptionValid(n) && PriceValid(n) && StockValid(n) && CategoryValid(n)
      && !IsValid(d) && NameValid(d) && !DescriptionValid(d) && PriceValid(d) && StockValid(d) && CategoryValid(d)
      && !IsValid(p) && NameValid(p) && DescriptionValid(p) && !PriceValid(p) && StockValid(p) && CategoryValid(p)
      && !IsValid(s) && NameValid(s) && DescriptionValid(s) && PriceValid(s) && !StockValid(s) && CategoryValid(s)
      && !IsValid(c) && NameValid(c) && DescriptionValid(c) && PriceValid(c) && StockValid(c) && !CategoryValid(c)
  {
    assert DropLeading("Lamp") == "Lamp";
    assert DropTrailing("Lamp") == "Lamp";
    assert DropLeading("Desk lamp") == "Desk lamp";
    assert DropTrailing("Desk lamp") == "Desk lamp";
    assert DropLeading("  ") == [] by {
      assert "  "[1..] == " " && " "[1..] == [];
    }
  }

  /** The messages on the two `@Size` constraints promise 3..100 and 10..500
      characters, but the annotations enforce 2..50: a two-character name
      and a two-character description pass, and a 51-character name fails. */
  lemma SizeBoundsAreTheAnnotations(any: char)
    requires any > ' '
    ensures var ok := ProductRequest(Some("ab"), Some("ab"), Some(0.01), Some(0), Some(BOOKS));
      && IsValid(ok)
      && !IsValid(ok.(name := Some(seq(51, _ => any))))
  {
    assert DropLeading("ab") == "ab" && DropTrailing("ab") == "ab";
  }
}
