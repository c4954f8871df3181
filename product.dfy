/**
 * The `Product` entity: its fields, the validation its data annotations
 * impose (`Required`, `Range(0, 1000)`, `Precision(9, 3)`, `MaxLength(4098)`)
 * and `GetDescriptionForDisplay`.
 */
module Products {
  import opened Wrappers
  import opened DotNetText
  import opened IntParsing

  /** `MaxLength(4098)` on `Description` (the column is `character varying(4098)`). */
  const MaxDescriptionLength: nat := 4098

  /** `Range(0, 1000)` on `Price`, in whole currency units. */
  const MinPriceUnits: int := 0
  const MaxPriceUnits: int := 1000

  /** `Precision(9, 3)`: a price is held as a whole number of thousandths. */
  const PriceScale: int := 1000

  /** `GetDescriptionForDisplay` keeps this many characters of a long description ... */
  const DisplayLength: nat := 64

  /** ... and marks the cut with this suffix. */
  const Ellipsis: string := " ..."

  /**
   * A catalog item. `price` counts thousandths of a currency unit; a `None`
   * description is a `null` one.
   */
  datatype Product = Product(id: int32, name: string, price: int, description: Option<string>)

  /** `Required` on a string rejects `null`, the empty string and white space only. */
  predicate NameValid(name: string)
  {
    !IsNullOrWhiteSpace(Some(name))
  }

  /** The price lies between 0 and 1000 units inclusive (the bounds `Range(0, 1000)` states). */
  predicate PriceInRange(price: int)
  {
    MinPriceUnits * PriceScale <= price <= MaxPriceUnits * PriceScale
  }

  predicate DescriptionValid(description: Option<string>)
  {
    description.None? || |description.value| <= MaxDescriptionLength
  }

  /** A product that passes model validation, so that it may be stored. */
  predicate IsValid(p: Product)
    ensures IsValid(p) ==>
              && |p.name| > 0
              && 0 <= p.price <= 1000 * PriceScale
              && (p.description.None? || |p.description.value| <= 4098)
  {
    NameValid(p.name) && PriceInRange(p.price) && DescriptionValid(p.description)
  }

  /**
   * `Convert.ToInt32` of a decimal held in thousandths: rounds to the nearest
   * whole unit, and a tie to the even neighbour.
   */
  function RoundHalfToEven(thousandths: int): (units: int)
    ensures 2 * PriceScale * units - PriceScale <= 2 * thousandths <= 2 * PriceScale * units + PriceScale
    ensures 2 * thousandths == 2 * PriceScale * units - PriceScale ==> units % 2 == 0
    ensures 2 * thousandths == 2 * PriceScale * units + PriceScale ==> units % 2 == 0
  {
    var q := thousandths / PriceScale;
    var rest := thousandths % PriceScale;
    if rest < PriceScale / 2 then q
    else if rest > PriceScale / 2 then q + 1
    else if q % 2 == 0 then q
    else q + 1
  }

  /**
   * What `Range(0, 1000)` actually checks of a decimal: the attribute's bounds
   * are `int`s, so it converts the price with `Convert.ToInt32` and compares
   * the rounded value. It accepts exactly the prices from -0.5 to 1000.5.
   */
  predicate PriceInRangeAsWritten(price: int)
    ensures PriceInRangeAsWritten(price) <==> -500 <= price <= 1_000_500
  {
    MinPriceUnits <= RoundHalfToEven(price) <= MaxPriceUnits
  }

  /** A price of -0.4 passes the attribute although it is below the intended bound. */
  lemma RangeAttributeAcceptsNegativePrice()
    ensures PriceInRangeAsWritten(-400) && !PriceInRange(-400)
    ensures PriceInRangeAsWritten(1_000_400) && !PriceInRange(1_000_400)
  {
  }

  /** Every price the intended bound admits also passes the attribute as written. */
  lemma PriceInRangePassesAttribute(price: int)
    requires PriceInRange(price)
    ensures PriceInRangeAsWritten(price)
  {
  }

  /**
   * `GetDescriptionForDisplay`: nothing for a blank description; a long one
   * cut to its first 64 characters followed by " ..."; a short one unchanged.
   */
  function GetDescriptionForDisplay(description: Option<string>): (r: string)
    ensures r == [] <==> IsNullOrWhiteSpace(description)
    ensures |r| <= DisplayLength + |Ellipsis|
    ensures !IsNullOrWhiteSpace(description) && |description.value| > DisplayLength ==>
              r == description.value[..DisplayLength] + Ellipsis
    ensures !IsNullOrWhiteSpace(description) && |description.value| <= DisplayLength ==>
              r == description.value
    ensures r == [] || r <= description.value ||
              (|r| == DisplayLength + |Ellipsis| && r[..DisplayLength] <= description.value && r[DisplayLength..] == Ellipsis)
  {
    if !IsNullOrWhiteSpace(description) then
      if |description.value| > DisplayLength then
        description.value[..DisplayLength] + Ellipsis
      else
        description.value
    else
      ""
  }
}
