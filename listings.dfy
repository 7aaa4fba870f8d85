/**
 * The Listing record of thryve_app/models.py: its two choice enumerations
 * (stored as short keys, shown with labels), its defaults and the bounds the
 * column definitions put on its fields.
 */
module Listings {
  import opened Wrappers
  import opened Users

  datatype ListingType = Sale | Swap | Buy

  /** The stored key of a listing type. */
  function ListingTypeKey(t: ListingType): string
  {
    match t
    case Sale => "sale"
    case Swap => "swap"
    case Buy => "buy"
  }

  /** The label shown for a listing type. */
  function ListingTypeLabel(t: ListingType): string
  {
    match t
    case Sale => "For Sale"
    case Swap => "For Swap"
    case Buy => "Looking to Buy"
  }

  /** The listing type a stored key stands for; None for anything but the three keys. */
  function ParseListingType(key: string): (r: Option<ListingType>)
    ensures r.Some? ==> ListingTypeKey(r.value) == key
    ensures r.None? <==> forall t :: ListingTypeKey(t) != key
  {
    if key == "sale" then Some(Sale)
    else if key == "swap" then Some(Swap)
    else if key == "buy" then Some(Buy)
    else
      assert ListingTypeKey(Sale) != key && ListingTypeKey(Swap) != key && ListingTypeKey(Buy) != key;
      None
  }

  datatype Category = Electronics | Furniture | Other

  /** The category a listing gets when none is given. */
  const DefaultCategory := Other

  /** The stored key of a category. */
  function CategoryKey(c: Category): string
  {
    match c
    case Electronics => "electronics"
    case Furniture => "furniture"
    case Other => "other"
  }

  /** The label shown for a category. */
  function CategoryLabel(c: Category): string
  {
    match c
    case Electronics => "Electronics"
    case Furniture => "Furniture"
    case Other => "Other"
  }

  /** The category a stored key stands for; None for anything but the three keys. */
  function ParseCategory(key: string): (r: Option<Category>)
    ensures r.Some? ==> CategoryKey(r.value) == key
    ensures r.None? <==> forall c :: CategoryKey(c) != key
  {
    if key == "electronics" then Some(Electronics)
    else if key == "furniture" then Some(Furniture)
    else if key == "other" then Some(Other)
    else
      assert CategoryKey(Electronics) != key && CategoryKey(Furniture) != key && CategoryKey(Other) != key;
      None
  }

  /** The (key, label) pairs of the category choices, in declaration order. */
  const CategoryChoices: seq<(string, string)> :=
    [("electronics", "Electronics"), ("furniture", "Furniture"), ("other", "Other")]

  /** Keys and parsing agree both ways, and the choice list pairs each key with its label. */
  lemma CategoryKeysRoundTrip(c: Category)
    ensures ParseCategory(CategoryKey(c)) == Some(c)
    ensures (CategoryKey(c), CategoryLabel(c)) in CategoryChoices
    ensures forall i :: 0 <= i < |CategoryChoices| ==> ParseCategory(CategoryChoices[i].0).Some?
  {
  }

  lemma ListingTypeKeysRoundTrip(t: ListingType)
    ensures ParseListingType(ListingTypeKey(t)) == Some(t)
  {
  }

  const MaxTitleLength := 200
  const MaxShortTextLength := 100

  /** A DecimalField(max_digits=10, decimal_places=2) holds fewer than 10^10 hundredths. */
  const DecimalCentsBound := 10_000_000_000

  /** An amount, in hundredths, the price and budget columns can hold. */
  predicate FitsDecimalColumn(cents: int)
  {
    -DecimalCentsBound < cents < DecimalCentsBound
  }

  /** A listing row. Money is in hundredths; createdAt is the creation time as a number. */
  datatype Listing = Listing(
    owner: UserId,
    listingType: ListingType,
    category: Category,
    title: string,
    description: string,
    price: Option<int>,
    swapFor: Option<string>,
    budget: Option<int>,
    yourName: string,
    company: string,
    location: string,
    createdAt: int,
    isAvailable: bool)

  /** The column bounds: title at most 200 characters, the three name fields at most 100, amounts within the decimal column. */
  predicate ValidListing(l: Listing)
  {
    && |l.title| <= MaxTitleLength
    && |l.yourName| <= MaxShortTextLength
    && |l.company| <= MaxShortTextLength
    && |l.location| <= MaxShortTextLength
    && (l.price.Some? ==> FitsDecimalColumn(l.price.value))
    && (l.budget.Some? ==> FitsDecimalColumn(l.budget.value))
  }

  /**
   * A new row: every given field is stored as given, the row is available,
   * created now, and in the given category or the default one when none is
   * given.
   */
  function NewListing(
    owner: UserId, listingType: ListingType, category: Option<Category>, title: string, description: string,
    price: Option<int>, swapFor: Option<string>, budget: Option<int>,
    yourName: string, company: string, location: string, now: int): (l: Listing)
    ensures l.isAvailable && l.createdAt == now
    ensures category.None? ==> l.category == DefaultCategory
    ensures category.Some? ==> l.category == category.value
    ensures l.owner == owner && l.listingType == listingType
    ensures l.title == title && l.description == description
    ensures l.price == price && l.swapFor == swapFor && l.budget == budget
    ensures l.yourName == yourName && l.company == company && l.location == location
    ensures ValidListing(l) <==>
      && |title| <= 200 && |yourName| <= 100 && |company| <= 100 && |location| <= 100
      && (price.Some? ==> -10_000_000_000 < price.value < 10_000_000_000)
      && (budget.Some? ==> -10_000_000_000 < budget.value < 10_000_000_000)
  {
    Listing(owner, listingType, if category.Some? then category.value else DefaultCategory, title, description,
            price, swapFor, budget, yourName, company, location, now, true)
  }

  /** The string form of a listing is its title, so a valid listing prints in at most 200 characters. */
  function ListingToString(l: Listing): (s: string)
    ensures ValidListing(l) ==> |s| <= MaxTitleLength
  {
    l.title
  }
}
