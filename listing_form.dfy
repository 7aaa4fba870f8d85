/**
 * The listing form of marketplace_app/forms.py: the two image validators, the
 * field set-up done when the form is built, and the cleaning of the
 * description, the date and the form as a whole.
 */
module ListingForm {
  import opened Wrappers
  import opened Text
  import opened Images
  import opened Listings

  datatype ImageError = TooManyImages(existing: nat, adding: nat) | ImageTooLarge(name: string) | UnsupportedFormat(name: string)

  /** validate_images_count: refused exactly when the new files and the existing ones come to more than five. */
  function ValidateImagesCount(files: seq<Upload>, existingCount: nat): (r: Result<bool, ImageError>)
    ensures r.Err? <==> |files| + existingCount > MaxListingImages
    ensures r.Err? ==> r.error == TooManyImages(existingCount, |files|)
    ensures r.Ok? ==> r.value
  {
    var total := |files| + existingCount;
    if total > 5 then Err(TooManyImages(existingCount, |files|)) else Ok(true)
  }

  /** validate_image_file: the size is checked first, then the format when a content type is present. */
  function ValidateImageFile(image: Upload): (r: Result<bool, ImageError>)
    ensures r.Err? <==> TooLarge(image) || BadFormat(image)
    ensures TooLarge(image) ==> r == Err(ImageTooLarge(image.name))
    ensures !TooLarge(image) && BadFormat(image) ==> r == Err(UnsupportedFormat(image.name))
    ensures image.size == MaxImageBytes && image.contentType == None ==> r.Ok?
  {
    var maxSize := 5 * 1024 * 1024;
    if image.size > maxSize then Err(ImageTooLarge(image.name))
    else if image.contentType.Some? && image.contentType.value !in {"image/jpeg", "image/png", "image/gif", "image/webp"} then
      Err(UnsupportedFormat(image.name))
    else Ok(true)
  }

  const MaxDescriptionLength := 5000
  const MinDescriptionLength := 10

  datatype DescriptionError = DescriptionTooLong | DescriptionTooShort

  /**
   * clean_description: an absent or empty description is returned as it is;
   * otherwise every whitespace run becomes one space and the ends are trimmed,
   * and the result must have 10 to 5000 characters (too long is reported first).
   */
  function CleanDescription(description: Option<string>): (r: Result<Option<string>, DescriptionError>)
    ensures description.None? || description.value == "" ==> r == Ok(description)
    ensures description.Some? && description.value != "" ==>
      var normalised := Collapse(description.value);
      && (r.Err? <==> |normalised| > MaxDescriptionLength || |normalised| < MinDescriptionLength)
      && (|normalised| > MaxDescriptionLength ==> r == Err(DescriptionTooLong))
      && (|normalised| <= MaxDescriptionLength && |normalised| < MinDescriptionLength ==> r == Err(DescriptionTooShort))
      && (r.Ok? ==> r.value == Some(normalised) && Trimmed(normalised, Python) && Collapse(normalised) == normalised)
  {
    if description.Some? && description.value != "" then
      var normalised := Collapse(description.value);
      CollapseIdempotent(description.value);
      if |normalised| > 5000 then Err(DescriptionTooLong)
      else if |Strip(normalised, Python)| < 10 then Err(DescriptionTooShort)
      else Ok(Some(normalised))
    else Ok(description)
  }

  datatype DateError = DateInPast

  /** clean_date: a date strictly before today is refused; today and later pass; no date passes unchanged. */
  function CleanDate(date: Option<int>, today: int): (r: Result<Option<int>, DateError>)
    ensures r.Err? <==> date.Some? && date.value < today
    ensures r.Ok? ==> r.value == date
  {
    if date.Some? && date.value < today then Err(DateInPast) else Ok(date)
  }

  /** The cleaned values clean looks at; amounts in hundredths, rawCategory is the submitted 'category' entry if any. */
  datatype CleanedData = CleanedData(
    listingType: Option<ListingType>,
    price: Option<int>,
    swapFor: Option<string>,
    budget: Option<int>,
    rawCategory: Option<string>)

  datatype CleanError = PriceRequired | PriceNegative | SwapDetailsRequired | BudgetRequired | BudgetNegative | CategoryRequired

  /** Python truthiness of an optional decimal: None and zero are false. */
  predicate Truthy(amount: Option<int>)
  {
    amount.Some? && amount.value != 0
  }

  /** The per-type rule, stated on its own: a sale needs a positive price, a swap a non-blank swap_for, a purchase a positive budget. */
  predicate TypeRuleHolds(data: CleanedData)
  {
    match data.listingType
    case None => true
    case Some(Sale) => data.price.Some? && data.price.value > 0
    case Some(Swap) => data.swapFor.Some? && !AllSpace(data.swapFor.value, Python)
    case Some(Buy) => data.budget.Some? && data.budget.value > 0
  }

  /** ListingForm.clean: the per-type rule for the chosen type, then the category check. */
  function Clean(data: CleanedData): (r: Result<CleanedData, CleanError>)
    ensures r.Ok? <==> TypeRuleHolds(data) && data.rawCategory != Some("")
    ensures r.Ok? ==> r.value == data
    ensures r == Err(PriceRequired) <==> data.listingType == Some(Sale) && !Truthy(data.price)
    ensures r == Err(PriceNegative) <==> data.listingType == Some(Sale) && Truthy(data.price) && data.price.value < 0
    ensures r == Err(SwapDetailsRequired) <==> data.listingType == Some(Swap) && (data.swapFor.None? || AllSpace(data.swapFor.value, Python))
    ensures r == Err(BudgetRequired) <==> data.listingType == Some(Buy) && !Truthy(data.budget)
    ensures r == Err(BudgetNegative) <==> data.listingType == Some(Buy) && Truthy(data.budget) && data.budget.value < 0
    ensures r == Err(CategoryRequired) <==> TypeRuleHolds(data) && data.rawCategory == Some("")
  {
    if data.listingType == Some(Sale) && !Truthy(data.price) then Err(PriceRequired)
    else if data.listingType == Some(Sale) && data.price.value < 0 then Err(PriceNegative)
    else if data.listingType == Some(Swap) && (data.swapFor.None? || |Strip(data.swapFor.value, Python)| == 0) then Err(SwapDetailsRequired)
    else if data.listingType == Some(Buy) && !Truthy(data.budget) then Err(BudgetRequired)
    else if data.listingType == Some(Buy) && data.budget.value < 0 then Err(BudgetNegative)
    else if data.rawCategory.Some? && data.rawCategory.value == "" then Err(CategoryRequired)
    else Ok(data)
  }

  /** The fields the form sets to required when it is built. */
  const RequiredOnInit: set<string> := {"listing_type", "title", "description", "location", "date"}

  /** The form's fields, each with its required flag, as ListingForm.__init__ leaves them. */
  class FormFields {
    var required: map<string, bool>

    /** Starts from the declared fields, drops 'category' if present, and marks the five fields required. */
    constructor (declared: map<string, bool>)
      requires RequiredOnInit <= declared.Keys
      ensures required.Keys == declared.Keys - {"category"}
      ensures forall f :: f in RequiredOnInit ==> required[f]
      ensures forall f :: f in required && f !in RequiredOnInit ==> required[f] == declared[f]
    {
      required := declared;
      new;
      if "category" in required {
        required := required - {"category"};
      }
      required := required["listing_type" := true];
      required := required["title" := true];
      required := required["description" := true];
      required := required["location" := true];
      required := required["date" := true];
    }
  }
}
