/** The backend records the views consume, as immutable values. Prices are
    integer cents; a price field that may be missing or falsy (read with
    `x || 0`) is an `Option<int>`. Lists the source reads with `?.` or
    `|| []` are plain sequences, a missing list being the empty one. */
module QuoteModel {
  import opened Base

  /** A package offered for one service selection (`package_quotes[]`). */
  datatype PackageQuote = PackageQuote(
    id: Id,
    package: Id,                // catalogue package id, reported to the parent
    packageName: string,
    totalPrice: Option<int>)

  /** The type tag of a question response (`question_type`). */
  datatype QuestionType =
    | YesNo | Conditional | MultipleYesNo | Quantity | Describe | Options
    | OtherType(name: string)

  /** An answer to one sub-question of a `multiple_yes_no` question. The
      quote page reads `answer`, the PDF export reads `yesNoAnswer` (None
      when the field is absent). */
  datatype SubResponse = SubResponse(text: string, answer: JsValue, yesNoAnswer: Option<bool>)

  /** A chosen option, with the quantity of a `quantity` question. */
  datatype OptionResponse = OptionResponse(text: string, quantity: int)

  datatype QuestionResponse = QuestionResponse(
    questionType: QuestionType,
    yesNoAnswer: JsValue,
    textAnswer: Option<string>,
    subResponses: seq<SubResponse>,
    optionResponses: seq<OptionResponse>)

  /** One service on a quote (`service_selections[]`). */
  datatype ServiceSelection = ServiceSelection(
    id: Id,
    service: Id,
    packageQuotes: seq<PackageQuote>,
    responses: seq<QuestionResponse>,
    finalTotalPrice: Option<int>)

  /** A user- or admin-added line item (`custom_products[]`). */
  datatype CustomProduct = CustomProduct(
    id: Id,
    productName: string,
    description: string,
    price: Option<int>,
    isActive: JsValue)

  /** A fetched quote, as far as the pricing and rendering read it. */
  datatype Quote = Quote(
    id: Id,
    status: Option<string>,
    serviceSelections: seq<ServiceSelection>,
    customProducts: seq<CustomProduct>,
    surchargeApplicable: bool,
    tripSurcharge: Option<int>,        // location_details?.trip_surcharge
    finalTotal: int,                   // final_total, numeric
    customServiceTotal: Option<int>)   // custom_service_total; None when absent

  /** The `question_type` string of each tag. */
  function TypeName(t: QuestionType): string {
    match t
    case YesNo => "yes_no"
    case Conditional => "conditional"
    case MultipleYesNo => "multiple_yes_no"
    case Quantity => "quantity"
    case Describe => "describe"
    case Options => "options"
    case OtherType(name) => name
  }

  predicate IsKnownTypeName(s: string) {
    s in {"yes_no", "conditional", "multiple_yes_no", "quantity", "describe", "options"}
  }

  /** Reading the `question_type` string: the six names the views switch
      on, anything else kept as `OtherType`. */
  function ParseQuestionType(s: string): (t: QuestionType)
    ensures TypeName(t) == s
    ensures t.OtherType? <==> !IsKnownTypeName(s)
  {
    if s == "yes_no" then YesNo
    else if s == "conditional" then Conditional
    else if s == "multiple_yes_no" then MultipleYesNo
    else if s == "quantity" then Quantity
    else if s == "describe" then Describe
    else if s == "options" then Options
    else OtherType(s)
  }

  /** A tag is well formed when an `OtherType` does not carry one of the
      six known names; every well-formed tag survives a print and re-read. */
  lemma QuestionTypeRoundTrip(t: QuestionType)
    requires t.OtherType? ==> !IsKnownTypeName(t.name)
    ensures ParseQuestionType(TypeName(t)) == t
  {
  }

  /** The 8.25% sales tax both read-only views hard-code. */
  const TaxRate: real := 0.0825

  /** Key functions standing for the `.id` fields. */
  function SelectionId(s: ServiceSelection): Id { s.id }
  function PackageId(p: PackageQuote): Id { p.id }
  function ProductId(p: CustomProduct): Id { p.id }
  function ProductPrice(p: CustomProduct): int { PriceOr0(p.price) }
  function SelectionPrice(s: ServiceSelection): int { PriceOr0(s.finalTotalPrice) }
}
