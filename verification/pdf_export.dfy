/** The arithmetic and text decisions of the quote PDF export
    (`handleDownloadPDF`): the page-break cursor, price and answer
    formatting, and the pricing-summary block. Drawing calls, text wrapping
    and the logo fetch are outside the model. */
module PdfExport {
  import opened Base
  import opened QuoteModel
  import Lists
  import Text

  /** Layout constants of the document, in jsPDF units. */
  const LineHeight: real := 6.0
  const TopY: real := 20.0
  const BottomReserve: real := 30.0

  /** The writing position and the number of pages added so far. */
  datatype Cursor = Cursor(y: real, addedPages: nat)

  /** The lines fit above the bottom reserve from the current position. */
  predicate Fits(y: real, pageHeight: real, lines: nat) {
    y + lines as real * LineHeight <= pageHeight - BottomReserve
  }

  /** `checkPageBreak(linesNeeded)`: start a new page at the top when the
      lines would run into the bottom reserve. */
  function CheckPageBreak(c: Cursor, pageHeight: real, linesNeeded: nat): (r: Cursor)
    ensures !Fits(c.y, pageHeight, linesNeeded) ==> r == Cursor(TopY, c.addedPages + 1)
    ensures Fits(c.y, pageHeight, linesNeeded) ==> r == c
    ensures r.y == TopY || Fits(r.y, pageHeight, linesNeeded)
  {
    if !Fits(c.y, pageHeight, linesNeeded) then Cursor(TopY, c.addedPages + 1) else c
  }

  /** When the lines fit on a fresh page, after the check they fit. */
  lemma FitsAfterBreak(c: Cursor, pageHeight: real, linesNeeded: nat)
    requires Fits(TopY, pageHeight, linesNeeded)
    ensures Fits(CheckPageBreak(c, pageHeight, linesNeeded).y, pageHeight, linesNeeded)
  {
  }

  /** Checking twice for the same lines adds no second page. */
  lemma CheckPageBreakIdempotent(c: Cursor, pageHeight: real, linesNeeded: nat)
    requires Fits(TopY, pageHeight, linesNeeded)
    ensures CheckPageBreak(CheckPageBreak(c, pageHeight, linesNeeded), pageHeight, linesNeeded)
         == CheckPageBreak(c, pageHeight, linesNeeded)
  {
  }

  /** The one-line service rows of the pricing summary: for each service
      the cursor is checked for one line, the row is drawn at the cursor,
      and the cursor moves one line down. `ys` holds the heights the rows
      are drawn at. Every row fits above the bottom reserve, each one is
      where `CheckPageBreak` puts the cursor left by the previous row, and
      at most one page is added per row. */
  method PlaceRows(start: Cursor, pageHeight: real, rows: nat) returns (c: Cursor, ys: seq<real>)
    requires Fits(TopY, pageHeight, 1)
    ensures |ys| == rows
    ensures forall i :: 0 <= i < rows ==> Fits(ys[i], pageHeight, 1)
    ensures rows > 0 ==> ys[0] == CheckPageBreak(start, pageHeight, 1).y
    ensures forall i :: 0 < i < rows ==>
              ys[i] == CheckPageBreak(Cursor(ys[i - 1] + LineHeight, 0), pageHeight, 1).y
    ensures rows > 0 ==> c.y == ys[rows - 1] + LineHeight
    ensures start.addedPages <= c.addedPages <= start.addedPages + rows
    ensures rows == 0 ==> c == start
  {
    c := start;
    ys := [];
    var k := 0;
    while k < rows
      invariant 0 <= k <= rows
      invariant |ys| == k
      invariant forall i :: 0 <= i < k ==> Fits(ys[i], pageHeight, 1)
      invariant k > 0 ==> ys[0] == CheckPageBreak(start, pageHeight, 1).y
      invariant forall i :: 0 < i < k ==>
                  ys[i] == CheckPageBreak(Cursor(ys[i - 1] + LineHeight, 0), pageHeight, 1).y
      invariant k > 0 ==> c.y == ys[k - 1] + LineHeight
      invariant start.addedPages <= c.addedPages <= start.addedPages + k
      invariant k == 0 ==> c == start
    {
      c := CheckPageBreak(c, pageHeight, 1);
      ys := ys + [c.y];
      c := c.(y := c.y + LineHeight);
      k := k + 1;
    }
  }

  /** Every row the summary draws lies above the bottom reserve. */
  lemma RowsStayAboveReserve(ys: seq<real>, pageHeight: real)
    requires forall i :: 0 <= i < |ys| ==> Fits(ys[i], pageHeight, 1)
    ensures forall i :: 0 <= i < |ys| ==> ys[i] <= pageHeight - BottomReserve
  {
  }

  /** What `Number(price)` yields: a number of cents, or NaN. */
  datatype NumberInput = Numeric(cents: int) | NotANumber

  /** `formatPrice`: NaN prints as "$0.00", a number as "$" and two decimals. */
  function FormatPrice(p: NumberInput): (s: string)
    ensures p.NotANumber? ==> s == "$0.00"
    ensures |s| >= 5 && s[0] == '$'
    ensures p.Numeric? ==> Text.ParseFixed2(s[1..]) == Some(p.cents)
  {
    match p
    case NotANumber => "$0.00"
    case Numeric(c) =>
      var s := "$" + Text.CentsToFixed2(c);
      Text.CentsToFixed2RoundTrip(c);
      assert s[1..] == Text.CentsToFixed2(c);
      s
  }

  /** A non-numeric price prints exactly as a zero price does. */
  lemma NotANumberPrintsAsZero()
    ensures FormatPrice(NotANumber) == FormatPrice(Numeric(0))
  {
    assert Text.NatToString(0) == "0";
    assert Text.TwoDigits(0) == "00";
  }

  /** `text_answer || "N/A"`. */
  function TextOrNA(t: Option<string>): (s: string)
    ensures s != ""
    ensures t.Some? && t.value != "" ==> s == t.value
    ensures t.None? || t.value == "" ==> s == "N/A"
  {
    if t.Some? && t.value != "" then t.value else "N/A"
  }

  /** `${value}` of a boolean field that may be absent. */
  function ShowFlag(b: Option<bool>): string {
    match b
    case Some(true) => "true"
    case Some(false) => "false"
    case None => "undefined"
  }

  /** The separator of a quantity line: " — Qty: ". */
  const QtySep: string := " \U{2014} Qty: "

  function QuantityLine(o: OptionResponse): string {
    o.text + QtySep + Text.IntToString(o.quantity)
  }

  /** The quantity printed on a line can be read back from its end. */
  lemma QuantityLineRoundTrip(o: OptionResponse)
    ensures Text.ParseInt(QuantityLine(o)[|o.text| + |QtySep|..]) == Some(o.quantity)
  {
    var line := QuantityLine(o);
    assert line[|o.text| + |QtySep|..] == Text.IntToString(o.quantity);
    Text.IntToStringRoundTrip(o.quantity);
  }

  function OptionTexts(os: seq<OptionResponse>): (r: seq<string>)
    ensures |r| == |os|
    ensures forall i :: 0 <= i < |os| ==> r[i] == os[i].text
  {
    seq(|os|, i requires 0 <= i < |os| => os[i].text)
  }

  function QuantityLines(os: seq<OptionResponse>): (r: seq<string>)
    ensures |r| == |os|
    ensures forall i :: 0 <= i < |os| ==> r[i] == QuantityLine(os[i])
  {
    seq(|os|, i requires 0 <= i < |os| => QuantityLine(os[i]))
  }

  function SubLines(subs: seq<SubResponse>): (r: seq<string>)
    ensures |r| == |subs|
    ensures forall i :: 0 <= i < |subs| ==> r[i] == subs[i].text + ": " + ShowFlag(subs[i].yesNoAnswer)
  {
    seq(|subs|, i requires 0 <= i < |subs| => subs[i].text + ": " + ShowFlag(subs[i].yesNoAnswer))
  }

  /** `formatResponse`: the answer lines printed under a question. Never
      empty: every type with no answers falls back to a single line. */
  function FormatResponse(r: QuestionResponse): (lines: seq<string>)
    ensures |lines| >= 1
    ensures r.questionType.YesNo? || r.questionType.Conditional? ==>
              lines == [if Truthy(r.yesNoAnswer) then "Yes" else "No"]
    ensures r.questionType.Options? || r.questionType.Describe? ==>
              if |r.optionResponses| > 0 then lines == OptionTexts(r.optionResponses)
              else lines == [TextOrNA(r.textAnswer)]
    ensures r.questionType.Quantity? ==>
              if |r.optionResponses| > 0 then lines == QuantityLines(r.optionResponses)
              else lines == ["N/A"]
    ensures r.questionType.MultipleYesNo? ==>
              if |r.subResponses| > 0 then lines == SubLines(r.subResponses)
              else lines == ["N/A"]
    ensures r.questionType.OtherType? ==> lines == [TextOrNA(r.textAnswer)]
  {
    match r.questionType
    case YesNo => [if Truthy(r.yesNoAnswer) then "Yes" else "No"]
    case Conditional => [if Truthy(r.yesNoAnswer) then "Yes" else "No"]
    case Options =>
      if |r.optionResponses| > 0 then OptionTexts(r.optionResponses) else [TextOrNA(r.textAnswer)]
    case Describe =>
      if |r.optionResponses| > 0 then OptionTexts(r.optionResponses) else [TextOrNA(r.textAnswer)]
    case Quantity =>
      if |r.optionResponses| > 0 then QuantityLines(r.optionResponses) else ["N/A"]
    case MultipleYesNo =>
      if |r.subResponses| > 0 then SubLines(r.subResponses) else ["N/A"]
    case OtherType(_) => [TextOrNA(r.textAnswer)]
  }

  /** `adjustment`: the amount that lifts the subtotal to the base price. */
  function Adjustment(subtotal: int, base: Option<int>): (a: int)
    ensures a >= 0
    ensures subtotal + a == Max(subtotal, PriceOr0(base))
    ensures a > 0 <==> subtotal < PriceOr0(base)
  {
    if subtotal < PriceOr0(base) then PriceOr0(base) - subtotal else 0
  }

  /** The numbers and switches of the pricing-summary block. */
  datatype PricingSummary = PricingSummary(
    subtotal: int,
    customServiceTotal: int,
    adjustment: int,
    final: int,
    tax: real,
    finalWithTax: real,
    showCustomRow: bool,
    showMinimumNote: bool)

  function Summarize(sels: seq<ServiceSelection>, ps: seq<CustomProduct>, base: Option<int>): (s: PricingSummary)
    ensures s.subtotal == Lists.Sum(sels, SelectionPrice)
    ensures s.customServiceTotal == Lists.Sum(ps, ProductPrice)
    ensures s.adjustment >= 0
    ensures s.subtotal + s.adjustment == s.final
    ensures s.adjustment == Adjustment(s.subtotal, base)
    ensures s.final == Max(s.subtotal, PriceOr0(base))
    ensures s.tax == s.final as real * TaxRate
    ensures s.finalWithTax == s.final as real + s.tax
    ensures s.showMinimumNote <==> s.subtotal < PriceOr0(base)
    ensures s.showMinimumNote <==> s.adjustment > 0
    ensures s.showCustomRow <==> |ps| > 0 && s.customServiceTotal > 0
  {
    var subtotal := Lists.Sum(sels, SelectionPrice);
    var custom := Lists.Sum(ps, ProductPrice);
    var adjustment := Adjustment(subtotal, base);
    var final := subtotal + adjustment;
    var tax := final as real * TaxRate;
    PricingSummary(subtotal, custom, adjustment, final, tax, final as real + tax,
                   |ps| > 0 && custom > 0, subtotal < PriceOr0(base))
  }

  /** The custom products are printed but never reach the final amount:
      two exports that differ only in their products agree on it. */
  lemma FinalIgnoresCustomProducts(sels: seq<ServiceSelection>, ps1: seq<CustomProduct>,
                                   ps2: seq<CustomProduct>, base: Option<int>)
    ensures Summarize(sels, ps1, base).final == Summarize(sels, ps2, base).final
    ensures Summarize(sels, ps1, base).finalWithTax == Summarize(sels, ps2, base).finalWithTax
  {
  }

  /** Tax never lowers a non-negative amount, and the final amount is never
      below the base price. */
  lemma FinalWithTaxBounds(sels: seq<ServiceSelection>, ps: seq<CustomProduct>, base: Option<int>)
    requires PriceOr0(base) >= 0
    ensures Summarize(sels, ps, base).final >= PriceOr0(base)
    ensures Summarize(sels, ps, base).finalWithTax >= Summarize(sels, ps, base).final as real
  {
  }
}
