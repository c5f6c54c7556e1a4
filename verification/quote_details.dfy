/** The read-only quote page (`QuoteDetailsPage`): answer rendering, the
    per-service expand/collapse flags, the status chip style, the list of
    active custom products, and the pricing summary with its 8.25% tax,
    whole-dollar total and minimum-price note. */
module QuoteDetails {
  import opened Base
  import opened QuoteModel
  import Lists
  import Text
  import PdfExport

  /** `formatYesNo`: only the booleans themselves print as Yes or No. */
  function FormatYesNo(v: JsValue): (s: string)
    ensures s == "Yes" <==> v == Bool(true)
    ensures s == "No" <==> v == Bool(false)
    ensures s == "N/A" <==> !v.Bool?
  {
    if v == Bool(true) then "Yes" else if v == Bool(false) then "No" else "N/A"
  }

  /** On booleans the strict `formatYesNo` and the truthiness test of the
      answer renderer agree; on anything else the first says "N/A" where
      the second says "Yes" or "No". */
  lemma FormatYesNoVersusTruthiness(v: JsValue)
    ensures v.Bool? ==> FormatYesNo(v) == (if Truthy(v) then "Yes" else "No")
    ensures !v.Bool? ==> FormatYesNo(v) != (if Truthy(v) then "Yes" else "No")
  {
  }

  /** `.filter(sub => sub.answer).map(sub => sub.sub_question_text)`. */
  function TrueSubTexts(subs: seq<SubResponse>): (r: seq<string>)
    ensures |r| <= |subs|
    ensures forall i :: 0 <= i < |r| ==>
              exists j :: 0 <= j < |subs| && Truthy(subs[j].answer) && subs[j].text == r[i]
    ensures forall j :: 0 <= j < |subs| && Truthy(subs[j].answer) ==> subs[j].text in r
    ensures (forall j :: 0 <= j < |subs| ==> !Truthy(subs[j].answer)) <==> r == []
    decreases |subs|
  {
    if |subs| == 0 then []
    else
      var rest := TrueSubTexts(subs[1..]);
      assert forall j :: 0 <= j < |subs| - 1 ==> subs[1..][j] == subs[j + 1];
      if Truthy(subs[0].answer) then [subs[0].text] + rest else rest
  }

  /** The filter works sub-answer by sub-answer: the texts of two runs are
      the two lists of texts in order. */
  lemma {:induction false} TrueSubTextsAppend(a: seq<SubResponse>, b: seq<SubResponse>)
    ensures TrueSubTexts(a + b) == TrueSubTexts(a) + TrueSubTexts(b)
    decreases |a|
  {
    if |a| == 0 {
      assert a + b == b;
    } else {
      assert (a + b)[0] == a[0];
      assert (a + b)[1..] == a[1..] + b;
      TrueSubTextsAppend(a[1..], b);
    }
  }

  /** A single sub-answer contributes its text exactly when it is truthy. */
  lemma TrueSubTextsOne(sub: SubResponse)
    ensures TrueSubTexts([sub]) == (if Truthy(sub.answer) then [sub.text] else [])
  {
    assert [sub][1..] == [];
  }

  /** The "text: qty" items of a quantity answer. */
  function QuantityItems(os: seq<OptionResponse>): (r: seq<string>)
    ensures |r| == |os|
    ensures forall i :: 0 <= i < |os| ==> r[i] == os[i].text + ": " + Text.IntToString(os[i].quantity)
  {
    seq(|os|, i requires 0 <= i < |os| => os[i].text + ": " + Text.IntToString(os[i].quantity))
  }

  /** `renderQuestionResponse`: one display string per answer. The page has
      no `options` case, so that type falls to "N/A" with the unknown ones. */
  function RenderQuestionResponse(r: QuestionResponse): (s: string)
    ensures r.questionType.YesNo? || r.questionType.Conditional? ==>
              s == (if Truthy(r.yesNoAnswer) then "Yes" else "No")
    ensures r.questionType.MultipleYesNo? ==>
              var texts := TrueSubTexts(r.subResponses);
              (Text.Join(texts, ", ") == "" ==> s == "None selected")
              && (Text.Join(texts, ", ") != "" ==> s == Text.Join(texts, ", "))
    ensures r.questionType.Quantity? ==> s == Text.Join(QuantityItems(r.optionResponses), ", ")
    ensures r.questionType.Describe? ==> s == Text.Join(PdfExport.OptionTexts(r.optionResponses), ", ")
    ensures r.questionType.Options? || r.questionType.OtherType? ==> s == "N/A"
  {
    match r.questionType
    case YesNo => if Truthy(r.yesNoAnswer) then "Yes" else "No"
    case Conditional => if Truthy(r.yesNoAnswer) then "Yes" else "No"
    case MultipleYesNo =>
      var joined := Text.Join(TrueSubTexts(r.subResponses), ", ");
      if joined == "" then "None selected" else joined
    case Quantity => Text.Join(QuantityItems(r.optionResponses), ", ")
    case Describe => Text.Join(PdfExport.OptionTexts(r.optionResponses), ", ")
    case Options => "N/A"
    case OtherType(_) => "N/A"
  }

  /** When the selected sub-questions have non-empty, comma-free texts, the
      rendered string names exactly them, in order: splitting it at the
      separators gives the texts back. */
  lemma MultipleYesNoNamesTheTrueAnswers(r: QuestionResponse)
    requires r.questionType.MultipleYesNo?
    requires exists j :: 0 <= j < |r.subResponses| && Truthy(r.subResponses[j].answer)
    requires forall j :: 0 <= j < |r.subResponses| && Truthy(r.subResponses[j].answer) ==>
               r.subResponses[j].text != "" && Text.CommaFree(r.subResponses[j].text)
    ensures Text.SplitList(RenderQuestionResponse(r)) == TrueSubTexts(r.subResponses)
  {
    var texts := TrueSubTexts(r.subResponses);
    assert texts != [];
    assert forall k :: 0 <= k < |texts| ==> texts[k] != "" && Text.CommaFree(texts[k]);
    Text.JoinEmpty(texts, ", ");
    Text.JoinSplitRoundTrip(texts);
  }

  /** With no selected sub-question the page prints "None selected". */
  lemma MultipleYesNoWithNothingSelected(r: QuestionResponse)
    requires r.questionType.MultipleYesNo?
    requires forall j :: 0 <= j < |r.subResponses| ==> !Truthy(r.subResponses[j].answer)
    ensures RenderQuestionResponse(r) == "None selected"
  {
  }

  /** The page and the PDF agree on yes/no answers: the PDF prints the
      page's string as its only line. */
  lemma YesNoMatchesPdf(r: QuestionResponse)
    requires r.questionType.YesNo? || r.questionType.Conditional?
    ensures PdfExport.FormatResponse(r) == [RenderQuestionResponse(r)]
  {
  }

  /** A described answer with options is the PDF's lines joined by ", ". */
  lemma DescribeMatchesPdf(r: QuestionResponse)
    requires r.questionType.Describe? && |r.optionResponses| > 0
    ensures RenderQuestionResponse(r) == Text.Join(PdfExport.FormatResponse(r), ", ")
  {
  }

  /** The per-service expand flags; a missing id reads as collapsed. */
  type Expansion = map<Id, bool>

  predicate IsExpanded(m: Expansion, id: Id) {
    id in m && m[id]
  }

  /** The effect run when a quote loads: every service starts expanded. */
  function ExpandAll(sels: seq<ServiceSelection>): (m: Expansion)
    ensures forall i :: 0 <= i < |sels| ==> IsExpanded(m, sels[i].id)
    ensures forall id :: id in m ==> exists i :: 0 <= i < |sels| && sels[i].id == id
  {
    var ids := set i | 0 <= i < |sels| :: sels[i].id;
    map id | id in ids :: true
  }

  /** `toggleServiceExpansion`: `{ ...prev, [id]: !prev[id] }`. */
  function ToggleExpansion(m: Expansion, id: Id): (r: Expansion)
    ensures IsExpanded(r, id) <==> !IsExpanded(m, id)
    ensures id in r
    ensures forall o :: o != id ==> (o in r <==> o in m)
    ensures forall o :: o != id && o in m ==> r[o] == m[o]
  {
    m[id := !IsExpanded(m, id)]
  }

  /** Two toggles of the same id show every service as before (the map
      may have gained an explicit `false` for a previously missing id). */
  lemma ToggleTwiceLooksTheSame(m: Expansion, id: Id, other: Id)
    ensures IsExpanded(ToggleExpansion(ToggleExpansion(m, id), id), other) == IsExpanded(m, other)
  {
  }

  /** Right after loading, toggling one service collapses it and only it. */
  lemma ToggleAfterLoadCollapsesOne(sels: seq<ServiceSelection>, k: nat)
    requires k < |sels|
    ensures !IsExpanded(ToggleExpansion(ExpandAll(sels), sels[k].id), sels[k].id)
    ensures forall i :: 0 <= i < |sels| && sels[i].id != sels[k].id ==>
              IsExpanded(ToggleExpansion(ExpandAll(sels), sels[k].id), sels[i].id)
  {
  }

  /** A status chip's colours. */
  datatype ChipStyle = ChipStyle(bgcolor: string, color: string)

  /** The six keys of the table, all in lower case. */
  const StatusKeys: set<string> := {"pending", "approved", "rejected", "submitted", "draft", "responses_completed"}

  /** The `statusStyles` table: an entry for each of its keys and none for
      any other string; every key is already lower case, so a lower-cased
      status can reach each entry. */
  function StatusStyleEntry(key: string): (e: Option<ChipStyle>)
    ensures e.Some? <==> key in StatusKeys
    ensures e.Some? ==> Text.Lower(key) == key
  {
    if key == "pending" then Some(ChipStyle("warning.light", "warning.dark"))
    else if key == "approved" then Some(ChipStyle("success.light", "success.dark"))
    else if key == "rejected" then Some(ChipStyle("error.light", "error.dark"))
    else if key == "submitted" then Some(ChipStyle("info.light", "info.dark"))
    else if key == "draft" then Some(ChipStyle("grey.100", "grey.800"))
    else if key == "responses_completed" then Some(ChipStyle("success.light", "success.dark"))
    else None
  }

  /** `statusStyles[status?.toLowerCase()] || statusStyles["draft"]`. */
  function StatusChipStyle(status: Option<string>): (st: ChipStyle)
    ensures status.Some? && StatusStyleEntry(Text.Lower(status.value)).Some? ==>
              st == StatusStyleEntry(Text.Lower(status.value)).value
    ensures status.None? || StatusStyleEntry(Text.Lower(status.value)).None? ==>
              st == StatusStyleEntry("draft").value
  {
    match status
    case None => StatusStyleEntry("draft").value
    case Some(s) =>
      match StatusStyleEntry(Text.Lower(s))
      case Some(e) => e
      case None => StatusStyleEntry("draft").value
  }

  /** The chip style does not depend on the status's letter case. */
  lemma StatusStyleIgnoresCase(s: string)
    ensures StatusChipStyle(Some(s)) == StatusChipStyle(Some(Text.Lower(s)))
  {
    Text.LowerIdempotent(s);
  }

  /** Every style the chip can take is one of the table's entries. */
  lemma StatusStyleFromTable(status: Option<string>)
    ensures exists k :: k in {"pending", "approved", "rejected", "submitted", "draft", "responses_completed"}
                        && StatusChipStyle(status) == StatusStyleEntry(k).value
  {
    var st := StatusChipStyle(status);
    var keys := ["pending", "approved", "rejected", "submitted", "draft", "responses_completed"];
    if status.Some? && StatusStyleEntry(Text.Lower(status.value)).Some? {
      var k := Text.Lower(status.value);
      assert k in {"pending", "approved", "rejected", "submitted", "draft", "responses_completed"};
    } else {
      assert st == StatusStyleEntry("draft").value;
    }
  }

  /** `custom_products.filter(c => c.is_active === true)`: only a literal
      `true` counts as active. */
  function ActiveProducts(ps: seq<CustomProduct>): (r: seq<CustomProduct>)
    ensures forall i :: 0 <= i < |r| ==> r[i].isActive == Bool(true) && r[i] in ps
    ensures forall j :: 0 <= j < |ps| && ps[j].isActive == Bool(true) ==> ps[j] in r
    ensures Lists.IsSubsequence(r, ps)
    ensures |r| <= |ps|
    decreases |ps|
  {
    if |ps| == 0 then []
    else
      var rest := ActiveProducts(ps[1..]);
      assert forall j :: 0 <= j < |ps| - 1 ==> ps[1..][j] == ps[j + 1];
      if ps[0].isActive == Bool(true) then
        var r := [ps[0]] + rest;
        assert r[1..] == rest;
        r
      else
        assert |rest| > 0 ==> rest[0] != ps[0];
        rest
  }

  /** The filter works product by product: the active products of two runs
      are the two lists in order. With `ActiveProductsOne` this fixes which
      products are listed, in what order and how many times. */
  lemma {:induction false} ActiveProductsAppend(a: seq<CustomProduct>, b: seq<CustomProduct>)
    ensures ActiveProducts(a + b) == ActiveProducts(a) + ActiveProducts(b)
    decreases |a|
  {
    if |a| == 0 {
      assert a + b == b;
    } else {
      assert (a + b)[0] == a[0];
      assert (a + b)[1..] == a[1..] + b;
      ActiveProductsAppend(a[1..], b);
    }
  }

  /** A single product is listed exactly when `is_active` is `true`. */
  lemma ActiveProductsOne(p: CustomProduct)
    ensures ActiveProducts([p]) == (if p.isActive == Bool(true) then [p] else [])
  {
    assert [p][1..] == [];
  }

  /** The heading counts each active product once: adding one active
      product raises the count by one, an inactive one leaves it. */
  lemma ActiveCountGrowsByOne(ps: seq<CustomProduct>, p: CustomProduct)
    ensures |ActiveProducts(ps + [p])| == |ActiveProducts(ps)| + (if p.isActive == Bool(true) then 1 else 0)
  {
    ActiveProductsAppend(ps, [p]);
    ActiveProductsOne(p);
  }

  /** The heading of the custom-services card: absent without an active
      product, else "N custom service(s) added" with the plural past one. */
  function CustomServicesHeading(ps: seq<CustomProduct>): (h: Option<string>)
    ensures h.None? <==> forall j :: 0 <= j < |ps| ==> ps[j].isActive != Bool(true)
    ensures h.Some? ==> h.value == Text.IntToString(|ActiveProducts(ps)|) + " custom service"
                                  + (if |ActiveProducts(ps)| > 1 then "s" else "") + " added"
  {
    var active := ActiveProducts(ps);
    if |active| > 0 then
      assert active[0] in ps;
      var j :| 0 <= j < |ps| && ps[j] == active[0];
      assert ps[j].isActive == Bool(true);
      Some(Text.IntToString(|active|) + " custom service" + (if |active| > 1 then "s" else "") + " added")
    else
      None
  }

  /** `Math.round` on a non-NaN number: the nearest integer, halves up. */
  function RoundHalfUp(x: real): (n: int)
    ensures n as real - 0.5 <= x < n as real + 0.5
  {
    (x + 0.5).Floor
  }

  /** The integer `RoundHalfUp` picks is the only one that close to `x`. */
  lemma RoundHalfUpUnique(x: real, m: int)
    requires m as real - 0.5 <= x < m as real + 0.5
    ensures RoundHalfUp(x) == m
  {
  }

  /** Sum of the services' `final_total_price`, missing ones as 0. */
  function ServicesTotal(sels: seq<ServiceSelection>): (r: int)
    ensures (forall i :: 0 <= i < |sels| ==> sels[i].finalTotalPrice.None?) ==> r == 0
    ensures (forall i :: 0 <= i < |sels| ==> SelectionPrice(sels[i]) >= 0) ==>
              r >= 0 && forall i :: 0 <= i < |sels| ==> r >= SelectionPrice(sels[i])
    ensures forall ps, base :: r == PdfExport.Summarize(sels, ps, base).subtotal
  {
    Lists.SumBounds(sels, SelectionPrice);
    Lists.Sum(sels, SelectionPrice)
  }

  /** The numbers and switches of the page's pricing card. When
      `custom_service_total` is absent the source computes with NaN: the
      amounts are then `None` and the note is hidden. */
  datatype PagePricing = PagePricing(
    showCustomRow: bool,
    final: Option<int>,
    tax: Option<real>,
    finalWithTax: Option<real>,
    displayedDollars: Option<int>,
    showMinimumNote: bool)

  function PagePricingOf(q: Quote, base: Option<int>): (p: PagePricing)
    ensures p.showCustomRow <==> q.customServiceTotal.Some? && q.customServiceTotal.value > 0
    ensures p.showMinimumNote <==>
              q.customServiceTotal.Some?
              && ServicesTotal(q.serviceSelections) + q.customServiceTotal.value < PriceOr0(base)
    ensures q.customServiceTotal.None? ==>
              p.final.None? && p.tax.None? && p.finalWithTax.None? && p.displayedDollars.None?
    ensures q.customServiceTotal.Some? ==>
              && p.final == Some(q.finalTotal + q.customServiceTotal.value)
              && p.tax == Some(p.final.value as real * TaxRate)
              && p.finalWithTax == Some(p.final.value as real + p.tax.value)
              && p.displayedDollars.Some?
              && p.displayedDollars.value as real - 0.5 <= p.finalWithTax.value / 100.0
              && p.finalWithTax.value / 100.0 < p.displayedDollars.value as real + 0.5
  {
    match q.customServiceTotal
    case None => PagePricing(false, None, None, None, None, false)
    case Some(cst) =>
      var final := q.finalTotal + cst;
      var tax := final as real * TaxRate;
      var withTax := final as real + tax;
      PagePricing(cst > 0, Some(final), Some(tax), Some(withTax),
                  Some(RoundHalfUp(withTax / 100.0)),
                  ServicesTotal(q.serviceSelections) + cst < PriceOr0(base))
  }

  /** Tax never lowers a non-negative total. */
  lemma TaxNeverLowersTotal(q: Quote, base: Option<int>)
    requires q.customServiceTotal.Some? && q.finalTotal + q.customServiceTotal.value >= 0
    ensures PagePricingOf(q, base).finalWithTax.value >= PagePricingOf(q, base).final.value as real
  {
  }

  /** Without custom services the page and the PDF show the minimum-price
      note for the same quotes. */
  lemma MinimumNoteAgreesWithPdf(q: Quote, base: Option<int>)
    requires q.customServiceTotal == Some(0)
    ensures PagePricingOf(q, base).showMinimumNote
         == PdfExport.Summarize(q.serviceSelections, q.customProducts, base).showMinimumNote
  {
  }

  /** With custom services they can disagree: services of $100, custom
      services of $50 and a base of $120 give a note in the PDF only. */
  lemma MinimumNoteCanDisagreeWithPdf()
    ensures var sel := ServiceSelection("s1", "svc", [], [], Some(10000));
            var q := Quote("q1", None, [sel], [], false, None, 15000, Some(5000));
            !PagePricingOf(q, Some(12000)).showMinimumNote
            && PdfExport.Summarize(q.serviceSelections, q.customProducts, Some(12000)).showMinimumNote
  {
    var sel := ServiceSelection("s1", "svc", [], [], Some(10000));
    assert Lists.Sum([sel], SelectionPrice) == 10000;
  }
}
