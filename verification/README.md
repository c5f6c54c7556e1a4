# Quote pricing and selection state, modelled in Dafny

This project models the client-side logic of a home-services booking app
(Elbin12/arman-service-new-app). A customer picks services, answers
questions about them, chooses a package for each service, adds custom
products and accepts a quote. Three views compute prices from the same
fetched records, each in its own way:

- the live checkout step (`CheckoutSummary.jsx`);
- the read-only quote page (`QuoteDetailsPage.jsx`);
- the PDF export (`handleDownloadPDF.js`).

Each variant is modelled on its own, and lemmas relate them where they
agree and show where they differ. The small state transitions around the
prices are modelled as pure functions over immutable values:

- choosing and deleting packages and services;
- creating, updating and deleting custom products;
- the wizard's toggle lists;
- the contact form's record updates and its digits-only filter;
- the address-autocomplete rules;
- the searchable contact box;
- expand/collapse flags;
- the PDF page-break cursor.

Conventions:

- Money is integer cents.
- A price read with `x || 0` is an `Option<int>`, and a missing value counts as 0.
- Tax amounts are `real` (cents × 0.0825).
- A JavaScript object keyed by id is either an association list (`selectedPackages`) or a `map` (`userInfo`, the expand flags). The association list keeps insertion order. `Object.entries` agrees with that for non-numeric ids, but it lists integer-like keys first, in ascending order.
- Values the source tests for truthiness or with `===` are a small `JsValue` sum type.

Modules:

| file | module | models |
|---|---|---|
| base.dfy | `Base` | `Option`, `JsValue` and truthiness, `x \|\| 0`, `Math.max` |
| lists.dfy | `Lists` | `find`, `filter` by id, `map` replace by id, toggle membership, `reduce` sums |
| text.dfy | `Text` | `String(n)`, `toFixed(2)` on cents, `join(", ")`, `trim`, `toLowerCase`, with their inverses |
| quote_model.dfy | `QuoteModel` | the fetched records, the `question_type` tag, the 8.25% rate |
| checkout_summary.dfy | `CheckoutSummary` | `CheckoutSummary.jsx` |
| quote_details.dfy | `QuoteDetails` | `QuoteDetailsPage.jsx` |
| pdf_export.dfy | `PdfExport` | `handleDownloadPDF.js` |
| service_selection_form.dfy | `ServiceSelectionForm` | `MultiServiceSelectionForm.jsx` |
| user_info_form.dfy | `UserInfoForm` | `UserInfoForm.jsx` |
| searchable_select.dfy | `SearchableSelect` | `SearchableSelect.jsx` |

Things the model treats as inputs:

- every server answer: the fetched quote, the global base price, the result of each create, update and delete call, the search results, and the place predictions;
- the Maps readiness flag;
- the page height of the PDF.

Where the three pricing views disagree, the model keeps each one as written:

- The PDF's `final` counts the service prices only. Custom products are printed but never added (`PdfExport.FinalIgnoresCustomProducts`).
- The quote page's minimum-price note includes the custom-service total. The PDF's note does not, so the two can disagree (`QuoteDetails.MinimumNoteCanDisagreeWithPdf`). They agree when there are no custom services (`QuoteDetails.MinimumNoteAgreesWithPdf`).
- The checkout applies the base price as a floor only once every service has a package. It then coincides with the PDF's adjustment rule (`CheckoutSummary.CheckoutFloorIsPdfAdjustment`).
- After a service is deleted, the checkout resets its own package object to empty. It still sends the parent the previous entries minus the deleted service (`CheckoutSummary.HandleDeleteServiceConfirm`), so the two disagree until the next choice.
- The parent receives `selectedPackages` in two shapes. After a package choice or a service delete it is an array of records, one per resolvable entry (`CheckoutSummary.PackageSelectUpdate`). After a custom product is saved or deleted it is the raw service-to-package object (`CheckoutSummary.SaveProductUpdate`, `CheckoutSummary.DeleteProductUpdate`). The two shapes carry different information (`CheckoutSummary.ParentSeesTwoShapes`).

## Model

| member | source | states |
|---|---|---|
| CheckoutSummary.Select | src/components/user/forms/CheckoutSummary.jsx:171-177 | the chosen service now maps to the package; every other service maps to what it did before; keys stay distinct; an existing key keeps its place and a new one is appended |
| CheckoutSummary.SelectIdempotent | src/components/user/forms/CheckoutSummary.jsx:171-177 | choosing the already chosen package again leaves the object unchanged |
| CheckoutSummary.RemoveChoice | src/components/user/forms/CheckoutSummary.jsx:212-213 | after `delete`, the deleted service has no entry and every other service keeps its entry |
| CheckoutSummary.LookupSomeIffHasKey | src/components/user/forms/CheckoutSummary.jsx:114 | `selectedPackages[id] !== undefined` holds exactly when some entry has that key |
| CheckoutSummary.Contribution | src/components/user/forms/CheckoutSummary.jsx:45-49 | an entry whose service or package id does not resolve adds 0; a resolved one adds its package's `total_price`, or 0 when that is missing |
| CheckoutSummary.SelectedTotal | src/components/user/forms/CheckoutSummary.jsx:42-52 | entries that all fail to resolve give 0; non-negative contributions give a non-negative total |
| CheckoutSummary.SelectChangesTotal | src/components/user/forms/CheckoutSummary.jsx:42-52 | choosing a package replaces only that service's contribution to the total |
| CheckoutSummary.ReportSelections | src/components/user/forms/CheckoutSummary.jsx:179-193 | one record per resolvable entry and none for the others; every record comes from an entry; at most one record per entry |
| CheckoutSummary.ReportAppend | src/components/user/forms/CheckoutSummary.jsx:179-193 | the records for two runs of entries are the records for the first followed by those for the second, so the order of entries is kept |
| CheckoutSummary.ReportOneEntry | src/components/user/forms/CheckoutSummary.jsx:179-193 | a single entry gives exactly its record when it resolves and nothing when it does not |
| CheckoutSummary.ReportTotalMatchesSelectedTotal | src/components/user/forms/CheckoutSummary.jsx:42-52 | the prices of the records sent to the parent add up to the local selected-package total |
| CheckoutSummary.ProductsTotal | src/components/user/forms/CheckoutSummary.jsx:54-58 | the empty list, and a list whose prices are all missing, total 0; with non-negative prices the total is non-negative and at least each product's price |
| CheckoutSummary.Surcharge | src/components/user/forms/CheckoutSummary.jsx:103-105 | the trip surcharge counts only when `quote_surcharge_applicable` holds, and a missing one counts 0 |
| CheckoutSummary.RawTotal | src/components/user/forms/CheckoutSummary.jsx:101-107 | the raw total is the prices of the records sent to the parent plus the custom products plus the surcharge; with no products and no surcharge it is the selected-package total |
| CheckoutSummary.AllPackagesSelected | src/components/user/forms/CheckoutSummary.jsx:111-115 | it holds exactly when the quote has at least one service selection and every service selection has an entry; it then needs at least one choice |
| CheckoutSummary.FinalTotal | src/components/user/forms/CheckoutSummary.jsx:107-123 | the total is never below the raw total; with every service chosen it is at least the base price and equals the raw total or the base price; otherwise it equals the raw total |
| CheckoutSummary.CheckoutFloorIsPdfAdjustment | src/components/user/forms/CheckoutSummary.jsx:117-119 | with every service chosen, the checkout total is the raw total plus the PDF's adjustment |
| CheckoutSummary.FloorOnlyOnceEveryServiceIsChosen | src/components/user/forms/CheckoutSummary.jsx:111-123 | with one $120 package and a $150 base, the total is $150 once the package is chosen and $0 before |
| CheckoutSummary.HandlePackageSelect | src/components/user/forms/CheckoutSummary.jsx:171-197 | the new object maps the service to the package and keeps the others; the parent gets exactly one record per resolvable entry of the new object, in order, and nothing else, including the new choice when it resolves |
| CheckoutSummary.ChoiceFor | src/components/user/forms/CheckoutSummary.jsx:179-180 | the entry a lookup finds is one of the object's entries |
| CheckoutSummary.HandlePackageSelectIdempotent | src/components/user/forms/CheckoutSummary.jsx:171-197 | selecting the same package twice stores and reports the same thing as once |
| CheckoutSummary.HandleDeleteServiceConfirm | src/components/user/forms/CheckoutSummary.jsx:205-247 | no pending service or a failed call changes nothing; otherwise the local object is emptied and the parent gets exactly the records of the remaining resolvable entries: every other resolvable entry is reported, and every record comes from a remaining entry |
| CheckoutSummary.AcceptAfterSelect | src/components/user/forms/CheckoutSummary.jsx:915 | after a package is chosen, the button is enabled exactly when the terms are accepted and step 3 is complete (partner of `AcceptEnabled`) |
| CheckoutSummary.AcceptDisabledAfterDelete | src/components/user/forms/CheckoutSummary.jsx:216 | after a confirmed service delete, the button is disabled whatever the terms and step 3 say |
| CheckoutSummary.AcceptNeedsAPackage | src/components/user/forms/CheckoutSummary.jsx:915 | with no package chosen, the button is disabled |
| CheckoutSummary.AcceptEnabled | src/components/user/forms/CheckoutSummary.jsx:915 | the accept button is enabled exactly when some service has a package entry, the terms are accepted and step 3 is complete; `AcceptAfterSelect`, `AcceptDisabledAfterDelete` and `AcceptNeedsAPackage` relate it to the handlers |
| CheckoutSummary.PackageSelectUpdate | src/components/user/forms/CheckoutSummary.jsx:195-197 | after a package choice the parent receives the records array: one record for every resolvable entry of the new object and no record from anywhere else |
| CheckoutSummary.HandleSaveCustomProduct | src/components/user/forms/CheckoutSummary.jsx:249-277 | a failed call keeps the list; an edit replaces exactly the items with the edited id and keeps length and order; a create appends the server's product at the end |
| CheckoutSummary.Editing | src/components/user/forms/CheckoutSummary.jsx:258 | a save is an edit exactly when edit mode is on and the current product id is present and truthy |
| CheckoutSummary.SaveProductUpdate | src/components/user/forms/CheckoutSummary.jsx:249-277 | a failed save sends nothing; a successful one sends the raw service-to-package object together with the new product list |
| CheckoutSummary.CreateAddsItsPrice | src/components/user/forms/CheckoutSummary.jsx:264-265 | a created product raises the products total by exactly its price |
| CheckoutSummary.UpdateKeepsOtherProducts | src/components/user/forms/CheckoutSummary.jsx:260 | an edit that keeps the id leaves the products with other ids as they were, in order |
| CheckoutSummary.HandleDeleteCustomProduct | src/components/user/forms/CheckoutSummary.jsx:279-285 | a failed call keeps the list; a successful one is exactly `filter` by the id: the items with the id are removed and the others kept in order, duplicates included |
| CheckoutSummary.DeleteSubtractsTheirPrices | src/components/user/forms/CheckoutSummary.jsx:282 | deleting lowers the products total by exactly the removed items' prices |
| CheckoutSummary.DeleteProductUpdate | src/components/user/forms/CheckoutSummary.jsx:279-285 | a failed delete sends nothing; a successful one sends the raw service-to-package object together with the filtered product list |
| CheckoutSummary.ParentSeesTwoShapes | src/components/user/forms/CheckoutSummary.jsx:195-197 | the same choices reach the parent as an empty records array after a package choice and as the raw object after a product save |
| QuoteDetails.FormatYesNo | src/pages/user/QuoteDetailsPage.jsx:58-62 | "Yes" exactly for `true`, "No" exactly for `false`, "N/A" exactly for non-booleans |
| QuoteDetails.FormatYesNoVersusTruthiness | src/pages/user/QuoteDetailsPage.jsx:58-62 | on booleans, `formatYesNo` agrees with the truthiness rendering; on anything else it differs |
| QuoteDetails.TrueSubTexts | src/pages/user/QuoteDetailsPage.jsx:228-230 | each text comes from a truthy sub-answer, and every truthy sub-answer's text is present; the list is empty exactly when no sub-answer is truthy |
| QuoteDetails.TrueSubTextsAppend | src/pages/user/QuoteDetailsPage.jsx:228-230 | the texts for two runs of sub-answers are those of the first run followed by those of the second, so order and repeats are kept |
| QuoteDetails.TrueSubTextsOne | src/pages/user/QuoteDetailsPage.jsx:228-230 | a single sub-answer gives its text when its answer is truthy and nothing otherwise |
| QuoteDetails.QuantityItems | src/pages/user/QuoteDetailsPage.jsx:234 | one "text: qty" item per option, in order |
| QuoteDetails.RenderQuestionResponse | src/pages/user/QuoteDetailsPage.jsx:221-240 | yes/no by truthiness; the joined true sub-answers, or "None selected" exactly when that join is empty; joined quantity items; joined described options; "N/A" for every other type |
| QuoteDetails.MultipleYesNoNamesTheTrueAnswers | src/pages/user/QuoteDetailsPage.jsx:226-232 | for non-empty, comma-free texts, splitting the rendered string at ", " gives back exactly the truthy sub-answers' texts in order |
| QuoteDetails.MultipleYesNoWithNothingSelected | src/pages/user/QuoteDetailsPage.jsx:231 | with no truthy sub-answer, the page prints "None selected" |
| QuoteDetails.YesNoMatchesPdf | src/pages/user/QuoteDetailsPage.jsx:223-225 | for yes/no and conditional, the PDF prints the page's string as its only line |
| QuoteDetails.DescribeMatchesPdf | src/pages/user/QuoteDetailsPage.jsx:235-236 | a described answer with options is the PDF's lines joined by ", " |
| QuoteDetails.ExpandAll | src/pages/user/QuoteDetailsPage.jsx:137-145 | every service of the loaded quote is expanded and no other id is in the map |
| QuoteDetails.ToggleExpansion | src/pages/user/QuoteDetailsPage.jsx:147-152 | the toggled id's flag flips and every other entry is unchanged |
| QuoteDetails.ToggleTwiceLooksTheSame | src/pages/user/QuoteDetailsPage.jsx:147-152 | toggling an id twice shows every service as before |
| QuoteDetails.ToggleAfterLoadCollapsesOne | src/pages/user/QuoteDetailsPage.jsx:137-152 | right after loading, one toggle collapses that service and no other |
| QuoteDetails.StatusChipStyle | src/pages/user/QuoteDetailsPage.jsx:49-56 | the table entry for the lower-cased status when there is one, else the draft style |
| QuoteDetails.StatusStyleEntry | src/pages/user/QuoteDetailsPage.jsx:49-56 | the table has an entry for exactly its six keys, all lower case |
| QuoteDetails.StatusStyleIgnoresCase | src/pages/user/QuoteDetailsPage.jsx:707 | the chip style does not depend on the status's letter case |
| QuoteDetails.StatusStyleFromTable | src/pages/user/QuoteDetailsPage.jsx:707 | every chip style is one of the six table entries |
| QuoteDetails.ActiveProducts | src/pages/user/QuoteDetailsPage.jsx:1079 | exactly the products whose `is_active` is literally `true` are kept, in their original order |
| QuoteDetails.ActiveProductsAppend | src/pages/user/QuoteDetailsPage.jsx:1079 | filtering two runs of products gives the filtered first run followed by the filtered second, so order and repeats are kept |
| QuoteDetails.ActiveProductsOne | src/pages/user/QuoteDetailsPage.jsx:1079 | a single product is kept exactly when its `is_active` is `true` |
| QuoteDetails.ActiveCountGrowsByOne | src/pages/user/QuoteDetailsPage.jsx:1079-1092 | adding a product raises the active count by one when it is active and by nothing otherwise |
| QuoteDetails.CustomServicesHeading | src/pages/user/QuoteDetailsPage.jsx:1079-1092 | no card without an active product; otherwise the count of active products, with a plural past one |
| QuoteDetails.RoundHalfUp | src/pages/user/QuoteDetailsPage.jsx:1312 | the whole number within half of the value, ties going up |
| QuoteDetails.RoundHalfUpUnique | src/pages/user/QuoteDetailsPage.jsx:1312 | that whole number is the only one so close |
| QuoteDetails.PagePricingOf | src/pages/user/QuoteDetailsPage.jsx:1250-1312 | the custom row shows exactly for a positive custom total; the note shows exactly when services plus custom services are below the base price; final is final total plus custom total, tax is 8.25% of it, and the displayed dollars round the total with tax; an absent custom total yields no amounts |
| QuoteDetails.ServicesTotal | src/pages/user/QuoteDetailsPage.jsx:1259-1260 | all-missing prices total 0; non-negative prices give a non-negative total at least each price; it is the same subtotal the PDF computes |
| QuoteDetails.TaxNeverLowersTotal | src/pages/user/QuoteDetailsPage.jsx:1268-1270 | for a non-negative final amount, the total with tax is at least the final amount |
| QuoteDetails.MinimumNoteAgreesWithPdf | src/pages/user/QuoteDetailsPage.jsx:1259-1262 | with a custom total of 0, the page and the PDF show the minimum note for the same quotes |
| QuoteDetails.MinimumNoteCanDisagreeWithPdf | src/pages/user/QuoteDetailsPage.jsx:1288 | $100 of services, $50 of custom services and a $120 base: a note in the PDF but not on the page |
| PdfExport.CheckPageBreak | src/utils/handleDownloadPDF.js:31-36 | a new page at y = 20 when the lines would cross the bottom reserve, else no change; afterwards y is 20 or the lines fit |
| PdfExport.FitsAfterBreak | src/utils/handleDownloadPDF.js:31-36 | when the lines fit on a fresh page, they fit after the check |
| PdfExport.CheckPageBreakIdempotent | src/utils/handleDownloadPDF.js:31-36 | checking twice for the same lines adds no second page |
| PdfExport.PlaceRows | src/utils/handleDownloadPDF.js:280-286 | every service row is drawn above the bottom reserve; the first row sits where the page-break check puts the start cursor, each later row where it puts the cursor one line below the previous row; the cursor ends one line below the last row, with at most one page added per row |
| PdfExport.RowsStayAboveReserve | src/utils/handleDownloadPDF.js:31-36 | rows that fit are at or above the bottom reserve |
| PdfExport.FormatPrice | src/utils/handleDownloadPDF.js:38-41 | NaN prints "$0.00"; a number prints "$" and a two-decimal amount that reads back as the same cents |
| PdfExport.NotANumberPrintsAsZero | src/utils/handleDownloadPDF.js:38-41 | a non-numeric price prints exactly as a zero price |
| PdfExport.TextOrNA | src/utils/handleDownloadPDF.js:58 | a non-empty text answer is shown as is, and a missing or empty one as "N/A" |
| PdfExport.QuantityLineRoundTrip | src/utils/handleDownloadPDF.js:61 | the quantity on a "text — Qty: n" line reads back from the line's end |
| PdfExport.FormatResponse | src/utils/handleDownloadPDF.js:49-72 | never empty; one line per type as the switch gives, with the fallbacks for empty option and sub-answer lists |
| PdfExport.Adjustment | src/utils/handleDownloadPDF.js:270 | the adjustment is non-negative, positive exactly when the subtotal is below the base price, and subtotal plus adjustment is max(subtotal, base) |
| PdfExport.Summarize | src/utils/handleDownloadPDF.js:267-274 | subtotal is the service prices; the printed adjustment is base minus subtotal when that is positive, else 0, and subtotal plus adjustment is final; final is max(subtotal, base); tax is 8.25% of final; the note shows exactly when the subtotal is below the base price; the custom row needs products and a positive total |
| PdfExport.FinalIgnoresCustomProducts | src/utils/handleDownloadPDF.js:267-274 | exports that differ only in custom products have the same final amount and total with tax |
| PdfExport.FinalWithTaxBounds | src/utils/handleDownloadPDF.js:269-274 | final is at least the base price, and the total with tax is at least final |
| ServiceSelectionForm.ToggleIn | src/components/user/forms/MultiServiceSelectionForm.jsx:48-56 | membership of the id flips; a present id is removed exactly as `filter` by id removes it, with the other entries kept in order; an absent id is appended; a missing list acts as empty |
| ServiceSelectionForm.ToggleService | src/components/user/forms/MultiServiceSelectionForm.jsx:48-56 | the service's membership flips; a removal is the list filtered by the id; an addition appends at the end |
| ServiceSelectionForm.ToggleCustomProduct | src/components/user/forms/MultiServiceSelectionForm.jsx:59-67 | the same for custom products |
| ServiceSelectionForm.ToggleOnMissingList | src/components/user/forms/MultiServiceSelectionForm.jsx:49 | a missing list toggles exactly as the empty list does |
| ServiceSelectionForm.ToggleKeepsOthers | src/components/user/forms/MultiServiceSelectionForm.jsx:52-53 | apart from the toggled id, the list after the toggle equals the list before |
| ServiceSelectionForm.ToggleServiceTwice | src/components/user/forms/MultiServiceSelectionForm.jsx:48-56 | toggling an absent service twice restores the list |
| ServiceSelectionForm.ToggleCustomProductTwice | src/components/user/forms/MultiServiceSelectionForm.jsx:59-67 | toggling an absent product twice restores the list |
| UserInfoForm.HandleChange | src/components/user/forms/UserInfoForm.jsx:203-210 | the field holds the new value and every other field is unchanged |
| UserInfoForm.ChangeLastWriteWins | src/components/user/forms/UserInfoForm.jsx:203-210 | of two edits to one field, only the last counts |
| UserInfoForm.ChangesCommute | src/components/user/forms/UserInfoForm.jsx:203-210 | edits to different fields can be applied in either order |
| UserInfoForm.HandlePlaceSelect | src/components/user/forms/UserInfoForm.jsx:212-222 | address, latitude, longitude and place id come from the place, and every other field is kept |
| UserInfoForm.PlaceLastPickWins | src/components/user/forms/UserInfoForm.jsx:212-222 | of two place picks only the last one is kept |
| UserInfoForm.HandleContactSelect | src/components/user/forms/UserInfoForm.jsx:224-234 | contact id, name and phone come from the contact, the address id becomes "", and every other field is kept |
| UserInfoForm.HandleAddressSelect | src/components/user/forms/UserInfoForm.jsx:236-247 | an unknown id gives no update; a known one sets the address id and the first matching address's house size, or "" when that is falsy, and keeps every other field |
| UserInfoForm.ContactAfterAddressClearsIt | src/components/user/forms/UserInfoForm.jsx:224-247 | choosing a contact after an address leaves no address chosen |
| UserInfoForm.ContactAfterPlaceKeepsPlace | src/components/user/forms/UserInfoForm.jsx:212-234 | the place and contact handlers write disjoint fields, so they commute and a contact pick keeps the place |
| UserInfoForm.KeepDigits | src/components/user/forms/UserInfoForm.jsx:298 | the result is all digits and an in-order subsequence of the input |
| UserInfoForm.KeepDigitsKeepsDigitStrings | src/components/user/forms/UserInfoForm.jsx:298 | a string of digits passes unchanged |
| UserInfoForm.KeepDigitsIdempotent | src/components/user/forms/UserInfoForm.jsx:298 | filtering twice is filtering once |
| UserInfoForm.KeepDigitsAppend | src/components/user/forms/UserInfoForm.jsx:298 | the filter of a concatenation is the concatenation of the filters |
| UserInfoForm.KeepDigitsOneChar | src/components/user/forms/UserInfoForm.jsx:298 | a single digit is kept and any other character is dropped |
| UserInfoForm.HouseSizeInput | src/components/user/forms/UserInfoForm.jsx:297-300 | the stored house size is the typed text with every non-digit removed; so it is digits only, typed digits are stored as typed, and other fields are kept |
| UserInfoForm.Suggestions | src/components/user/forms/UserInfoForm.jsx:58-82 | at most five suggestions: the first five predictions, or all of them when fewer, in order; none when Maps is not ready or the request fails |
| UserInfoForm.SuggestionsExtend | src/components/user/forms/UserInfoForm.jsx:58-82 | more predictions only extend the suggestions, and past five change nothing |
| UserInfoForm.DebounceDecision | src/components/user/forms/UserInfoForm.jsx:91-98 | a query that is blank after trimming clears the suggestions; any other query is fetched untrimmed |
| UserInfoForm.DebounceBlankPadding | src/components/user/forms/UserInfoForm.jsx:92 | a concatenation fetches exactly when one of its parts would |
| SearchableSelect.OnInput | src/components/user/SearchableSelect.jsx:29-32 | the term becomes the input and suggestions open |
| SearchableSelect.OnSelect | src/components/user/SearchableSelect.jsx:34-43 | an id not in the results changes nothing and reports nothing; a known id reports the first such person, shows "first last" and closes |
| SearchableSelect.OnClickAway | src/components/user/SearchableSelect.jsx:45-47 | suggestions close and the term is kept |
| SearchableSelect.SyncValue | src/components/user/SearchableSelect.jsx:23-27 | a non-empty value replaces the term, and any other value changes nothing |
| SearchableSelect.SyncAfterPickIsStable | src/components/user/SearchableSelect.jsx:23-43 | for a caller that passes the picked display name back, syncing it leaves the state exactly as the pick made it (the contact form passes another expression) |
| SearchableSelect.SyncEmptyKeepsTyping | src/components/user/SearchableSelect.jsx:23-32 | an absent or empty value does not undo typing |
| SearchableSelect.SyncLastValueWins | src/components/user/SearchableSelect.jsx:23-27 | syncing is idempotent, a later non-empty value wins, and the open flag is untouched |
| SearchableSelect.Visibility | src/components/user/SearchableSelect.jsx:64-97 | the dropdown needs an open, non-empty term and results; the message needs the same with no results and no request in flight |
| SearchableSelect.NeverBothShown | src/components/user/SearchableSelect.jsx:64-97 | the dropdown and "No results found" never show together, and nothing shows while closed |
| SearchableSelect.PickAndClickAwayHideEverything | src/components/user/SearchableSelect.jsx:39-47 | after a successful pick or a click away nothing shows |
| SearchableSelect.RetypeReopens | src/components/user/SearchableSelect.jsx:29-47 | retyping the same term after a click away reopens on that term |
| SearchableSelect.EmptyTermShowsNothing | src/components/user/SearchableSelect.jsx:64-97 | an emptied input shows neither the dropdown nor the message |
| QuoteModel.ParseQuestionType | src/pages/user/QuoteDetailsPage.jsx:222-238 | the six type names the views switch on are recognised and any other string is kept as an unknown type |
| QuoteModel.QuestionTypeRoundTrip | src/utils/handleDownloadPDF.js:51-70 | every tag survives printing and re-reading its name |
| Lists.Find | src/components/user/forms/CheckoutSummary.jsx:45-46 | `find` gives nothing exactly when no element has the id, else the first element with the id |
| Lists.RemoveKey | src/components/user/forms/CheckoutSummary.jsx:282 | `filter(x => x.id !== id)` keeps exactly the elements with other ids and drops all with this one |
| Lists.RemoveKeyIsSubsequence | src/components/user/forms/CheckoutSummary.jsx:282 | the filtered list keeps the original order |
| Lists.ReplaceKey | src/components/user/forms/CheckoutSummary.jsx:260 | the `map` replacement keeps the length, replaces the matching items and keeps the others |
| Lists.Toggle | src/components/user/forms/MultiServiceSelectionForm.jsx:50-53 | the id's membership flips, other ids are kept, and an absent id is appended at the end |
| Lists.ToggleTwice | src/components/user/forms/MultiServiceSelectionForm.jsx:50-53 | toggling an absent item twice restores the list |
| Lists.SumAppend | src/components/user/forms/CheckoutSummary.jsx:54-58 | the sum over a concatenation is the sum of the sums |
| Lists.SumBounds | src/components/user/forms/CheckoutSummary.jsx:54-58 | zero prices sum to 0; non-negative prices give a non-negative sum at least as large as each price |
| Lists.SumRemoveKey | src/components/user/forms/CheckoutSummary.jsx:54-58 | the items kept by the filter and the items dropped by it add up to the whole |
| Text.CentsToFixed2RoundTrip | src/utils/handleDownloadPDF.js:40 | a two-decimal rendering of cents reads back as the same cents |
| Text.IntToStringRoundTrip | src/pages/user/QuoteDetailsPage.jsx:234 | a rendered quantity reads back as the same integer |
| Text.JoinSplitRoundTrip | src/pages/user/QuoteDetailsPage.jsx:231 | joining comma-free parts with ", " loses nothing: splitting gives the parts back |
| Text.JoinEmpty | src/pages/user/QuoteDetailsPage.jsx:231 | the joined string is empty exactly for no parts or one empty part |
| Text.Trim | src/components/user/forms/UserInfoForm.jsx:92 | a non-empty trimmed string neither starts nor ends with white space |
| Text.TrimEmptyIffAllSpace | src/components/user/forms/UserInfoForm.jsx:92 | a string trims to "" exactly when every character is white space |
| Text.LowerIdempotent | src/pages/user/QuoteDetailsPage.jsx:707 | lower-casing twice is lower-casing once |

## Left out

- Data fetching and caching (RTK Query hooks, refetches, optimistic cache patches): their results are parameters (`Mutation`, `serverOk`, fetched records, search results).
- All JSX layout, dialogs, snackbars and the signature canvas, which hold no logic the totals or transitions depend on.
- jsPDF drawing, `splitTextToSize` wrapping, the logo fetch and the vertical moves between sections: only the page-break rule and the one-line summary rows are modelled.
- Google Maps script loading, the geocoder and `handleSelect` of the address autocomplete: foreign services. Only the suggestion cap and the blank-query rule are modelled.
- The 250 ms debounce timer and `clearTimeout`: only the decision taken when the timer fires is modelled.
- IEEE floating point: money is exact integer cents, tax is an exact `real`, and `Math.round` is modelled on exact reals.
- QuoteDetails.PagePricingOf: the page passes `final_total + custom_service_total` through its own `formatPrice` (`toFixed(2)`, a string) before taxing it. That two-decimal rounding is exact on whole cents and is not modelled separately.
- PdfExport.FormatPrice: `toFixed(2)` on cents is exact, so the model renders cents without float rounding. `Number()` of arbitrary strings is abstracted into `NumberInput`.
- The quote page's own `formatPrice` (QuoteDetailsPage.jsx:216-219) and the checkout's price formatting: string output of floats.
- QuoteDetails.PagePricingOf: a `null` custom-service total (which JavaScript adds as 0) is not told apart from an absent one (which gives NaN). Both are `None`, and the amounts are then absent.
- QuoteDetails.RenderQuestionResponse: a missing `sub_question_responses` or `option_responses` list makes the page throw. The model reads a missing list as empty.
- PdfExport.ShowFlag: `null` in `yes_no_answer` prints "null" in the source. The model has only `true`, `false` and absent.
- Ids are strings. A numeric id compared with `===` against an `Object.entries` string key never matches in the source; that mismatch is not modelled.
- Text.Lower: `toLowerCase` is modelled on A-Z only. Statuses are ASCII words.
- QuoteDetails.StatusChipStyle: keys inherited from `Object.prototype` (a status of "constructor", say) are not modelled.
- The status chip's label (first letter upper-cased) and the date rendering: presentation only.
- SearchableSelect.SyncValue: the model takes `value` as given and does not model the contact form's expression for it. UserInfoForm.jsx:268 passes `contact.first_name + contact.last_name`, with no space, read from a `contact` field that no handler of the form writes. With both parts missing that sum is `NaN`, which is falsy, so the term is left alone. A string such as "Johnundefined" arises only when one part is present. `SearchableSelect.SyncAfterPickIsStable` covers a caller that passes the picked display name back; this app's contact form does not.
- CheckoutSummary.Select: the association list keeps every key in insertion order. The source's `Object.entries` puts integer-like service ids first, in ascending order, so the order of the reported records can differ for such ids.
- The checkout's own expand/collapse flags (CheckoutSummary.jsx:164-169) are the same toggle as `QuoteDetails.ToggleExpansion` and are not repeated.
- The checkout's copy of the answer renderer (CheckoutSummary.jsx:328-347) is the same dispatch as `QuoteDetails.RenderQuestionResponse` and is not repeated.
- The terms text, `AdminLayout`, `PackageCarousel`, `AdminProtectedRoute` and the API definitions: static content or library plumbing.
