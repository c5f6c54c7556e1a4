/** The live checkout step (`CheckoutSummary`): the package chosen per
    service selection, the custom-product list, the running total with its
    trip surcharge and global base-price floor, the selection records sent
    to the parent form, and the gating of the "Accept Quote" button. */
module CheckoutSummary {
  import opened Base
  import opened QuoteModel
  import Lists
  import PdfExport

  /** One entry of `selectedPackages`: service-selection id to package-quote id. */
  datatype Choice = Choice(selectionId: Id, packageId: Id)

  /** `selectedPackages`, a JavaScript object: its entries in insertion
      order (the order `Object.entries` reports). */
  type Choices = seq<Choice>

  function ChoiceKey(c: Choice): Id { c.selectionId }

  /** `selectedPackages[sid]`. */
  function Lookup(cs: Choices, sid: Id): Option<Id> {
    if |cs| == 0 then None
    else if cs[0].selectionId == sid then Some(cs[0].packageId)
    else Lookup(cs[1..], sid)
  }

  /** An object never holds a key twice. */
  predicate KeysDistinct(cs: Choices) {
    |cs| == 0 || (Lookup(cs[1..], cs[0].selectionId).None? && KeysDistinct(cs[1..]))
  }

  lemma {:induction false} LookupSomeIffHasKey(cs: Choices, sid: Id)
    ensures Lookup(cs, sid).Some? <==> Lists.HasKey(cs, ChoiceKey, sid)
    decreases |cs|
  {
    if |cs| > 0 {
      LookupSomeIffHasKey(cs[1..], sid);
      if Lists.HasKey(cs, ChoiceKey, sid) && cs[0].selectionId != sid {
        var i :| 0 <= i < |cs| && ChoiceKey(cs[i]) == sid;
        assert ChoiceKey(cs[1..][i - 1]) == sid;
      }
      if Lists.HasKey(cs[1..], ChoiceKey, sid) {
        var i :| 0 <= i < |cs[1..]| && ChoiceKey(cs[1..][i]) == sid;
        assert ChoiceKey(cs[i + 1]) == sid;
      }
    }
  }

  /** `{ ...selectedPackages, [sid]: pid }`: an existing key is overwritten
      where it stands, a new key is appended. */
  function Select(cs: Choices, sid: Id, pid: Id): (r: Choices)
    ensures Lookup(r, sid) == Some(pid)
    ensures forall o :: o != sid ==> Lookup(r, o) == Lookup(cs, o)
    ensures KeysDistinct(cs) ==> KeysDistinct(r)
    ensures Lookup(cs, sid).Some? ==>
              |r| == |cs| && forall i :: 0 <= i < |cs| ==> r[i].selectionId == cs[i].selectionId
    ensures Lookup(cs, sid).None? ==> r == cs + [Choice(sid, pid)]
    decreases |cs|
  {
    if |cs| == 0 then [Choice(sid, pid)]
    else if cs[0].selectionId == sid then
      var r := [Choice(sid, pid)] + cs[1..];
      assert r[1..] == cs[1..];
      r
    else
      var rest := Select(cs[1..], sid, pid);
      var r := [cs[0]] + rest;
      assert r[1..] == rest;
      assert Lookup(cs, sid).None? ==> r == cs + [Choice(sid, pid)] by {
        if Lookup(cs, sid).None? {
          assert rest == cs[1..] + [Choice(sid, pid)];
          assert cs == [cs[0]] + cs[1..];
        }
      }
      r
  }

  /** Choosing the package that is already chosen changes nothing. */
  lemma {:induction false} SelectIdempotent(cs: Choices, sid: Id, pid: Id)
    ensures Select(Select(cs, sid, pid), sid, pid) == Select(cs, sid, pid)
    decreases |cs|
  {
    if |cs| > 0 && cs[0].selectionId != sid {
      var r := Select(cs, sid, pid);
      assert r[1..] == Select(cs[1..], sid, pid);
      SelectIdempotent(cs[1..], sid, pid);
    }
  }

  /** `delete selectedPackages[sid]`. */
  function RemoveChoice(cs: Choices, sid: Id): (r: Choices)
    ensures Lookup(r, sid).None?
    ensures forall o :: o != sid ==> Lookup(r, o) == Lookup(cs, o)
    decreases |cs|
  {
    var r := Lists.RemoveKey(cs, ChoiceKey, sid);
    RemoveChoiceLookup(cs, sid);
    r
  }

  lemma {:induction false} RemoveChoiceLookup(cs: Choices, sid: Id)
    ensures Lookup(Lists.RemoveKey(cs, ChoiceKey, sid), sid).None?
    ensures forall o :: o != sid ==> Lookup(Lists.RemoveKey(cs, ChoiceKey, sid), o) == Lookup(cs, o)
    decreases |cs|
  {
    if |cs| > 0 {
      RemoveChoiceLookup(cs[1..], sid);
      var r := Lists.RemoveKey(cs, ChoiceKey, sid);
      if cs[0].selectionId != sid {
        assert r == [cs[0]] + Lists.RemoveKey(cs[1..], ChoiceKey, sid);
        assert r[1..] == Lists.RemoveKey(cs[1..], ChoiceKey, sid);
      }
    }
  }

  /** The service selection and the package a choice names, when both ids
      resolve against the fetched quote. */
  function Resolve(q: Quote, c: Choice): Option<(ServiceSelection, PackageQuote)> {
    match Lists.Find(q.serviceSelections, SelectionId, c.selectionId)
    case None => None
    case Some(sel) =>
      match Lists.Find(sel.packageQuotes, PackageId, c.packageId)
      case None => None
      case Some(p) => Some((sel, p))
  }

  /** What one entry adds to `calculateTotalSelectedPrice`. */
  function Contribution(q: Quote, c: Choice): (r: int)
    ensures Resolve(q, c).None? ==> r == 0
    ensures Resolve(q, c).Some? ==> r == PriceOr0(Resolve(q, c).value.1.totalPrice)
  {
    match Resolve(q, c)
    case None => 0
    case Some((_, p)) => PriceOr0(p.totalPrice)
  }

  /** `calculateTotalSelectedPrice`: the chosen packages' prices. */
  function SelectedTotal(cs: Choices, q: Quote): (r: int)
    ensures (forall i :: 0 <= i < |cs| ==> Resolve(q, cs[i]).None?) ==> r == 0
    ensures (forall i :: 0 <= i < |cs| ==> Contribution(q, cs[i]) >= 0) ==> r >= 0
    decreases |cs|
  {
    if |cs| == 0 then 0
    else
      var rest := SelectedTotal(cs[1..], q);
      assert forall i :: 0 <= i < |cs| - 1 ==> cs[1..][i] == cs[i + 1];
      Contribution(q, cs[0]) + rest
  }

  /** A record of the array passed to `onUpdate({ selectedPackages })`. */
  datatype SelectionRecord = SelectionRecord(
    serviceSelectionId: Id,
    packageId: Id,
    packageName: string,
    totalPrice: Option<int>)

  function RecordFor(q: Quote, c: Choice): Option<SelectionRecord> {
    match Resolve(q, c)
    case None => None
    case Some((_, p)) => Some(SelectionRecord(c.selectionId, p.package, p.packageName, p.totalPrice))
  }

  /** The `Object.entries(...).map(...).filter(Boolean)` array: one record
      per entry that resolves, in entry order; other entries are omitted. */
  function ReportSelections(cs: Choices, q: Quote): (r: seq<SelectionRecord>)
    ensures |r| <= |cs|
    ensures forall i :: 0 <= i < |r| ==>
              exists j :: 0 <= j < |cs| && RecordFor(q, cs[j]) == Some(r[i])
    ensures forall j :: 0 <= j < |cs| && RecordFor(q, cs[j]).Some? ==>
              RecordFor(q, cs[j]).value in r
    decreases |cs|
  {
    if |cs| == 0 then []
    else
      var rest := ReportSelections(cs[1..], q);
      assert forall j :: 0 <= j < |cs| - 1 ==> cs[1..][j] == cs[j + 1];
      match RecordFor(q, cs[0])
      case None => rest
      case Some(rec) => [rec] + rest
  }

  /** The report is built entry by entry: the report of two runs of entries
      is the two reports in order. With `ReportOneEntry` this fixes the
      report's order and multiplicity completely. */
  lemma {:induction false} ReportAppend(a: Choices, b: Choices, q: Quote)
    ensures ReportSelections(a + b, q) == ReportSelections(a, q) + ReportSelections(b, q)
    decreases |a|
  {
    if |a| == 0 {
      assert a + b == b;
    } else {
      assert (a + b)[0] == a[0];
      assert (a + b)[1..] == a[1..] + b;
      ReportAppend(a[1..], b, q);
    }
  }

  /** A single entry gives its record if it resolves and nothing otherwise. */
  lemma ReportOneEntry(c: Choice, q: Quote)
    ensures ReportSelections([c], q) == (if RecordFor(q, c).Some? then [RecordFor(q, c).value] else [])
  {
    assert [c][1..] == [];
  }

  function RecordPrice(r: SelectionRecord): int { PriceOr0(r.totalPrice) }

  /** The parent sees the same money as the local total: the records'
      prices add up to `calculateTotalSelectedPrice`. */
  lemma {:induction false} ReportTotalMatchesSelectedTotal(cs: Choices, q: Quote)
    ensures Lists.Sum(ReportSelections(cs, q), RecordPrice) == SelectedTotal(cs, q)
    decreases |cs|
  {
    if |cs| > 0 {
      ReportTotalMatchesSelectedTotal(cs[1..], q);
      var rest := ReportSelections(cs[1..], q);
      match RecordFor(q, cs[0])
      case None =>
      case Some(rec) =>
        assert ([rec] + rest)[1..] == rest;
    }
  }

  /** Choosing package `pid` for `sid` replaces that entry's contribution
      and leaves every other contribution as it was. */
  lemma {:induction false} SelectChangesTotal(cs: Choices, q: Quote, sid: Id, pid: Id)
    requires KeysDistinct(cs)
    ensures SelectedTotal(Select(cs, sid, pid), q)
         == SelectedTotal(cs, q) - OldContribution(cs, q, sid) + Contribution(q, Choice(sid, pid))
    decreases |cs|
  {
    if |cs| > 0 {
      var r := Select(cs, sid, pid);
      if cs[0].selectionId == sid {
        assert r[1..] == cs[1..];
        NoKeyNoContribution(cs[1..], q, sid);
      } else {
        assert r[1..] == Select(cs[1..], sid, pid);
        SelectChangesTotal(cs[1..], q, sid, pid);
      }
    }
  }

  /** What the current entry for `sid`, if any, contributes. */
  function OldContribution(cs: Choices, q: Quote, sid: Id): int {
    match Lookup(cs, sid)
    case None => 0
    case Some(pid) => Contribution(q, Choice(sid, pid))
  }

  lemma {:induction false} NoKeyNoContribution(cs: Choices, q: Quote, sid: Id)
    requires Lookup(cs, sid).None?
    ensures OldContribution(cs, q, sid) == 0
  {
  }

  /** `calculateCustomProductsTotal`. */
  function ProductsTotal(ps: seq<CustomProduct>): (r: int)
    ensures |ps| == 0 ==> r == 0
    ensures (forall i :: 0 <= i < |ps| ==> ps[i].price.None?) ==> r == 0
    ensures (forall i :: 0 <= i < |ps| ==> PriceOr0(ps[i].price) >= 0) ==>
              r >= 0 && forall i :: 0 <= i < |ps| ==> r >= PriceOr0(ps[i].price)
  {
    Lists.SumBounds(ps, ProductPrice);
    Lists.Sum(ps, ProductPrice)
  }

  /** The trip surcharge counts only when the quote says it applies. */
  function Surcharge(q: Quote): (r: int)
    ensures !q.surchargeApplicable ==> r == 0
    ensures q.surchargeApplicable ==> r == PriceOr0(q.tripSurcharge)
  {
    if q.surchargeApplicable then PriceOr0(q.tripSurcharge) else 0
  }

  /** `total`: packages, custom products and surcharge, before the floor.
      The package part is what the parent receives in its records. */
  function RawTotal(q: Quote, cs: Choices, ps: seq<CustomProduct>): (r: int)
    ensures r == Lists.Sum(ReportSelections(cs, q), RecordPrice) + ProductsTotal(ps) + Surcharge(q)
    ensures ps == [] && !q.surchargeApplicable ==> r == SelectedTotal(cs, q)
  {
    ReportTotalMatchesSelectedTotal(cs, q);
    SelectedTotal(cs, q) + ProductsTotal(ps) + Surcharge(q)
  }

  /** `allPackagesSelected`: every service selection of the quote has an
      entry, and there is at least one selection. */
  function AllPackagesSelected(q: Quote, cs: Choices): (r: bool)
    ensures r <==> |q.serviceSelections| > 0
                   && forall i :: 0 <= i < |q.serviceSelections| ==>
                        Lists.HasKey(cs, ChoiceKey, q.serviceSelections[i].id)
    ensures r ==> |cs| > 0
  {
    AllHaveKeys(cs, q.serviceSelections);
    var all := |q.serviceSelections| > 0
               && forall i :: 0 <= i < |q.serviceSelections| ==> Lookup(cs, q.serviceSelections[i].id).Some?;
    if all then
      assert Lookup(cs, q.serviceSelections[0].id).Some?;
      true
    else false
  }

  /** Every selection found by `Lookup` has an entry with its key. */
  lemma AllHaveKeys(cs: Choices, sels: seq<ServiceSelection>)
    ensures (forall i :: 0 <= i < |sels| ==> Lookup(cs, sels[i].id).Some?)
        <==> (forall i :: 0 <= i < |sels| ==> Lists.HasKey(cs, ChoiceKey, sels[i].id))
  {
    forall i | 0 <= i < |sels|
      ensures Lookup(cs, sels[i].id).Some? <==> Lists.HasKey(cs, ChoiceKey, sels[i].id)
    {
      LookupSomeIffHasKey(cs, sels[i].id);
    }
  }

  /** The total the checkout shows: the global base price is a floor, but
      only once every service has a package. */
  function FinalTotal(q: Quote, cs: Choices, ps: seq<CustomProduct>, globalBase: Option<int>): (r: int)
    ensures r >= RawTotal(q, cs, ps)
    ensures AllPackagesSelected(q, cs) ==> r >= PriceOr0(globalBase)
    ensures AllPackagesSelected(q, cs) ==> r == RawTotal(q, cs, ps) || r == PriceOr0(globalBase)
    ensures !AllPackagesSelected(q, cs) ==> r == RawTotal(q, cs, ps)
  {
    var total := RawTotal(q, cs, ps);
    if AllPackagesSelected(q, cs) then Max(total, PriceOr0(globalBase)) else total
  }

  /** The checkout floor and the PDF's adjustment are the same rule once
      every service has a package. */
  lemma CheckoutFloorIsPdfAdjustment(q: Quote, cs: Choices, ps: seq<CustomProduct>, globalBase: Option<int>)
    requires AllPackagesSelected(q, cs)
    ensures FinalTotal(q, cs, ps, globalBase)
         == RawTotal(q, cs, ps) + PdfExport.Adjustment(RawTotal(q, cs, ps), globalBase)
  {
  }

  /** One service with a $120 package and a $150 base price: once the
      package is chosen the floor lifts the total to $150; before that the
      total is the raw $0. */
  lemma FloorOnlyOnceEveryServiceIsChosen()
    ensures var pkg := PackageQuote("p1", "pkg", "Basic", Some(12000));
            var sel := ServiceSelection("s1", "svc", [pkg], [], None);
            var q := Quote("q1", None, [sel], [], false, None, 0, None);
            FinalTotal(q, [Choice("s1", "p1")], [], Some(15000)) == 15000
            && FinalTotal(q, [], [], Some(15000)) == 0
  {
    var pkg := PackageQuote("p1", "pkg", "Basic", Some(12000));
    var sel := ServiceSelection("s1", "svc", [pkg], [], None);
    var q := Quote("q1", None, [sel], [], false, None, 0, None);
    assert Lists.Find([sel], SelectionId, "s1") == Some(sel);
    assert Lists.Find([pkg], PackageId, "p1") == Some(pkg);
    assert SelectedTotal([Choice("s1", "p1")], q) == 12000;
    assert AllPackagesSelected(q, [Choice("s1", "p1")]);
  }

  /** `handlePackageSelect`: the new object and the records sent up. */
  datatype SelectOutcome = SelectOutcome(choices: Choices, report: seq<SelectionRecord>)

  function HandlePackageSelect(cs: Choices, q: Quote, sid: Id, pkg: PackageQuote): (r: SelectOutcome)
    requires KeysDistinct(cs)
    ensures KeysDistinct(r.choices)
    ensures Lookup(r.choices, sid) == Some(pkg.id)
    ensures forall o :: o != sid ==> Lookup(r.choices, o) == Lookup(cs, o)
    ensures forall i :: 0 <= i < |r.report| ==>
              exists j :: 0 <= j < |r.choices| && RecordFor(q, r.choices[j]) == Some(r.report[i])
    ensures forall j :: 0 <= j < |r.choices| && RecordFor(q, r.choices[j]).Some? ==>
              RecordFor(q, r.choices[j]).value in r.report
    ensures RecordFor(q, Choice(sid, pkg.id)).Some? ==> RecordFor(q, Choice(sid, pkg.id)).value in r.report
    ensures r.report == ReportSelections(r.choices, q)
  {
    var next := Select(cs, sid, pkg.id);
    ChoiceFor(next, sid);
    SelectOutcome(next, ReportSelections(next, q))
  }

  /** The entry `Lookup` finds is an entry of the list. */
  lemma {:induction false} ChoiceFor(cs: Choices, sid: Id)
    requires Lookup(cs, sid).Some?
    ensures Choice(sid, Lookup(cs, sid).value) in cs
    decreases |cs|
  {
    if cs[0].selectionId != sid {
      ChoiceFor(cs[1..], sid);
    }
  }

  /** Re-selecting the package just selected reports and stores the same thing. */
  lemma HandlePackageSelectIdempotent(cs: Choices, q: Quote, sid: Id, pkg: PackageQuote)
    requires KeysDistinct(cs)
    ensures HandlePackageSelect(HandlePackageSelect(cs, q, sid, pkg).choices, q, sid, pkg)
         == HandlePackageSelect(cs, q, sid, pkg)
  {
    SelectIdempotent(cs, sid, pkg.id);
  }

  /** `handleDeleteServiceConfirm`: nothing happens without a pending
      service or when the server call fails; otherwise the local object is
      reset to empty and the parent gets the old entries minus the deleted
      one. */
  datatype DeleteOutcome = Unchanged | Deleted(choices: Choices, report: seq<SelectionRecord>)

  function HandleDeleteServiceConfirm(cs: Choices, q: Quote, pending: Option<ServiceSelection>, serverOk: bool): (r: DeleteOutcome)
    ensures pending.None? || !serverOk <==> r.Unchanged?
    ensures r.Deleted? ==> r.choices == []
    ensures r.Deleted? ==> forall i :: 0 <= i < |r.report| ==> r.report[i].serviceSelectionId != pending.value.id
    ensures r.Deleted? ==>
              forall j :: (0 <= j < |cs| && cs[j].selectionId != pending.value.id && RecordFor(q, cs[j]).Some?)
                          ==> RecordFor(q, cs[j]).value in r.report
    ensures r.Deleted? ==>
              forall i :: 0 <= i < |r.report| ==>
                exists j :: 0 <= j < |cs| && cs[j].selectionId != pending.value.id
                            && RecordFor(q, cs[j]) == Some(r.report[i])
    ensures r.Deleted? ==> r.report == ReportSelections(RemoveChoice(cs, pending.value.id), q)
  {
    if pending.None? || !serverOk then Unchanged
    else
      var sid := pending.value.id;
      var rest := RemoveChoice(cs, sid);
      var report := ReportSelections(rest, q);
      assert forall j :: 0 <= j < |cs| && cs[j].selectionId != sid ==> cs[j] in rest;
      Deleted([], report)
  }

  /** The `disabled` condition of the "Accept Quote" button, negated:
      `Object.keys(selectedPackages).length` is non-zero exactly when some
      service has a package. */
  function AcceptEnabled(cs: Choices, termsAccepted: bool, stepThreeComplete: bool): (r: bool)
    ensures r <==> (exists sid :: Lookup(cs, sid).Some?) && termsAccepted && stepThreeComplete
  {
    if |cs| > 0 then
      assert Lookup(cs, cs[0].selectionId).Some?;
      termsAccepted && stepThreeComplete
    else false
  }

  /** After a package is chosen the button waits only on the terms and step 3. */
  lemma AcceptAfterSelect(cs: Choices, q: Quote, sid: Id, pkg: PackageQuote, terms: bool, step3: bool)
    requires KeysDistinct(cs)
    ensures AcceptEnabled(HandlePackageSelect(cs, q, sid, pkg).choices, terms, step3) <==> terms && step3
  {
  }

  /** After a service is deleted the button is disabled until a package is
      chosen again, whatever the terms and step 3 say. */
  lemma AcceptDisabledAfterDelete(cs: Choices, q: Quote, pending: Option<ServiceSelection>, terms: bool, step3: bool)
    requires pending.Some?
    ensures !AcceptEnabled(HandleDeleteServiceConfirm(cs, q, pending, true).choices, terms, step3)
  {
  }

  /** Without any entry the button is never enabled. */
  lemma AcceptNeedsAPackage(terms: bool, step3: bool)
    ensures !AcceptEnabled([], terms, step3)
  {
  }

  /** The server's answer to a create, update or delete call. */
  datatype Mutation<T> = Succeeded(value: T) | Failed

  /** `editMode && currentProductId`: an edit needs a truthy product id. */
  function Editing(editMode: bool, currentId: Option<Id>): (r: bool)
    ensures r <==> editMode && currentId.Some? && Truthy(Str(currentId.value))
  {
    editMode && currentId.Some? && currentId.value != ""
  }

  /** `handleAddOrUpdateCustomProduct`: on success an edit replaces the
      product with the edited id by the server's copy, a create appends the
      server's copy; a failed call leaves the list as it was. */
  function HandleSaveCustomProduct(ps: seq<CustomProduct>, editMode: bool, currentId: Option<Id>,
                                   server: Mutation<CustomProduct>): (r: seq<CustomProduct>)
    ensures server.Failed? ==> r == ps
    ensures server.Succeeded? && Editing(editMode, currentId) ==>
              |r| == |ps|
              && (forall i :: 0 <= i < |ps| && ps[i].id == currentId.value ==> r[i] == server.value)
              && (forall i :: 0 <= i < |ps| && ps[i].id != currentId.value ==> r[i] == ps[i])
    ensures server.Succeeded? && !Editing(editMode, currentId) ==>
              |r| == |ps| + 1 && r[..|ps|] == ps && r[|ps|] == server.value
  {
    if server.Failed? then ps
    else if Editing(editMode, currentId) then Lists.ReplaceKey(ps, ProductId, currentId.value, server.value)
    else ps + [server.value]
  }

  /** What a handler passes to `onUpdate`. Choosing a package and deleting
      a service send the records array as `selectedPackages`; saving and
      deleting a custom product send the local `{ sid: pid }` object under
      the same name, together with the new product list. */
  datatype ParentUpdate =
    | PackageRecords(records: seq<SelectionRecord>)
    | PackagesAndProducts(packages: Choices, products: seq<CustomProduct>)

  /** The payload of `handlePackageSelect`. */
  function PackageSelectUpdate(cs: Choices, q: Quote, sid: Id, pkg: PackageQuote): (u: ParentUpdate)
    requires KeysDistinct(cs)
    ensures u.PackageRecords? && u.records == HandlePackageSelect(cs, q, sid, pkg).report
    ensures u.records == ReportSelections(Select(cs, sid, pkg.id), q)
    ensures forall j :: 0 <= j < |Select(cs, sid, pkg.id)| && RecordFor(q, Select(cs, sid, pkg.id)[j]).Some? ==>
              RecordFor(q, Select(cs, sid, pkg.id)[j]).value in u.records
    ensures forall i :: 0 <= i < |u.records| ==>
              exists j :: 0 <= j < |Select(cs, sid, pkg.id)| && RecordFor(q, Select(cs, sid, pkg.id)[j]) == Some(u.records[i])
  {
    PackageRecords(HandlePackageSelect(cs, q, sid, pkg).report)
  }

  /** The payload of `handleAddOrUpdateCustomProduct`: none when the call
      fails, else the raw object and the new list. */
  function SaveProductUpdate(cs: Choices, ps: seq<CustomProduct>, editMode: bool, currentId: Option<Id>,
                             server: Mutation<CustomProduct>): (u: Option<ParentUpdate>)
    ensures u.None? <==> server.Failed?
    ensures u.Some? ==> u.value == PackagesAndProducts(cs, HandleSaveCustomProduct(ps, editMode, currentId, server))
  {
    if server.Failed? then None
    else Some(PackagesAndProducts(cs, HandleSaveCustomProduct(ps, editMode, currentId, server)))
  }

  /** The payload of `handleDeleteCustomProduct`. */
  function DeleteProductUpdate(cs: Choices, ps: seq<CustomProduct>, id: Id, serverOk: bool): (u: Option<ParentUpdate>)
    ensures u.None? <==> !serverOk
    ensures u.Some? ==> u.value == PackagesAndProducts(cs, HandleDeleteCustomProduct(ps, id, true))
  {
    if serverOk then Some(PackagesAndProducts(cs, HandleDeleteCustomProduct(ps, id, true))) else None
  }

  /** The two shapes disagree on entries that do not resolve: a package
      choice whose package is not in the quote is reported as no record by
      `handlePackageSelect`, yet a later product save sends it to the
      parent as it stands. */
  lemma ParentSeesTwoShapes(p: CustomProduct)
    ensures var q := Quote("q1", None, [], [], false, None, 0, None);
            var cs := [Choice("s1", "p1")];
            PackageSelectUpdate([], q, "s1", PackageQuote("p1", "pkg", "Basic", Some(100))) == PackageRecords([])
            && SaveProductUpdate(cs, [], false, None, Succeeded(p)) == Some(PackagesAndProducts(cs, [p]))
  {
    var q := Quote("q1", None, [], [], false, None, 0, None);
    assert Lists.Find(q.serviceSelections, SelectionId, "s1").None?;
    assert ReportSelections([Choice("s1", "p1")], q) == [];
  }

  /** A created product adds exactly its own price to the products total. */
  lemma CreateAddsItsPrice(ps: seq<CustomProduct>, created: CustomProduct)
    ensures ProductsTotal(HandleSaveCustomProduct(ps, false, None, Succeeded(created)))
         == ProductsTotal(ps) + PriceOr0(created.price)
  {
    Lists.SumAppend(ps, [created], ProductPrice);
  }

  /** An edit that keeps the product's id touches no product with another id. */
  lemma UpdateKeepsOtherProducts(ps: seq<CustomProduct>, id: Id, updated: CustomProduct)
    requires id != "" && updated.id == id
    ensures Lists.RemoveKey(HandleSaveCustomProduct(ps, true, Some(id), Succeeded(updated)), ProductId, id)
         == Lists.RemoveKey(ps, ProductId, id)
  {
    Lists.ReplaceKeyKeepsOthers(ps, ProductId, id, updated);
  }

  /** `handleDeleteCustomProduct`: on success, every product with that id
      is dropped and the others stay in order. */
  function HandleDeleteCustomProduct(ps: seq<CustomProduct>, id: Id, serverOk: bool): (r: seq<CustomProduct>)
    ensures !serverOk ==> r == ps
    ensures serverOk ==> forall i :: 0 <= i < |r| ==> r[i].id != id && r[i] in ps
    ensures serverOk ==> forall i :: 0 <= i < |ps| && ps[i].id != id ==> ps[i] in r
    ensures serverOk ==> Lists.IsSubsequence(r, ps)
    ensures serverOk ==> r == Lists.RemoveKey(ps, ProductId, id)
  {
    if serverOk then
      Lists.RemoveKeyIsSubsequence(ps, ProductId, id);
      Lists.RemoveKey(ps, ProductId, id)
    else ps
  }

  /** Deleting products lowers the products total by exactly their prices. */
  lemma DeleteSubtractsTheirPrices(ps: seq<CustomProduct>, id: Id)
    ensures ProductsTotal(HandleDeleteCustomProduct(ps, id, true))
         == ProductsTotal(ps) - Lists.Sum(Lists.WithKey(ps, ProductId, id), ProductPrice)
  {
    Lists.SumRemoveKey(ps, ProductId, id, ProductPrice);
  }
}
