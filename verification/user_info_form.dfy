/** The contact step of the booking wizard (`UserInfoForm` and its address
    autocomplete): the record updates sent to the wizard, the digits-only
    house-size filter, and the rules that decide which place suggestions
    are shown. The Maps services themselves are parameters. */
module UserInfoForm {
  import opened Base
  import Lists
  import Text

  /** `data.userInfo`: field name to value. */
  type UserInfo = map<string, JsValue>

  /** `handleChange(field)`: `{ ...userInfo, [field]: value }`. */
  function HandleChange(info: UserInfo, field: string, value: string): (r: UserInfo)
    ensures field in r && r[field] == Str(value)
    ensures r.Keys == info.Keys + {field}
    ensures forall f :: f in info && f != field ==> r[f] == info[f]
  {
    info[field := Str(value)]
  }

  /** Of two edits to the same field only the last one is kept. */
  lemma ChangeLastWriteWins(info: UserInfo, field: string, v1: string, v2: string)
    ensures HandleChange(HandleChange(info, field, v1), field, v2) == HandleChange(info, field, v2)
  {
  }

  /** Edits to different fields do not interfere. */
  lemma ChangesCommute(info: UserInfo, f1: string, v1: string, f2: string, v2: string)
    requires f1 != f2
    ensures HandleChange(HandleChange(info, f1, v1), f2, v2) == HandleChange(HandleChange(info, f2, v2), f1, v1)
  {
  }

  /** What the autocomplete reports for a geocoded place. */
  datatype Place = Place(address: string, latitude: real, longitude: real, placeId: string)

  const PlaceFields: set<string> := {"address", "latitude", "longitude", "googlePlaceId"}

  /** `handlePlaceSelect`: copy the place into four fields. */
  function HandlePlaceSelect(info: UserInfo, place: Place): (r: UserInfo)
    ensures r.Keys == info.Keys + PlaceFields
    ensures r["address"] == Str(place.address) && r["googlePlaceId"] == Str(place.placeId)
    ensures r["latitude"] == Num(place.latitude) && r["longitude"] == Num(place.longitude)
    ensures forall f :: f in info && f !in PlaceFields ==> r[f] == info[f]
  {
    info["address" := Str(place.address)]["latitude" := Num(place.latitude)]
        ["longitude" := Num(place.longitude)]["googlePlaceId" := Str(place.placeId)]
  }

  /** Of two place picks only the last one is kept. */
  lemma PlaceLastPickWins(info: UserInfo, p1: Place, p2: Place)
    ensures HandlePlaceSelect(HandlePlaceSelect(info, p1), p2) == HandlePlaceSelect(info, p2)
  {
  }

  /** A contact found by the contact search. */
  datatype Contact = Contact(id: Id, name: string, phone: string)

  const ContactFields: set<string> := {"contactId", "contactName", "contactPhone", "addressId"}

  /** `handleContactSelect`: take the contact and forget the address chosen
      for the previous one. */
  function HandleContactSelect(info: UserInfo, c: Contact): (r: UserInfo)
    ensures r.Keys == info.Keys + ContactFields
    ensures r["contactId"] == Str(c.id) && r["contactName"] == Str(c.name) && r["contactPhone"] == Str(c.phone)
    ensures r["addressId"] == Str("") && !Truthy(r["addressId"])
    ensures forall f :: f in info && f !in ContactFields ==> r[f] == info[f]
  {
    info["contactId" := Str(c.id)]["contactName" := Str(c.name)]
        ["contactPhone" := Str(c.phone)]["addressId" := Str("")]
  }

  /** One of the contact's saved addresses; `property_sqft` may be absent. */
  datatype Address = Address(id: Id, propertySqft: JsValue)

  function AddressId(a: Address): Id { a.id }

  /** `handleAddressSelect`: `None` when the id is not among the fetched
      addresses (the handler returns without an update). Otherwise the
      first address with the id sets `addressId` and the house size, the
      latter "" when the address has no truthy `property_sqft`. */
  function HandleAddressSelect(info: UserInfo, addresses: Option<seq<Address>>, id: Id): (r: Option<UserInfo>)
    ensures r.None? <==> !Lists.HasKey(addresses.GetOr([]), AddressId, id)
    ensures r.Some? ==>
              && r.value.Keys == info.Keys + {"addressId", "selectedHouseSize"}
              && r.value["addressId"] == Str(id)
              && (forall f :: f in info && f !in {"addressId", "selectedHouseSize"} ==> r.value[f] == info[f])
              && exists i :: 0 <= i < |addresses.GetOr([])| && addresses.GetOr([])[i].id == id
                   && (forall j :: 0 <= j < i ==> addresses.GetOr([])[j].id != id)
                   && r.value["selectedHouseSize"] == OrElse(addresses.GetOr([])[i].propertySqft, Str(""))
  {
    match Lists.Find(addresses.GetOr([]), AddressId, id)
    case None => None
    case Some(a) =>
      Some(info["addressId" := Str(a.id)]["selectedHouseSize" := OrElse(a.propertySqft, Str(""))])
  }

  /** Choosing a new contact after an address leaves no address chosen. */
  lemma ContactAfterAddressClearsIt(info: UserInfo, addresses: seq<Address>, id: Id, c: Contact)
    requires HandleAddressSelect(info, Some(addresses), id).Some?
    ensures HandleContactSelect(HandleAddressSelect(info, Some(addresses), id).value, c)["addressId"] == Str("")
    ensures "selectedHouseSize" in HandleContactSelect(HandleAddressSelect(info, Some(addresses), id).value, c)
  {
  }

  /** Picking a contact after a place keeps the place: the two handlers
      write disjoint fields. */
  lemma ContactAfterPlaceKeepsPlace(info: UserInfo, place: Place, c: Contact)
    ensures PlaceFields !! ContactFields
    ensures forall f :: f in PlaceFields ==>
              HandleContactSelect(HandlePlaceSelect(info, place), c)[f] == HandlePlaceSelect(info, place)[f]
    ensures HandleContactSelect(HandlePlaceSelect(info, place), c)
         == HandlePlaceSelect(HandleContactSelect(info, c), place)
  {
  }

  /** `value.replace(/\D/g, "")`: keep the characters 0-9, in order. */
  function KeepDigits(s: string): (r: string)
    ensures Text.AllDigits(r)
    ensures Lists.IsSubsequence(r, s)
    ensures |r| <= |s|
    decreases |s|
  {
    if |s| == 0 then ""
    else
      var rest := KeepDigits(s[1..]);
      if Text.IsDigit(s[0]) then
        var r := [s[0]] + rest;
        assert r[1..] == rest;
        r
      else
        assert |rest| > 0 ==> rest[0] != s[0];
        rest
  }

  /** A string of digits passes the filter unchanged. */
  lemma {:induction false} KeepDigitsKeepsDigitStrings(s: string)
    requires Text.AllDigits(s)
    ensures KeepDigits(s) == s
    decreases |s|
  {
    if |s| > 0 {
      KeepDigitsKeepsDigitStrings(s[1..]);
    }
  }

  /** Filtering twice is filtering once. */
  lemma KeepDigitsIdempotent(s: string)
    ensures KeepDigits(KeepDigits(s)) == KeepDigits(s)
  {
    KeepDigitsKeepsDigitStrings(KeepDigits(s));
  }

  /** The filter works character by character: filtering a concatenation
      concatenates the filtered parts. With the one-character cases this
      determines the filter completely. */
  lemma {:induction false} KeepDigitsAppend(a: string, b: string)
    ensures KeepDigits(a + b) == KeepDigits(a) + KeepDigits(b)
    decreases |a|
  {
    if |a| == 0 {
      assert a + b == b;
    } else {
      assert (a + b)[0] == a[0];
      assert (a + b)[1..] == a[1..] + b;
      KeepDigitsAppend(a[1..], b);
    }
  }

  /** The one-character cases: a digit is kept, anything else dropped. */
  lemma KeepDigitsOneChar(c: char)
    ensures KeepDigits([c]) == (if Text.IsDigit(c) then [c] else "")
  {
  }

  /** The house-size field's change handler: the filtered text is stored. */
  function HouseSizeInput(info: UserInfo, typed: string): (r: UserInfo)
    ensures r.Keys == info.Keys + {"selectedHouseSize"}
    ensures forall f :: f in info && f != "selectedHouseSize" ==> r[f] == info[f]
    ensures r["selectedHouseSize"] == Str(KeepDigits(typed))
    ensures r["selectedHouseSize"].Str? && Text.AllDigits(r["selectedHouseSize"].s)
    ensures Text.AllDigits(typed) ==> r["selectedHouseSize"] == Str(typed)
  {
    KeepDigitsKeepsDigitStrings(if Text.AllDigits(typed) then typed else "");
    HandleChange(info, "selectedHouseSize", KeepDigits(typed))
  }

  /** The suggestions the autocomplete keeps from a prediction request:
      none when Maps is not loaded or the request failed or gave nothing,
      else the first five predictions in the order Maps returned them. */
  function Suggestions<P>(googleReady: bool, statusOk: bool, preds: Option<seq<P>>): (r: seq<P>)
    ensures |r| <= 5
    ensures !googleReady || !statusOk || preds.None? ==> r == []
    ensures googleReady && statusOk && preds.Some? ==>
              |r| == (if |preds.value| < 5 then |preds.value| else 5)
              && r == preds.value[..|r|]
  {
    if !googleReady then []
    else if statusOk && preds.Some? && |preds.value| > 0 then
      preds.value[..if |preds.value| < 5 then |preds.value| else 5]
    else []
  }

  /** More predictions never reorder the suggestions: those from a list are
      a prefix of those from any longer list starting with it, and once the
      list has five entries more of them change nothing. */
  lemma SuggestionsExtend<P>(a: seq<P>, b: seq<P>)
    ensures Suggestions(true, true, Some(a)) <= Suggestions(true, true, Some(a + b))
    ensures |a| >= 5 ==> Suggestions(true, true, Some(a + b)) == Suggestions(true, true, Some(a))
  {
    var r := Suggestions(true, true, Some(a));
    assert r == a[..|r|];
    assert (a + b)[..|r|] == a[..|r|];
  }

  /** What happens when the typing pause ends. */
  datatype AfterPause = ClearSuggestions | Fetch(query: string)

  /** A query that is blank after trimming clears the suggestions without a
      request; any other query is sent as typed, untrimmed. */
  function DebounceDecision(v: string): (d: AfterPause)
    ensures d == ClearSuggestions <==> Text.AllSpace(v)
    ensures d.Fetch? ==> d.query == v
  {
    Text.TrimEmptyIffAllSpace(v);
    if Text.Trim(v) == "" then ClearSuggestions else Fetch(v)
  }

  /** Padding a blank query with more blanks does not make it fetch, and a
      query with one visible character always does. */
  lemma DebounceBlankPadding(v: string, w: string)
    ensures DebounceDecision(v + w).Fetch? <==> DebounceDecision(v).Fetch? || DebounceDecision(w).Fetch?
  {
    assert forall i :: 0 <= i < |v| ==> (v + w)[i] == v[i];
    assert forall i :: 0 <= i < |w| ==> (v + w)[|v| + i] == w[i];
    assert Text.AllSpace(v + w) <==> Text.AllSpace(v) && Text.AllSpace(w);
  }
}
