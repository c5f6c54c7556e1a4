/** The service step of the booking wizard (`MultiServiceSelectionForm`):
    toggling services and custom products in and out of the wizard's
    selection lists. A list the wizard has not created yet reads as empty. */
module ServiceSelectionForm {
  import opened Base
  import opened QuoteModel
  import Lists

  /** A catalogue service as the form lists it. */
  datatype Service = Service(id: Id, name: string)

  function ServiceId(s: Service): Id { s.id }

  /** The toggle both handlers perform on `existing || []`: drop every
      entry with the item's id when one is there, else append the item. */
  function ToggleIn<T(==)>(selected: Option<seq<T>>, key: T -> Id, x: T): (r: seq<T>)
    ensures Lists.HasKey(r, key, key(x)) <==> !Lists.HasKey(selected.GetOr([]), key, key(x))
    ensures Lists.HasKey(selected.GetOr([]), key, key(x)) ==>
              r == Lists.RemoveKey(selected.GetOr([]), key, key(x))
              && Lists.IsSubsequence(r, selected.GetOr([]))
              && forall i :: 0 <= i < |selected.GetOr([])| && key(selected.GetOr([])[i]) != key(x) ==>
                   selected.GetOr([])[i] in r
    ensures !Lists.HasKey(selected.GetOr([]), key, key(x)) ==> r == selected.GetOr([]) + [x]
    ensures selected.None? ==> r == [x]
  {
    var existing := selected.GetOr([]);
    var r := Lists.Toggle(existing, key, x);
    if Lists.HasKey(existing, key, key(x)) then
      Lists.RemoveKeyIsSubsequence(existing, key, key(x));
      r
    else
      assert r == existing + [x];
      r
  }

  /** `toggleService`. */
  function ToggleService(selected: Option<seq<Service>>, s: Service): (r: seq<Service>)
    ensures Lists.HasKey(r, ServiceId, s.id) <==> !Lists.HasKey(selected.GetOr([]), ServiceId, s.id)
    ensures Lists.HasKey(selected.GetOr([]), ServiceId, s.id) ==>
              r == Lists.RemoveKey(selected.GetOr([]), ServiceId, s.id)
              && Lists.IsSubsequence(r, selected.GetOr([]))
    ensures !Lists.HasKey(selected.GetOr([]), ServiceId, s.id) ==> r == selected.GetOr([]) + [s]
  {
    ToggleIn(selected, ServiceId, s)
  }

  /** `toggleCustomProduct`. */
  function ToggleCustomProduct(selected: Option<seq<CustomProduct>>, p: CustomProduct): (r: seq<CustomProduct>)
    ensures Lists.HasKey(r, ProductId, p.id) <==> !Lists.HasKey(selected.GetOr([]), ProductId, p.id)
    ensures Lists.HasKey(selected.GetOr([]), ProductId, p.id) ==>
              r == Lists.RemoveKey(selected.GetOr([]), ProductId, p.id)
              && Lists.IsSubsequence(r, selected.GetOr([]))
    ensures !Lists.HasKey(selected.GetOr([]), ProductId, p.id) ==> r == selected.GetOr([]) + [p]
  {
    ToggleIn(selected, ProductId, p)
  }

  /** The first toggle on a wizard without a service list starts the list. */
  lemma ToggleOnMissingList(s: Service, p: CustomProduct)
    ensures ToggleService(None, s) == ToggleService(Some([]), s) == [s]
    ensures ToggleCustomProduct(None, p) == ToggleCustomProduct(Some([]), p) == [p]
  {
  }

  /** Entries with another id survive a toggle, in their order: what the
      toggle keeps of them is exactly the list without the toggled id. */
  lemma ToggleKeepsOthers(selected: seq<Service>, s: Service)
    ensures Lists.RemoveKey(ToggleService(Some(selected), s), ServiceId, s.id)
         == Lists.RemoveKey(selected, ServiceId, s.id)
  {
    if !Lists.HasKey(selected, ServiceId, s.id) {
      Lists.RemoveKeyAppend(selected, [s], ServiceId, s.id);
      assert Lists.RemoveKey([s], ServiceId, s.id) == [];
    }
  }

  /** Toggling a service on and off again restores the selection. */
  lemma ToggleServiceTwice(selected: seq<Service>, s: Service)
    requires !Lists.HasKey(selected, ServiceId, s.id)
    ensures ToggleService(Some(ToggleService(Some(selected), s)), s) == selected
  {
    Lists.ToggleTwice(selected, ServiceId, s);
  }

  /** The same for custom products. */
  lemma ToggleCustomProductTwice(selected: seq<CustomProduct>, p: CustomProduct)
    requires !Lists.HasKey(selected, ProductId, p.id)
    ensures ToggleCustomProduct(Some(ToggleCustomProduct(Some(selected), p)), p) == selected
  {
    Lists.ToggleTwice(selected, ProductId, p);
  }
}
