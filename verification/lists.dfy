/** The list idioms the components apply to records carrying an `id`:
    `find` by id, `filter(x => x.id !== id)`, `map` replacing one id,
    append-or-remove toggles and price sums. Records are reached through a
    `key` function standing for the `.id` field. */
module Lists {
  import opened Base

  /** Some element of `xs` has key `id` (`xs.find(x => x.id === id)` is truthy). */
  predicate HasKey<T>(xs: seq<T>, key: T -> Id, id: Id) {
    exists i :: 0 <= i < |xs| && key(xs[i]) == id
  }

  /** Position of the first element with key `id`, or `|xs|` when there is none. */
  function IndexOfKey<T>(xs: seq<T>, key: T -> Id, id: Id): (r: nat)
    ensures r <= |xs|
    ensures forall j :: 0 <= j < r ==> key(xs[j]) != id
    ensures r < |xs| ==> key(xs[r]) == id
    ensures r == |xs| <==> !HasKey(xs, key, id)
  {
    if |xs| == 0 then 0
    else if key(xs[0]) == id then 0
    else 1 + IndexOfKey(xs[1..], key, id)
  }

  /** `xs.find(x => x.id === id)`: the first element with that key. */
  function Find<T>(xs: seq<T>, key: T -> Id, id: Id): (r: Option<T>)
    ensures r.None? <==> !HasKey(xs, key, id)
    ensures r.Some? ==> key(r.value) == id && r.value in xs
    ensures r.Some? ==> exists i :: 0 <= i < |xs| && xs[i] == r.value
                                 && forall j :: 0 <= j < i ==> key(xs[j]) != id
  {
    var i := IndexOfKey(xs, key, id);
    if i < |xs| then Some(xs[i]) else None
  }

  /** `a` is obtained from `b` by deleting elements, order kept. */
  predicate IsSubsequence<T(==)>(a: seq<T>, b: seq<T>)
    decreases |b|
  {
    if |a| == 0 then true
    else if |b| == 0 then false
    else if a[0] == b[0] then IsSubsequence(a[1..], b[1..])
    else IsSubsequence(a, b[1..])
  }

  /** `xs.filter(x => x.id !== id)`. */
  function RemoveKey<T(==)>(xs: seq<T>, key: T -> Id, id: Id): (r: seq<T>)
    ensures forall i :: 0 <= i < |r| ==> r[i] in xs && key(r[i]) != id
    ensures forall i :: 0 <= i < |xs| && key(xs[i]) != id ==> xs[i] in r
    ensures !HasKey(r, key, id)
    ensures !HasKey(xs, key, id) ==> r == xs
    ensures |r| <= |xs|
    ensures HasKey(xs, key, id) ==> |r| < |xs|
  {
    if |xs| == 0 then []
    else if key(xs[0]) == id then RemoveKey(xs[1..], key, id)
    else
      var rest := RemoveKey(xs[1..], key, id);
      assert HasKey(xs, key, id) ==> HasKey(xs[1..], key, id) by {
        if HasKey(xs, key, id) {
          var i :| 0 <= i < |xs| && key(xs[i]) == id;
          assert key(xs[1..][i - 1]) == id;
        }
      }
      [xs[0]] + rest
  }

  /** `xs.filter(x => x.id === id)`: the elements a `RemoveKey` drops. */
  function WithKey<T(==)>(xs: seq<T>, key: T -> Id, id: Id): (r: seq<T>)
    ensures forall i :: 0 <= i < |r| ==> r[i] in xs && key(r[i]) == id
    ensures forall i :: 0 <= i < |xs| && key(xs[i]) == id ==> xs[i] in r
  {
    if |xs| == 0 then []
    else if key(xs[0]) == id then [xs[0]] + WithKey(xs[1..], key, id)
    else WithKey(xs[1..], key, id)
  }

  /** `xs.map(x => x.id === id ? y : x)`. */
  function ReplaceKey<T>(xs: seq<T>, key: T -> Id, id: Id, y: T): (r: seq<T>)
    ensures |r| == |xs|
    ensures forall i :: 0 <= i < |xs| && key(xs[i]) != id ==> r[i] == xs[i]
    ensures forall i :: 0 <= i < |xs| && key(xs[i]) == id ==> r[i] == y
  {
    if |xs| == 0 then []
    else [if key(xs[0]) == id then y else xs[0]] + ReplaceKey(xs[1..], key, id, y)
  }

  /** Remove every element with `x`'s key when one is present, else append
      `x` at the end. */
  function Toggle<T(==)>(xs: seq<T>, key: T -> Id, x: T): (r: seq<T>)
    ensures HasKey(r, key, key(x)) <==> !HasKey(xs, key, key(x))
    ensures forall i :: 0 <= i < |r| && key(r[i]) != key(x) ==> r[i] in xs
    ensures forall i :: 0 <= i < |xs| && key(xs[i]) != key(x) ==> xs[i] in r
    ensures HasKey(xs, key, key(x)) ==> |r| < |xs|
    ensures !HasKey(xs, key, key(x)) ==> |r| == |xs| + 1 && r[..|xs|] == xs && r[|xs|] == x
  {
    if HasKey(xs, key, key(x)) then RemoveKey(xs, key, key(x))
    else
      var r := xs + [x];
      assert key(r[|xs|]) == key(x);
      r
  }

  /** Sum of a price over a list (`xs.reduce((t, x) => t + price(x), 0)`). */
  function Sum<T>(xs: seq<T>, price: T -> int): int {
    if |xs| == 0 then 0 else price(xs[0]) + Sum(xs[1..], price)
  }

  lemma {:induction false} SumAppend<T>(a: seq<T>, b: seq<T>, price: T -> int)
    ensures Sum(a + b, price) == Sum(a, price) + Sum(b, price)
    decreases |a|
  {
    if |a| == 0 {
      assert a + b == b;
    } else {
      assert (a + b)[1..] == a[1..] + b;
      SumAppend(a[1..], b, price);
    }
  }

  /** Bounds of a sum: all-zero prices sum to 0, non-negative prices to a
      non-negative total no smaller than any one of them. */
  lemma {:induction false} SumBounds<T>(xs: seq<T>, price: T -> int)
    ensures (forall i :: 0 <= i < |xs| ==> price(xs[i]) == 0) ==> Sum(xs, price) == 0
    ensures (forall i :: 0 <= i < |xs| ==> price(xs[i]) >= 0) ==>
              Sum(xs, price) >= 0 && forall i :: 0 <= i < |xs| ==> Sum(xs, price) >= price(xs[i])
    decreases |xs|
  {
    if |xs| > 0 {
      SumBounds(xs[1..], price);
      assert forall i :: 0 < i < |xs| ==> xs[1..][i - 1] == xs[i];
    }
  }

  /** Filtering out a key never reorders: what is left is a subsequence. */
  lemma {:induction false} RemoveKeyIsSubsequence<T>(xs: seq<T>, key: T -> Id, id: Id)
    ensures IsSubsequence(RemoveKey(xs, key, id), xs)
    decreases |xs|
  {
    if |xs| > 0 {
      RemoveKeyIsSubsequence(xs[1..], key, id);
      if key(xs[0]) == id {
        SubsequenceOfTail(RemoveKey(xs[1..], key, id), xs);
      } else {
        var r := RemoveKey(xs, key, id);
        assert r[1..] == RemoveKey(xs[1..], key, id);
      }
    }
  }

  /** A subsequence of the tail is a subsequence of the whole list. */
  lemma {:induction false} SubsequenceOfTail<T>(a: seq<T>, b: seq<T>)
    requires |b| > 0
    requires IsSubsequence(a, b[1..])
    ensures IsSubsequence(a, b)
    decreases |b|, 1
  {
    if |a| > 0 && a[0] == b[0] {
      // b[0] matched a[0]: a[1..] must still embed in b[1..]
      SubsequenceDropHead(a, b[1..]);
    }
  }

  /** Dropping the first element of a subsequence keeps it a subsequence. */
  lemma {:induction false} SubsequenceDropHead<T>(a: seq<T>, b: seq<T>)
    requires |a| > 0
    requires IsSubsequence(a, b)
    ensures IsSubsequence(a[1..], b)
    decreases |b|, 2
  {
    assert |b| > 0;
    if a[0] == b[0] {
      assert IsSubsequence(a[1..], b[1..]);
      if |a[1..]| > 0 {
        SubsequenceOfTail(a[1..], b);
      }
    } else {
      SubsequenceDropHead(a, b[1..]);
      if |a[1..]| > 0 {
        SubsequenceOfTail(a[1..], b);
      }
    }
  }

  /** Filtering distributes over concatenation. */
  lemma {:induction false} RemoveKeyAppend<T>(a: seq<T>, b: seq<T>, key: T -> Id, id: Id)
    ensures RemoveKey(a + b, key, id) == RemoveKey(a, key, id) + RemoveKey(b, key, id)
    decreases |a|
  {
    if |a| == 0 {
      assert a + b == b;
    } else {
      assert (a + b)[1..] == a[1..] + b;
      RemoveKeyAppend(a[1..], b, key, id);
    }
  }

  /** Toggling a key that is absent, twice, gives back the original list. */
  lemma ToggleTwice<T>(xs: seq<T>, key: T -> Id, x: T)
    requires !HasKey(xs, key, key(x))
    ensures Toggle(Toggle(xs, key, x), key, x) == xs
  {
    var once := Toggle(xs, key, x);
    assert once == xs + [x];
    RemoveKeyAppend(xs, [x], key, key(x));
    assert RemoveKey([x], key, key(x)) == [];
  }

  /** Removing a key splits the sum: what stays plus what goes is the whole. */
  lemma {:induction false} SumRemoveKey<T>(xs: seq<T>, key: T -> Id, id: Id, price: T -> int)
    ensures Sum(RemoveKey(xs, key, id), price) + Sum(WithKey(xs, key, id), price) == Sum(xs, price)
    decreases |xs|
  {
    if |xs| > 0 {
      SumRemoveKey(xs[1..], key, id, price);
      if key(xs[0]) == id {
        assert WithKey(xs, key, id) == [xs[0]] + WithKey(xs[1..], key, id);
        assert ([xs[0]] + WithKey(xs[1..], key, id))[1..] == WithKey(xs[1..], key, id);
      } else {
        assert RemoveKey(xs, key, id) == [xs[0]] + RemoveKey(xs[1..], key, id);
        assert ([xs[0]] + RemoveKey(xs[1..], key, id))[1..] == RemoveKey(xs[1..], key, id);
      }
    }
  }

  /** Replacing the elements with key `id` by `y` (itself keyed `id`) leaves
      every element with another key exactly where the filter finds it. */
  lemma {:induction false} ReplaceKeyKeepsOthers<T>(xs: seq<T>, key: T -> Id, id: Id, y: T)
    requires key(y) == id
    ensures RemoveKey(ReplaceKey(xs, key, id, y), key, id) == RemoveKey(xs, key, id)
    decreases |xs|
  {
    if |xs| > 0 {
      var r := ReplaceKey(xs, key, id, y);
      assert r[1..] == ReplaceKey(xs[1..], key, id, y);
      ReplaceKeyKeepsOthers(xs[1..], key, id, y);
    }
  }
}
