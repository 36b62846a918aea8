/** `std::multimap<std::string, std::string>` as the list of its entries in the order of iteration; the
    order of the keys is a parameter. */
module Multimap {
  type Entry = (string, string)
  type Entries = seq<Entry>

  /** The order of the keys. */
  type Order = (string, string) -> bool

  predicate Sorted(less: Order, es: Entries) {
    forall i, j :: 0 <= i < j < |es| ==> !less(es[j].0, es[i].0)
  }

  /** How many entries have a key that is not greater, counted up to the first one that is. */
  function UpperBound(less: Order, es: Entries, key: string): (u: nat)
    ensures u <= |es|
  {
    if es == [] || less(key, es[0].0) then 0 else 1 + UpperBound(less, es[1..], key)
  }

  /** `emplace` puts an entry behind those with the same key. */
  function Emplace(less: Order, es: Entries, e: Entry): Entries {
    var u := UpperBound(less, es, e.0);
    es[..u] + [e] + es[u..]
  }

  lemma {:induction false} UpperBoundLast(less: Order, es: Entries, key: string)
    requires forall i :: 0 <= i < |es| ==> !less(key, es[i].0)
    ensures UpperBound(less, es, key) == |es|
  {
    if es != [] {
      UpperBoundLast(less, es[1..], key);
    }
  }

  /** The first of the entries still to come can go to the end of those before it. */
  lemma EmplaceInOrder(less: Order, before: Entries, es: Entries)
    requires es != [] && Sorted(less, before + es)
    ensures Emplace(less, before, es[0]) == before + [es[0]]
    ensures before + [es[0]] + es[1..] == before + es
    ensures Sorted(less, before + es[1..])
  {
    forall i | 0 <= i < |before|
      ensures !less(es[0].0, before[i].0)
    {
      assert (before + es)[|before|] == es[0] && (before + es)[i] == before[i];
    }
    UpperBoundLast(less, before, es[0].0);
    forall i, j | 0 <= i < j < |before + es[1..]|
      ensures !less((before + es[1..])[j].0, (before + es[1..])[i].0)
    {
      var i', j' := if i < |before| then i else i + 1, if j < |before| then j else j + 1;
      assert (before + es)[i'] == (before + es[1..])[i] && (before + es)[j'] == (before + es[1..])[j];
    }
  }

  // ----- Any entry into any map -----

  /** What `std::multimap` asks of its order. */
  ghost predicate StrictWeak(less: Order) {
    && (forall a, b :: less(a, b) ==> !less(b, a))
    && (forall a, b, c :: less(a, c) ==> less(a, b) || less(b, c))
  }

  predicate Equivalent(less: Order, a: string, b: string) { !less(a, b) && !less(b, a) }

  lemma {:induction false} UpperBoundCuts(less: Order, es: Entries, key: string)
    ensures var u := UpperBound(less, es, key);
            && (forall i :: 0 <= i < u ==> !less(key, es[i].0)) && (u < |es| ==> less(key, es[u].0))
  {
    if es != [] && !less(key, es[0].0) {
      UpperBoundCuts(less, es[1..], key);
      assert forall i :: 0 < i < |es| ==> es[i] == es[1..][i - 1];
    }
  }

  /** Where an entry goes: behind all that are not greater, before all that are. */
  lemma EmplaceCuts(less: Order, es: Entries, key: string)
    requires StrictWeak(less) && Sorted(less, es)
    ensures var u := UpperBound(less, es, key);
            forall i :: 0 <= i < |es| ==> (less(key, es[i].0) <==> i >= u)
  {
    var u := UpperBound(less, es, key);
    UpperBoundCuts(less, es, key);
    forall i | u <= i < |es|
      ensures less(key, es[i].0)
    {
      assert less(key, es[u].0) && (i > u ==> !less(es[i].0, es[u].0));
    }
  }

  /** The map stays in order. */
  lemma EmplaceSorts(less: Order, es: Entries, e: Entry)
    requires StrictWeak(less) && Sorted(less, es)
    ensures Sorted(less, Emplace(less, es, e))
  {
    var u, r := UpperBound(less, es, e.0), Emplace(less, es, e);
    EmplaceCuts(less, es, e.0);
    forall i, j | 0 <= i < j < |r|
      ensures !less(r[j].0, r[i].0)
    {
      if j == u {
        assert r[j] == e && r[i] == es[i];
      } else if i == u {
        assert r[i] == e && r[j] == es[j - 1];
      } else {
        assert r[i] == es[if i < u then i else i - 1] && r[j] == es[if j < u then j else j - 1];
      }
    }
  }

  /** The entries with a key, in the order of iteration. */
  function OfKey(less: Order, es: Entries, key: string): Entries {
    if es == [] then []
    else (if Equivalent(less, es[0].0, key) then [es[0]] else []) + OfKey(less, es[1..], key)
  }

  lemma EntriesAssociate(a: Entries, b: Entries, c: Entries)
    ensures (a + b) + c == a + (b + c)
  {
  }

  lemma {:induction false} OfKeyAppend(less: Order, a: Entries, b: Entries, key: string)
    ensures OfKey(less, a + b, key) == OfKey(less, a, key) + OfKey(less, b, key)
  {
    if a == [] {
      assert a + b == b;
    } else {
      var first := if Equivalent(less, a[0].0, key) then [a[0]] else [];
      OfKeyAppend(less, a[1..], b, key);
      assert (a + b)[1..] == a[1..] + b;
      EntriesAssociate(first, OfKey(less, a[1..], key), OfKey(less, b, key));
    }
  }

  lemma {:induction false} NoneOfKey(less: Order, es: Entries, key: string)
    requires forall i :: 0 <= i < |es| ==> less(key, es[i].0)
    ensures OfKey(less, es, key) == []
  {
    if es != [] {
      NoneOfKey(less, es[1..], key);
    }
  }

  lemma NoneBehind(less: Order, es: Entries, e: Entry, key: string)
    requires StrictWeak(less) && Sorted(less, es) && Equivalent(less, e.0, key)
    ensures OfKey(less, es[UpperBound(less, es, e.0)..], key) == []
  {
    var u := UpperBound(less, es, e.0);
    EmplaceCuts(less, es, e.0);
    forall i | 0 <= i < |es[u..]|
      ensures less(key, es[u..][i].0)
    {
      assert es[u..][i] == es[u + i] && less(e.0, es[u + i].0);
    }
    NoneOfKey(less, es[u..], key);
  }

  /** The map has the one entry more: as the last of those with its key. For other keys nothing changes. */
  lemma EmplaceIsLast(less: Order, es: Entries, e: Entry, key: string)
    requires StrictWeak(less) && Sorted(less, es)
    ensures OfKey(less, Emplace(less, es, e), key)
         == OfKey(less, es, key) + if Equivalent(less, e.0, key) then [e] else []
  {
    var u := UpperBound(less, es, e.0);
    var front, back := es[..u], es[u..];
    assert es == front + back;
    OfKeyAppend(less, front, back, key);
    OfKeyAppend(less, front + [e], back, key);
    OfKeyAppend(less, front, [e], key);
    if Equivalent(less, e.0, key) {
      NoneBehind(less, es, e, key);
    }
  }
}
