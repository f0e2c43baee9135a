/** The document store as the route handlers use it: a collection is a map
    from document id to document; `doc(id).get()` is a lookup, `set` an
    insert, `update` a merge, `delete` a removal, and `get()` on a collection
    or on a `where(field, '==', value)` query lists documents in the store's
    own order, which is a parameter here. */
module DocumentStore {

  datatype Option<T> = None | Some(value: T)

  /** JavaScript truthiness of an optional string: absent and "" are falsy. */
  predicate Truthy(o: Option<string>) {
    o.Some? && o.value != ""
  }

  /** `order` lists every key of `m` exactly once: the order in which the
      store returns the documents of the collection. */
  predicate IsListing<V>(order: seq<string>, m: map<string, V>) {
    && (forall i :: 0 <= i < |order| ==> order[i] in m)
    && (forall k :: k in m ==> k in order)
    && (forall i, j :: 0 <= i < j < |order| ==> order[i] != order[j])
  }

  /** The documents of a collection, as `snapshot.docs.map(doc => doc.data())`
      returns them. */
  function Snapshot<V(==, !new)>(m: map<string, V>, order: seq<string>): (docs: seq<V>)
    requires IsListing(order, m)
    ensures |docs| == |m| == |order|
    ensures forall i :: 0 <= i < |order| ==> docs[i] == m[order[i]]
    ensures forall v :: v in docs <==> v in m.Values
  {
    var docs := seq(|order|, i requires 0 <= i < |order| => m[order[i]]);
    assert forall v :: v in m.Values ==> v in docs by {
      forall v | v in m.Values ensures v in docs {
        var k :| k in m && m[k] == v;
        var i :| 0 <= i < |order| && order[i] == k;
        assert docs[i] == v;
      }
    }
    ListingLength(order, m);
    docs
  }

  lemma ListingLength<V>(order: seq<string>, m: map<string, V>)
    requires IsListing(order, m)
    ensures |order| == |m|
  {
    var keys := set i | 0 <= i < |order| :: order[i];
    assert keys == m.Keys;
    DistinctCard(order);
  }

  lemma {:induction false} DistinctCard(s: seq<string>)
    requires forall i, j :: 0 <= i < j < |s| ==> s[i] != s[j]
    ensures |set i | 0 <= i < |s| :: s[i]| == |s|
    decreases |s|
  {
    if s != [] {
      var init := s[..|s| - 1];
      DistinctCard(init);
      var a := set i | 0 <= i < |init| :: init[i];
      var b := set i | 0 <= i < |s| :: s[i];
      assert b == a + {s[|s| - 1]};
      assert s[|s| - 1] !in a;
    }
  }

  /** The documents of `s` that `keep` accepts, in their order: the
      in-memory `filter`, or an equality `where` evaluated by the store. */
  function Where<T(!new)>(s: seq<T>, keep: T -> bool): (r: seq<T>)
    ensures forall x :: x in r <==> x in s && keep(x)
    ensures forall x :: multiset(r)[x] == if keep(x) then multiset(s)[x] else 0
    ensures |r| <= |s| && multiset(r) <= multiset(s)
    decreases |s|
  {
    if s == [] then []
    else
      var rest := Where(s[1..], keep);
      assert s == [s[0]] + s[1..];
      if keep(s[0]) then [s[0]] + rest else rest
  }

  /** The filter keeps the order of its input: filtering a concatenation
      concatenates the filtered parts. With the multiplicity clause of `Where`
      this determines the result. */
  lemma {:induction false} WhereAppend<T(!new)>(a: seq<T>, b: seq<T>, keep: T -> bool)
    ensures Where(a + b, keep) == Where(a, keep) + Where(b, keep)
    decreases |a|
  {
    if a == [] {
      assert a + b == b;
    } else {
      assert (a + b)[0] == a[0];
      assert (a + b)[1..] == a[1..] + b;
      WhereAppend(a[1..], b, keep);
    }
  }
}
