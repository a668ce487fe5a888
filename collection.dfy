/**
 * The document-store queries the controllers issue, over a collection kept
 * in natural (insertion) order: `findOne` by a filter, `findByIdAndDelete`
 * and `find().sort({ key: -1 })`.
 */
module Collection {
  import opened Wrappers

  /** `findOne(filter)`: the position of the first document matching `p`, if any. */
  function IndexWhere<T>(docs: seq<T>, p: T -> bool): (r: Option<nat>)
    ensures r.Some? ==> r.value < |docs| && p(docs[r.value])
    ensures r.Some? ==> forall j :: 0 <= j < r.value ==> !p(docs[j])
    ensures r.None? <==> forall j :: 0 <= j < |docs| ==> !p(docs[j])
  {
    if docs == [] then None
    else if p(docs[0]) then Some(0)
    else match IndexWhere(docs[1..], p)
      case None => None
      case Some(k) => Some(k + 1)
  }

  /** Removes the document at position `i`; every other document keeps its relative order. */
  function RemoveAt<T>(docs: seq<T>, i: nat): (r: seq<T>)
    requires i < |docs|
    ensures |r| == |docs| - 1
    ensures forall j :: 0 <= j < i ==> r[j] == docs[j]
    ensures forall j :: i <= j < |r| ==> r[j] == docs[j + 1]
    ensures multiset(r) == multiset(docs) - multiset{docs[i]}
  {
    assert docs == docs[..i] + [docs[i]] + docs[i + 1..];
    docs[..i] + docs[i + 1..]
  }

  /** No two documents share a value of `key` (a unique index). */
  predicate UniqueBy<T, K(==)>(docs: seq<T>, key: T -> K) {
    forall a, b :: 0 <= a < b < |docs| ==> key(docs[a]) != key(docs[b])
  }

  /**
   * `findByIdAndDelete` under a unique key: removing the document at `i`
   * keeps the key unique, drops exactly the documents with that key and
   * keeps every other one.
   */
  lemma RemoveAtUnique<T, K>(docs: seq<T>, key: T -> K, i: nat)
    requires i < |docs| && UniqueBy(docs, key)
    ensures UniqueBy(RemoveAt(docs, i), key)
    ensures forall x :: x in RemoveAt(docs, i) ==> x in docs && key(x) != key(docs[i])
    ensures forall x :: x in docs && key(x) != key(docs[i]) ==> x in RemoveAt(docs, i)
  {
    var r := RemoveAt(docs, i);
    forall a, b | 0 <= a < b < |r| ensures key(r[a]) != key(r[b]) {
      var a', b' := if a < i then a else a + 1, if b < i then b else b + 1;
      assert r[a] == docs[a'] && r[b] == docs[b'];
    }
    forall x | x in r ensures x in docs && key(x) != key(docs[i]) {
      var k :| 0 <= k < |r| && r[k] == x;
      var k' := if k < i then k else k + 1;
      assert r[k] == docs[k'] && k' != i;
    }
    forall x | x in docs && key(x) != key(docs[i]) ensures x in r {
      var k :| 0 <= k < |docs| && docs[k] == x;
      if k < i { assert r[k] == x; } else { assert k != i; assert r[k - 1] == x; }
    }
  }

  /** The documents are in descending order of `key`. */
  predicate SortedDesc<T>(docs: seq<T>, key: T -> int) {
    forall i, j :: 0 <= i < j < |docs| ==> key(docs[i]) >= key(docs[j])
  }

  /** Putting in front an element whose key reaches the head's keeps the order descending. */
  lemma SortedCons<T>(h: T, docs: seq<T>, key: T -> int)
    requires SortedDesc(docs, key)
    requires docs != [] ==> key(h) >= key(docs[0])
    ensures SortedDesc([h] + docs, key)
  {
    var r := [h] + docs;
    forall i, j | 0 <= i < j < |r| ensures key(r[i]) >= key(r[j]) {
      if i == 0 {
        assert r[j] == docs[j - 1];
        if j > 1 { assert key(docs[0]) >= key(docs[j - 1]); }
      } else {
        assert r[i] == docs[i - 1] && r[j] == docs[j - 1];
      }
    }
  }

  /** The tail of a descending sequence is descending, and the head's key reaches every key in it. */
  lemma SortedTail<T>(docs: seq<T>, key: T -> int)
    requires docs != [] && SortedDesc(docs, key)
    ensures SortedDesc(docs[1..], key)
    ensures docs[1..] != [] ==> key(docs[0]) >= key(docs[1..][0])
  {
    var tail := docs[1..];
    forall i, j | 0 <= i < j < |tail| ensures key(tail[i]) >= key(tail[j]) {
      assert tail[i] == docs[i + 1] && tail[j] == docs[j + 1];
    }
  }

  /** Inserts `x` into a descending sequence, before the first element whose key it reaches. */
  function Insert<T>(x: T, docs: seq<T>, key: T -> int): seq<T> {
    if docs == [] then [x]
    else if key(x) >= key(docs[0]) then [x] + docs
    else [docs[0]] + Insert(x, docs[1..], key)
  }

  /** Insertion adds exactly `x`, and the result starts with `x` or with the old head. */
  lemma {:induction false} InsertPermutes<T>(x: T, docs: seq<T>, key: T -> int)
    ensures multiset(Insert(x, docs, key)) == multiset(docs) + multiset{x}
    ensures |Insert(x, docs, key)| == |docs| + 1
    ensures Insert(x, docs, key)[0] == x || (docs != [] && Insert(x, docs, key)[0] == docs[0])
  {
    if docs != [] && key(x) < key(docs[0]) {
      InsertPermutes(x, docs[1..], key);
      assert docs == [docs[0]] + docs[1..];
    }
  }

  /** Insertion into a descending sequence keeps it descending. */
  lemma {:induction false} InsertSorted<T>(x: T, docs: seq<T>, key: T -> int)
    requires SortedDesc(docs, key)
    ensures SortedDesc(Insert(x, docs, key), key)
  {
    if docs == [] {
    } else if key(x) >= key(docs[0]) {
      SortedCons(x, docs, key);
    } else {
      SortedTail(docs, key);
      InsertSorted(x, docs[1..], key);
      InsertPermutes(x, docs[1..], key);
      SortedCons(docs[0], Insert(x, docs[1..], key), key);
    }
  }

  /** `find().sort({ key: -1 })`: every document, ordered by descending `key`. */
  function SortDesc<T>(docs: seq<T>, key: T -> int): (r: seq<T>)
    ensures SortedDesc(r, key)
    ensures multiset(r) == multiset(docs)
    ensures |r| == |docs|
  {
    if docs == [] then []
    else
      var rest := SortDesc(docs[1..], key);
      InsertSorted(docs[0], rest, key);
      InsertPermutes(docs[0], rest, key);
      assert multiset(docs) == multiset(docs[1..]) + multiset{docs[0]} by {
        assert docs == [docs[0]] + docs[1..];
      }
      Insert(docs[0], rest, key)
  }
}
