/** What the document-store operations used by the registry do to one collection.
    A collection is a sequence of documents in natural (insertion) order and a query
    filter is a predicate on a document; `find_one`, `delete_one` and `update_one`
    act on the first match in that order, `delete_many` and `update_many` on every match. */
module Collections {

  datatype Option<T> = None | Some(value: T)

  /** Position of the first element the filter `p` selects, if any. */
  function FirstIndex<T>(s: seq<T>, p: T -> bool): (k: Option<nat>)
    ensures k.Some? ==> k.value < |s| && p(s[k.value])
    ensures k.Some? ==> forall j :: 0 <= j < k.value ==> !p(s[j])
    ensures k.None? <==> forall j :: 0 <= j < |s| ==> !p(s[j])
    decreases |s|
  {
    if |s| == 0 then None
    else if p(s[0]) then Some(0)
    else
      match FirstIndex(s[1..], p)
      case None => None
      case Some(k) => Some(k + 1)
  }

  /** `find_one(filter)`: the first matching document, or nothing. */
  function FindOne<T>(s: seq<T>, p: T -> bool): (r: Option<T>)
    ensures r.Some? ==> r.value in s && p(r.value)
    ensures r.Some? ==> exists k :: 0 <= k < |s| && s[k] == r.value && forall j :: 0 <= j < k ==> !p(s[j])
    ensures r.None? <==> forall x :: x in s ==> !p(x)
  {
    match FirstIndex(s, p)
    case None => None
    case Some(k) => Some(s[k])
  }

  /** `delete_one(filter)`: removes the first matching document, keeps the rest in order. */
  function DeleteOne<T>(s: seq<T>, p: T -> bool): (r: seq<T>)
    ensures FirstIndex(s, p).None? ==> r == s
    ensures FirstIndex(s, p).Some? ==>
              var k := FirstIndex(s, p).value;
              |r| == |s| - 1 &&
              (forall i :: 0 <= i < k ==> r[i] == s[i]) &&
              (forall i :: k <= i < |r| ==> r[i] == s[i + 1])
  {
    match FirstIndex(s, p)
    case None => s
    case Some(k) => s[..k] + s[k + 1..]
  }

  /** No two elements of `s` share a `key`. */
  ghost predicate DistinctBy<T, K>(s: seq<T>, key: T -> K)
  {
    forall i, j :: 0 <= i < j < |s| ==> key(s[i]) != key(s[j])
  }

  /** `delete_one` never removes a document the filter does not select. */
  lemma DeleteOneKeepsUnselected<T>(s: seq<T>, p: T -> bool, x: T)
    requires !p(x)
    ensures multiset(DeleteOne(s, p))[x] == multiset(s)[x]
  {
    match FirstIndex(s, p)
    case None =>
    case Some(k) =>
      assert s == s[..k] + [s[k]] + s[k + 1..];
      assert DeleteOne(s, p) == s[..k] + s[k + 1..];
      assert s[k] != x;
  }

  /** `delete_many(filter)`: removes every matching document, keeps the rest in order. */
  function DeleteMany<T>(s: seq<T>, p: T -> bool): (r: seq<T>)
    ensures |r| <= |s|
    ensures forall x :: x in r ==> x in s && !p(x)
    ensures forall i :: 0 <= i < |s| && !p(s[i]) ==> multiset(r)[s[i]] == multiset(s)[s[i]]
    decreases |s|
  {
    if |s| == 0 then []
    else
      assert s == [s[0]] + s[1..];
      if p(s[0]) then DeleteMany(s[1..], p) else [s[0]] + DeleteMany(s[1..], p)
  }

  /** A key unique before `delete_one` is unique after it. */
  lemma DeleteOneKeepsDistinct<T, K>(s: seq<T>, p: T -> bool, key: T -> K)
    requires DistinctBy(s, key)
    ensures DistinctBy(DeleteOne(s, p), key)
  {
    var r := DeleteOne(s, p);
    if FirstIndex(s, p).Some? {
      var k := FirstIndex(s, p).value;
      forall i, j | 0 <= i < j < |r|
        ensures key(r[i]) != key(r[j])
      {
        var i' := if i < k then i else i + 1;
        var j' := if j < k then j else j + 1;
        assert r[i] == s[i'] && r[j] == s[j'] && i' < j';
      }
    }
  }

  /** A key unique before `delete_many` is unique after it. */
  lemma {:induction false} DeleteManyKeepsDistinct<T, K>(s: seq<T>, p: T -> bool, key: T -> K)
    requires DistinctBy(s, key)
    ensures DistinctBy(DeleteMany(s, p), key)
    decreases |s|
  {
    if |s| > 0 {
      var rest := DeleteMany(s[1..], p);
      DeleteManyKeepsDistinct(s[1..], p, key);
      if !p(s[0]) {
        var r := [s[0]] + rest;
        assert DeleteMany(s, p) == r;
        forall i, j | 0 <= i < j < |r|
          ensures key(r[i]) != key(r[j])
        {
          if i == 0 {
            assert r[j] == rest[j - 1];
            assert rest[j - 1] in s[1..];
            var m :| 0 <= m < |s[1..]| && s[1..][m] == rest[j - 1];
            assert s[m + 1] == r[j];
          } else {
            assert r[i] == rest[i - 1] && r[j] == rest[j - 1];
          }
        }
      }
    }
  }

  /** `delete_many` keeps the relative order of what it keeps: it distributes over concatenation. */
  lemma {:induction false} DeleteManyAppend<T>(a: seq<T>, b: seq<T>, p: T -> bool)
    ensures DeleteMany(a + b, p) == DeleteMany(a, p) + DeleteMany(b, p)
    decreases |a|
  {
    if |a| == 0 {
      assert a + b == b;
    } else {
      assert (a + b)[0] == a[0];
      assert (a + b)[1..] == a[1..] + b;
      DeleteManyAppend(a[1..], b, p);
    }
  }

  /** `delete_many` with a filter nothing matches changes nothing. */
  lemma {:induction false} DeleteManyNoMatch<T>(s: seq<T>, p: T -> bool)
    requires forall j :: 0 <= j < |s| ==> !p(s[j])
    ensures DeleteMany(s, p) == s
    decreases |s|
  {
    if |s| > 0 {
      DeleteManyNoMatch(s[1..], p);
      assert s == [s[0]] + s[1..];
    }
  }

  /** `update_one(filter, update)`: rewrites the first matching document only. */
  function UpdateOne<T>(s: seq<T>, p: T -> bool, f: T -> T): (r: seq<T>)
    ensures |r| == |s|
    ensures FirstIndex(s, p).None? ==> r == s
    ensures FirstIndex(s, p).Some? ==>
              var k := FirstIndex(s, p).value;
              r[k] == f(s[k]) && forall i :: 0 <= i < |s| && i != k ==> r[i] == s[i]
  {
    match FirstIndex(s, p)
    case None => s
    case Some(k) => s[k := f(s[k])]
  }

  /** `update_many(filter, update)`: rewrites every matching document, in place. */
  function UpdateMany<T>(s: seq<T>, p: T -> bool, f: T -> T): (r: seq<T>)
    ensures |r| == |s|
    ensures forall i :: 0 <= i < |s| ==> r[i] == if p(s[i]) then f(s[i]) else s[i]
    decreases |s|
  {
    if |s| == 0 then []
    else [if p(s[0]) then f(s[0]) else s[0]] + UpdateMany(s[1..], p, f)
  }
}
