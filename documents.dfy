/** Documents as the tenant stores hold them: string-keyed maps of BSON-like values,
    with the store-local identifier under the key `_id`. */
module Documents {

  /** A document-store ObjectId, abstracted to a number drawn from a counter. */
  type ObjectId = nat

  /** A stored field value; `Double` stands for a floating-point number by its exact value. */
  datatype Value =
    | Null
    | Bool(b: bool)
    | Int(i: int)
    | Double(r: real)
    | Str(s: string)
    | Oid(id: ObjectId)
    | Date(stamp: int)
    | Arr(items: seq<Value>)
    | Obj(fields: map<string, Value>)

  type Doc = map<string, Value>

  /** The key under which the store keeps each document's identifier. */
  const IdKey: string := "_id"

  /** The document with its store-local identifier removed (`d.pop("_id")`). */
  function Strip(d: Doc): (r: Doc)
    ensures IdKey !in r
    ensures forall k :: k in r <==> k in d && k != IdKey
    ensures forall k :: k in r ==> r[k] == d[k]
  {
    d - {IdKey}
  }

  /** The document as the store keeps it after an insert: one without `_id` is given `id`. */
  function WithId(d: Doc, id: ObjectId): (r: Doc)
    ensures IdKey in r
    ensures Strip(r) == Strip(d)
    ensures IdKey in d ==> r == d
    ensures IdKey !in d ==> r[IdKey] == Oid(id)
  {
    if IdKey in d then d else d[IdKey := Oid(id)]
  }

  /** Every document of `docs` stripped of `_id`, in order. */
  function StripAll(docs: seq<Doc>): (r: seq<Doc>)
    ensures |r| == |docs|
    ensures forall i :: 0 <= i < |docs| ==> r[i] == Strip(docs[i])
    decreases |docs|
  {
    if |docs| == 0 then [] else [Strip(docs[0])] + StripAll(docs[1..])
  }

  /** The documents as stored by one insert of `docs`, identifiers drawn from `start` upwards. */
  function AssignIds(docs: seq<Doc>, start: ObjectId): (r: seq<Doc>)
    ensures |r| == |docs|
    ensures forall i :: 0 <= i < |docs| ==> r[i] == WithId(docs[i], start + i)
    decreases |docs|
  {
    if |docs| == 0 then [] else [WithId(docs[0], start)] + AssignIds(docs[1..], start + 1)
  }

  /** The batches passed to successive bulk inserts, joined in order. */
  function Flatten(batches: seq<seq<Doc>>): seq<Doc>
    decreases |batches|
  {
    if |batches| == 0 then []
    else
      var last := |batches| - 1;
      Flatten(batches[..last]) + batches[last]
  }

  /** A document without `_id` is its own stripped form. */
  lemma StripAbsent(d: Doc)
    requires IdKey !in d
    ensures Strip(d) == d
  {
    assert Strip(d).Keys == d.Keys;
  }

  /** Stripping a list one more element at a time: when the documents written so far and
      the pending ones are the stripped prefix, adding the next stripped document keeps it so. */
  lemma CopyStep(docs: seq<Doc>, i: nat, written: seq<Doc>, pending: seq<Doc>, d: Doc)
    requires i < |docs|
    requires written + pending == StripAll(docs[..i])
    requires d == Strip(docs[i])
    ensures written + (pending + [d]) == StripAll(docs[..i + 1])
  {
    assert docs[..i + 1] == docs[..i] + [docs[i]];
    StripAllAppend(docs[..i], [docs[i]]);
    assert written + (pending + [d]) == (written + pending) + [d];
  }

  /** One more batch extends the joined list by that batch. */
  lemma FlattenSnoc(batches: seq<seq<Doc>>, batch: seq<Doc>)
    ensures Flatten(batches + [batch]) == Flatten(batches) + batch
  {
    assert (batches + [batch])[..|batches|] == batches;
  }

  /** Identifiers assigned on insert vanish again when the documents are stripped. */
  lemma {:induction false} StripAllAssignIds(docs: seq<Doc>, start: ObjectId)
    ensures StripAll(AssignIds(docs, start)) == StripAll(docs)
  {
    var a := AssignIds(docs, start);
    forall i | 0 <= i < |docs|
      ensures StripAll(a)[i] == StripAll(docs)[i]
    {
      assert a[i] == WithId(docs[i], start + i);
    }
  }

  /** Stripping a stripped document changes nothing. */
  lemma StripIdempotent(d: Doc)
    ensures Strip(Strip(d)) == Strip(d)
  {
    var a, b := Strip(Strip(d)), Strip(d);
    assert a.Keys == b.Keys;
    assert forall k :: k in a ==> a[k] == b[k];
  }

  /** Stripping a stripped list changes nothing. */
  lemma StripAllIdempotent(docs: seq<Doc>)
    ensures StripAll(StripAll(docs)) == StripAll(docs)
  {
    var a, b := StripAll(StripAll(docs)), StripAll(docs);
    forall i | 0 <= i < |docs|
      ensures a[i] == b[i]
    {
      StripIdempotent(docs[i]);
    }
  }

  /** Two inserts in a row assign the same identifiers as one insert of both lists. */
  lemma {:induction false} AssignIdsAppend(a: seq<Doc>, b: seq<Doc>, start: ObjectId)
    ensures AssignIds(a + b, start) == AssignIds(a, start) + AssignIds(b, start + |a|)
  {
    var lhs, rhs := AssignIds(a + b, start), AssignIds(a, start) + AssignIds(b, start + |a|);
    forall i | 0 <= i < |a + b|
      ensures lhs[i] == rhs[i]
    {
      if i < |a| {
        assert (a + b)[i] == a[i];
      } else {
        assert (a + b)[i] == b[i - |a|];
      }
    }
  }

  /** Stripping commutes with concatenation. */
  lemma {:induction false} StripAllAppend(a: seq<Doc>, b: seq<Doc>)
    ensures StripAll(a + b) == StripAll(a) + StripAll(b)
  {
    var lhs, rhs := StripAll(a + b), StripAll(a) + StripAll(b);
    forall i | 0 <= i < |a + b|
      ensures lhs[i] == rhs[i]
    {
      if i < |a| {
        assert (a + b)[i] == a[i];
      } else {
        assert (a + b)[i] == b[i - |a|];
      }
    }
  }
}
