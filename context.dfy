/** The value store of a pipeline run (pipeline/context.go): a map from a type to the
    append-only sequence of values of that type, plus the ordered list of initial inputs. */
module Context {
  import opened Errors

  /** A runtime type, identified by its name. */
  type Tag = string

  /** What a value carries besides its type; the engine never looks inside it. */
  type Payload(==)

  /** A dynamically typed value: its runtime type and its contents. */
  datatype Value = Value(tag: Tag, payload: Payload)

  function Min(a: int, b: int): int {
    if a <= b then a else b
  }

  /** The values stored under type `t`; a type that was never stored reads as empty,
      as a missing key of a Go map does. */
  function Bucket(values: map<Tag, seq<Value>>, t: Tag): seq<Value> {
    if t in values then values[t] else []
  }

  /** The values of `vs` whose type is `t`, in their order in `vs`. */
  function OfTag(vs: seq<Value>, t: Tag): (r: seq<Value>)
    ensures |r| <= |vs|
    ensures forall k :: 0 <= k < |r| ==> r[k].tag == t
  {
    if vs == [] then []
    else OfTag(vs[..|vs| - 1], t) + (if vs[|vs| - 1].tag == t then [vs[|vs| - 1]] else [])
  }

  /** The store after appending `v` to the bucket of its own type. */
  function Stored(values: map<Tag, seq<Value>>, v: Value): map<Tag, seq<Value>> {
    values[v.tag := Bucket(values, v.tag) + [v]]
  }

  /** The store after appending every value of `vs`, one at a time and in order. */
  function StoredAll(values: map<Tag, seq<Value>>, vs: seq<Value>): map<Tag, seq<Value>> {
    if vs == [] then values else Stored(StoredAll(values, vs[..|vs| - 1]), vs[|vs| - 1])
  }

  /** Every bucket is non-empty and holds only values of its own type. */
  ghost predicate WellFormed(values: map<Tag, seq<Value>>) {
    forall t :: t in values ==> |values[t]| > 0 && forall v :: v in values[t] ==> v.tag == t
  }

  /** Appending is all the store ever does to a bucket: the old bucket is kept as a prefix,
      and exactly the added values of that type follow it, in the order they were added. */
  lemma {:induction false} StoredAllBucket(values: map<Tag, seq<Value>>, vs: seq<Value>, t: Tag)
    ensures Bucket(StoredAll(values, vs), t) == Bucket(values, t) + OfTag(vs, t)
  {
    if vs != [] {
      var init, v := vs[..|vs| - 1], vs[|vs| - 1];
      var before := StoredAll(values, init);
      StoredAllBucket(values, init, t);
      StoredBucket(before, v, t);
      assert OfTag(vs, t) == OfTag(init, t) + (if v.tag == t then [v] else []);
    }
  }

  /** Storing one value extends its own bucket by it and leaves every other bucket alone. */
  lemma StoredBucket(values: map<Tag, seq<Value>>, v: Value, t: Tag)
    ensures Bucket(Stored(values, v), t) == Bucket(values, t) + (if v.tag == t then [v] else [])
  {
  }

  /** A value of `vs` of type `t` lands in the bucket of `t`. */
  lemma {:induction false} OfTagHas(vs: seq<Value>, k: int)
    requires 0 <= k < |vs|
    ensures vs[k] in OfTag(vs, vs[k].tag)
  {
    if k < |vs| - 1 {
      OfTagHas(vs[..|vs| - 1], k);
    }
  }

  /** Appending keeps every bucket non-empty and homogeneous. */
  lemma {:induction false} StoredAllWellFormed(values: map<Tag, seq<Value>>, vs: seq<Value>)
    requires WellFormed(values)
    ensures WellFormed(StoredAll(values, vs))
  {
    if vs != [] {
      StoredAllWellFormed(values, vs[..|vs| - 1]);
    }
  }

  /** getValueByIndex: the value at `index` in the bucket of `t`, clamped to the last one. */
  function ValueByIndex(values: map<Tag, seq<Value>>, t: Tag, index: int): (r: Result<Value>)
    ensures r.Err? <==> |Bucket(values, t)| == 0 || index < 0
    ensures |Bucket(values, t)| == 0 ==> r == Err(NotFound)
    ensures |Bucket(values, t)| > 0 && index < 0 ==> r == Err(InvalidIndex)
    ensures 0 <= index < |Bucket(values, t)| ==> r == Ok(Bucket(values, t)[index])
    ensures 0 < |Bucket(values, t)| <= index ==> r == Ok(Bucket(values, t)[|Bucket(values, t)| - 1])
  {
    if t !in values || |values[t]| == 0 then Err(NotFound)
    else if index < 0 then Err(InvalidIndex)
    else Ok(values[t][Min(index, |values[t]| - 1)])
  }

  /** An index that was in range keeps designating the same value however much is stored later. */
  lemma ValueByIndexStable(values: map<Tag, seq<Value>>, vs: seq<Value>, t: Tag, index: int)
    requires 0 <= index < |Bucket(values, t)|
    ensures ValueByIndex(StoredAll(values, vs), t, index) == ValueByIndex(values, t, index)
  {
    StoredAllBucket(values, vs, t);
  }

  /** A lookup in a well-formed store yields a value of the requested type. */
  lemma ValueByIndexTyped(values: map<Tag, seq<Value>>, t: Tag, index: int)
    requires WellFormed(values)
    requires ValueByIndex(values, t, index).Ok?
    ensures ValueByIndex(values, t, index).value.tag == t
  {
    var r := ValueByIndex(values, t, index);
    assert r.value in values[t];
  }

  class ExecutionContext {
    var values: map<Tag, seq<Value>>
    var initialValues: seq<Value>

    /** Buckets are non-empty and homogeneous, and every initial input sits in its bucket. */
    ghost predicate Valid()
      reads this
    {
      && WellFormed(values)
      && forall k :: 0 <= k < |initialValues| ==> initialValues[k] in Bucket(values, initialValues[k].tag)
    }

    /** The initial inputs, in the order they were added; each of them is also stored in
        the bucket of its type. */
    function InitialValues(): (r: seq<Value>)
      reads this
      ensures r == initialValues
      ensures Valid() ==> forall k :: 0 <= k < |r| ==> r[k] in Bucket(values, r[k].tag)
    {
      initialValues
    }

    /** NewExecutionContext: no buckets and no initial inputs. */
    constructor ()
      ensures Valid()
      ensures values == map[] && initialValues == []
    {
      values := map[];
      initialValues := [];
    }

    /** Appends each input to its type's bucket and to the initial inputs, in call order. */
    method AddInputs(inputs: seq<Value>)
      requires Valid()
      modifies this
      ensures Valid()
      ensures values == StoredAll(old(values), inputs)
      ensures initialValues == old(initialValues) + inputs
    {
      for i := 0 to |inputs|
        invariant values == StoredAll(old(values), inputs[..i])
        invariant initialValues == old(initialValues) + inputs[..i]
      {
        assert inputs[..i + 1][..i] == inputs[..i];
        var v := inputs[i];
        values := values[v.tag := Bucket(values, v.tag) + [v]];
        initialValues := initialValues + [v];
      }
      assert inputs[..|inputs|] == inputs;
      StoredAllWellFormed(old(values), inputs);
      forall k | 0 <= k < |initialValues|
        ensures initialValues[k] in Bucket(values, initialValues[k].tag)
      {
        var v := initialValues[k];
        StoredAllBucket(old(values), inputs, v.tag);
        if k >= |old(initialValues)| {
          OfTagHas(inputs, k - |old(initialValues)|);
        }
      }
    }

    /** Appends each result to its type's bucket only; the initial inputs are untouched. */
    method StoreResults(results: seq<Value>)
      requires Valid()
      modifies this
      ensures Valid()
      ensures values == StoredAll(old(values), results)
      ensures initialValues == old(initialValues)
    {
      for i := 0 to |results|
        invariant Valid()
        invariant values == StoredAll(old(values), results[..i])
        invariant initialValues == old(initialValues)
      {
        assert results[..i + 1][..i] == results[..i];
        StoreValue(results[i]);
      }
      assert results[..|results|] == results;
    }

    /** storeValue: appends one value to the bucket of its type. */
    method StoreValue(v: Value)
      requires Valid()
      modifies this
      ensures Valid()
      ensures values == Stored(old(values), v)
      ensures initialValues == old(initialValues)
    {
      values := values[v.tag := Bucket(values, v.tag) + [v]];
      assert forall k :: 0 <= k < |initialValues| ==>
        Bucket(old(values), initialValues[k].tag) <= Bucket(values, initialValues[k].tag);
    }
  }
}
