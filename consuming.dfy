/**
 * Reading records one after the other: into a set, where the first failure aborts the load
 * (Collect), or to a consumer, which has already been handed every record before the
 * failing one (Consume).
 */
module Consuming {
  import opened Wrappers

  /** All of the results' values in order, or the first failure. */
  function Collect<T>(results: seq<Result<T>>): (r: Result<seq<T>>)
    ensures r.Ok? <==> forall k :: 0 <= k < |results| ==> results[k].Ok?
    ensures r.Ok? ==> |r.value| == |results| && forall k :: 0 <= k < |results| ==> results[k] == Ok(r.value[k])
    decreases |results|
  {
    if |results| == 0 then Ok([])
    else
      var v :- results[0];
      var rest :- Collect(results[1..]);
      Ok([v] + rest)
  }

  /** When every result is a value, Collect is the sequence of them. */
  lemma CollectOk<T>(results: seq<Result<T>>, values: seq<T>)
    requires |values| == |results| && forall k :: 0 <= k < |results| ==> results[k] == Ok(values[k])
    ensures Collect(results) == Ok(values)
  {
    assert Collect(results).value == values;
  }

  /** The first failing result decides Collect. */
  lemma {:induction false} CollectFirstError<T>(results: seq<Result<T>>, j: nat)
    requires j < |results|
    requires forall k :: 0 <= k < j ==> results[k].Ok?
    requires results[j].Err?
    ensures Collect(results) == Err(results[j].error)
    decreases j
  {
    if j > 0 {
      CollectFirstError(results[1..], j - 1);
    }
  }

  /** What a consumer is handed: the values in order up to the first failure, and how it ended. */
  function Consume<T>(results: seq<Result<T>>): (r: (seq<T>, Outcome))
    ensures |r.0| <= |results|
    decreases |results|
  {
    if |results| == 0 then ([], Pass)
    else match results[0]
      case Err(e) => ([], Fail(e))
      case Ok(v) => var rest := Consume(results[1..]); ([v] + rest.0, rest.1)
  }

  /** Every result a value: the consumer is handed all of them and the load completes. */
  lemma {:induction false} ConsumeAll<T>(results: seq<Result<T>>, values: seq<T>)
    requires |values| == |results| && forall k :: 0 <= k < |results| ==> results[k] == Ok(values[k])
    ensures Consume(results) == (values, Pass)
    decreases |results|
  {
    if |results| > 0 {
      ConsumeAll(results[1..], values[1..]);
      assert [values[0]] + values[1..] == values;
    }
  }

  /** Result i the first failure: the consumer is handed the values before it, then the load fails with its error. */
  lemma {:induction false} ConsumeUntil<T>(results: seq<Result<T>>, values: seq<T>, i: nat)
    requires i < |results| && |values| == i && results[i].Err?
    requires forall k :: 0 <= k < i ==> results[k] == Ok(values[k])
    ensures Consume(results) == (values, Fail(results[i].error))
    decreases i
  {
    if i > 0 {
      ConsumeUntil(results[1..], values[1..], i - 1);
      assert [values[0]] + values[1..] == values;
    }
  }

  /**
   * The consumer is handed exactly the values Collect gives when every result is a value;
   * otherwise it has been handed the values before the first failure, and the failure is
   * Collect's.
   */
  lemma {:induction false} ConsumeIsCollect<T>(results: seq<Result<T>>)
    ensures var c := Consume(results);
            (c.1.Pass? <==> Collect(results).Ok?) &&
            (c.1.Pass? ==> Collect(results) == Ok(c.0)) &&
            (c.1.Fail? ==> Collect(results) == Err(c.1.error) && |c.0| < |results| &&
                           results[|c.0|] == Err(c.1.error) &&
                           forall k :: 0 <= k < |c.0| ==> results[k] == Ok(c.0[k]))
    decreases |results|
  {
    if |results| > 0 && results[0].Ok? {
      var rest := results[1..];
      ConsumeIsCollect(rest);
      var c := Consume(rest);
      if c.1.Fail? {
        forall k | 0 <= k < |c.0| + 1
          ensures results[k] == Ok(Consume(results).0[k])
        {
          if k > 0 {
            assert results[k] == rest[k - 1];
          }
        }
      }
    }
  }
}
