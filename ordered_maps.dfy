/**
 * Insertion-ordered maps with string keys, as java.util.LinkedHashMap keeps them:
 * a sequence of entries with distinct keys. Putting an existing key replaces its
 * value in place; putting a new key appends it at the end.
 */
module OrderedMaps {
  import opened Wrappers

  type OMap<V> = seq<(string, V)>

  function Keys<V>(m: OMap<V>): (ks: seq<string>)
    ensures |ks| == |m|
    ensures forall i :: 0 <= i < |m| ==> ks[i] == m[i].0
  {
    if |m| == 0 then [] else [m[0].0] + Keys(m[1..])
  }

  predicate DistinctKeys<V>(m: OMap<V>) {
    forall i, j :: 0 <= i < j < |m| ==> m[i].0 != m[j].0
  }

  predicate HasKey<V>(m: OMap<V>, k: string) {
    exists i :: 0 <= i < |m| && m[i].0 == k
  }

  /** The position of the first entry with key k, or |m| when there is none. */
  function IndexOf<V>(m: OMap<V>, k: string): (i: nat)
    ensures i <= |m|
    ensures i < |m| ==> m[i].0 == k
    ensures forall j :: 0 <= j < i ==> m[j].0 != k
  {
    if |m| == 0 then 0 else if m[0].0 == k then 0 else 1 + IndexOf(m[1..], k)
  }

  /** get: the value stored under k, None when k is absent. */
  function Get<V>(m: OMap<V>, k: string): (r: Option<V>)
    ensures r.Some? <==> HasKey(m, k)
    ensures r.Some? ==> exists i :: 0 <= i < |m| && m[i] == (k, r.value)
  {
    var i := IndexOf(m, k);
    if i < |m| then Some(m[i].1) else None
  }

  /** put: replace the value of an existing key where it stands, or append a new entry. */
  function Put<V>(m: OMap<V>, k: string, v: V): (r: OMap<V>)
    ensures HasKey(m, k) ==> |r| == |m| && Keys(r) == Keys(m)
    ensures !HasKey(m, k) ==> r == m + [(k, v)]
    ensures DistinctKeys(m) ==> DistinctKeys(r)
    ensures Get(r, k) == Some(v)
    ensures forall k' :: k' != k ==> Get(r, k') == Get(m, k')
  {
    var i := IndexOf(m, k);
    var r := if i < |m| then m[i := (k, v)] else m + [(k, v)];
    GetAfterPut(m, k, v, r);
    PutShape(m, k, v, r);
    r
  }

  /** Every entry after a put is the new one or an entry that was there before. */
  lemma PutEntries<V>(m: OMap<V>, k: string, v: V)
    ensures forall i :: 0 <= i < |Put(m, k, v)| ==> Put(m, k, v)[i] == (k, v) || Put(m, k, v)[i] in m
  {
    var i := IndexOf(m, k);
    if i < |m| {
      assert Put(m, k, v) == m[i := (k, v)];
    }
  }

  lemma PutShape<V>(m: OMap<V>, k: string, v: V, r: OMap<V>)
    requires r == if IndexOf(m, k) < |m| then m[IndexOf(m, k) := (k, v)] else m + [(k, v)]
    ensures HasKey(m, k) ==> |r| == |m| && Keys(r) == Keys(m)
    ensures !HasKey(m, k) ==> r == m + [(k, v)]
    ensures DistinctKeys(m) ==> DistinctKeys(r)
  {
    var i := IndexOf(m, k);
    if i < |m| {
      assert HasKey(m, k);
      assert forall j :: 0 <= j < |m| ==> r[j].0 == m[j].0;
    } else {
      assert !HasKey(m, k);
    }
  }

  lemma GetAfterPut<V>(m: OMap<V>, k: string, v: V, r: OMap<V>)
    requires r == if IndexOf(m, k) < |m| then m[IndexOf(m, k) := (k, v)] else m + [(k, v)]
    ensures Get(r, k) == Some(v)
    ensures forall k' :: k' != k ==> Get(r, k') == Get(m, k')
  {
    var i := IndexOf(m, k);
    if i < |m| {
      KeysIndexOf(m, r);
    } else {
      forall k' | k' != k
        ensures Get(r, k') == Get(m, k')
      {
        IndexOfAppend(m, k, v, k');
      }
      IndexOfAppend(m, k, v, k);
    }
    if i < |m| {
      IndexOfUpdate(m, i, k, v);
    }
  }

  lemma {:induction false} IndexOfUpdate<V>(m: OMap<V>, i: nat, k: string, v: V)
    requires i == IndexOf(m, k) < |m|
    ensures IndexOf(m[i := (k, v)], k) == i
    decreases |m|
  {
    if i > 0 {
      assert m[i := (k, v)][1..] == m[1..][i - 1 := (k, v)];
      IndexOfUpdate(m[1..], i - 1, k, v);
    }
  }

  lemma {:induction false} KeysIndexOf<V>(a: OMap<V>, b: OMap<V>)
    requires |a| == |b| && forall i :: 0 <= i < |a| ==> a[i].0 == b[i].0
    ensures forall k :: IndexOf(a, k) == IndexOf(b, k)
    decreases |a|
  {
    if |a| > 0 {
      KeysIndexOf(a[1..], b[1..]);
    }
  }

  lemma {:induction false} IndexOfAppend<V>(m: OMap<V>, k: string, v: V, k': string)
    requires IndexOf(m, k) == |m|
    ensures IndexOf(m + [(k, v)], k') == (if IndexOf(m, k') < |m| || k' == k then IndexOf(m, k') else |m| + 1)
    decreases |m|
  {
    if |m| > 0 {
      assert (m + [(k, v)])[1..] == m[1..] + [(k, v)];
      IndexOfAppend(m[1..], k, v, k');
    }
  }

  /** The entries whose values satisfy p removed, the others kept in order (removeIf on the entry set). */
  function RemoveIf<V>(m: OMap<V>, p: V -> bool): (r: OMap<V>)
    ensures |r| <= |m|
    ensures forall i :: 0 <= i < |r| ==> r[i] in m && !p(r[i].1)
    ensures forall i :: 0 <= i < |m| && !p(m[i].1) ==> m[i] in r
    ensures DistinctKeys(m) ==> DistinctKeys(r)
  {
    if |m| == 0 then []
    else if p(m[0].1) then RemoveIf(m[1..], p)
    else [m[0]] + RemoveIf(m[1..], p)
  }

  /** removeIf keeps the surviving entries in their order: it distributes over concatenation. */
  lemma {:induction false} RemoveIfAppend<V>(a: OMap<V>, b: OMap<V>, p: V -> bool)
    ensures RemoveIf(a + b, p) == RemoveIf(a, p) + RemoveIf(b, p)
    decreases |a|
  {
    if |a| > 0 {
      assert (a + b)[0] == a[0] && (a + b)[1..] == a[1..] + b;
      RemoveIfAppend(a[1..], b, p);
      if !p(a[0].1) {
        assert RemoveIf(a + b, p) == [a[0]] + (RemoveIf(a[1..], p) + RemoveIf(b, p));
      }
    } else {
      assert a + b == b;
    }
  }

  /** After removeIf, a key keeps its value exactly when that value does not satisfy p. */
  lemma {:induction false} GetRemoveIf<V>(m: OMap<V>, p: V -> bool, k: string)
    requires DistinctKeys(m)
    ensures Get(RemoveIf(m, p), k) == if Get(m, k).Some? && !p(Get(m, k).value) then Get(m, k) else None
    decreases |m|
  {
    if |m| > 0 {
      var t := m[1..];
      assert DistinctKeys(t);
      GetRemoveIf(t, p, k);
      var r := RemoveIf(t, p);
      if m[0].0 == k {
        assert !HasKey(t, k);
        if !p(m[0].1) {
          assert ([m[0]] + r)[0] == m[0];
        }
      } else {
        assert Get(m, k) == Get(t, k) by {
          assert m[1..] == t;
        }
        if !p(m[0].1) {
          assert ([m[0]] + r)[1..] == r;
        }
      }
    }
  }

  /** Every value passed through f, keys and order kept. */
  function MapValues<V, W>(m: OMap<V>, f: V -> W): (r: OMap<W>)
    ensures |r| == |m|
    ensures forall i :: 0 <= i < |m| ==> r[i] == (m[i].0, f(m[i].1))
  {
    if |m| == 0 then [] else [(m[0].0, f(m[0].1))] + MapValues(m[1..], f)
  }

  /** Mapping the values commutes with put, so a projection of a map can follow its puts. */
  lemma MapValuesPut<V, W>(m: OMap<V>, k: string, v: V, f: V -> W)
    ensures MapValues(Put(m, k, v), f) == Put(MapValues(m, f), k, f(v))
  {
    var mf := MapValues(m, f);
    IndexOfMapValues(m, k, f);
    var i := IndexOf(m, k);
    if i < |m| {
      assert MapValues(m[i := (k, v)], f) == mf[i := (k, f(v))];
    } else {
      assert MapValues(m + [(k, v)], f) == mf + [(k, f(v))];
    }
  }

  lemma {:induction false} IndexOfMapValues<V, W>(m: OMap<V>, k: string, f: V -> W)
    ensures IndexOf(MapValues(m, f), k) == IndexOf(m, k)
    decreases |m|
  {
    if |m| > 0 {
      assert MapValues(m, f)[1..] == MapValues(m[1..], f);
      IndexOfMapValues(m[1..], k, f);
    }
  }
}
