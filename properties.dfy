/**
 * java.util.Properties as the configuration loaders read it: a key-to-value table, and the
 * keys matching a pattern enumerated in the natural (lexicographic) order of String.
 */
module PropertiesFiles {
  import opened Wrappers
  import opened OrderedMaps

  /** The entries of a loaded properties file; a key appears at most once. */
  type Properties = OMap<string>

  /** getProperty(key): the value stored under key, None (null) when the key is absent. */
  function GetProperty(p: Properties, key: string): (r: Option<string>)
    ensures r.Some? <==> HasKey(p, key)
    ensures r.Some? ==> (key, r.value) in p
    ensures DistinctKeys(p) ==> forall v :: (key, v) in p ==> r == Some(v)
  {
    Get(p, key)
  }

  /** getProperty(key, defaultValue). */
  function GetPropertyOr(p: Properties, key: string, default: Option<string>): (r: Option<string>)
    ensures HasKey(p, key) ==> r == Get(p, key)
    ensures !HasKey(p, key) ==> r == default
  {
    match Get(p, key)
    case Some(v) => Some(v)
    case None => default
  }

  /** String.compareTo(a, b) < 0: the first differing character decides, a proper prefix comes first. */
  predicate StrLt(a: string, b: string)
    decreases |a|
  {
    if |a| == 0 then |b| > 0
    else |b| > 0 && (a[0] < b[0] || (a[0] == b[0] && StrLt(a[1..], b[1..])))
  }

  predicate StrLe(a: string, b: string) { a == b || StrLt(a, b) }

  lemma {:induction false} StrLtIrreflexive(a: string)
    ensures !StrLt(a, a)
    decreases |a|
  {
    if |a| > 0 {
      StrLtIrreflexive(a[1..]);
    }
  }

  lemma {:induction false} StrLtTotal(a: string, b: string)
    ensures a == b || StrLt(a, b) || StrLt(b, a)
    decreases |a|
  {
    if |a| > 0 && |b| > 0 && a[0] == b[0] {
      StrLtTotal(a[1..], b[1..]);
      if a[1..] == b[1..] {
        assert a == [a[0]] + a[1..] && b == [b[0]] + b[1..];
      }
    }
  }

  lemma {:induction false} StrLtTransitive(a: string, b: string, c: string)
    requires StrLt(a, b) && StrLt(b, c)
    ensures StrLt(a, c)
    decreases |a|
  {
    if |a| > 0 && a[0] == b[0] && b[0] == c[0] {
      StrLtTransitive(a[1..], b[1..], c[1..]);
    }
  }

  lemma StrLeTransitive(a: string, b: string, c: string)
    requires StrLe(a, b) && StrLe(b, c)
    ensures StrLe(a, c)
  {
    if a != b && b != c {
      StrLtTransitive(a, b, c);
    }
  }

  predicate SortedByKey(s: seq<(string, string)>) {
    forall i, j :: 0 <= i < j < |s| ==> StrLe(s[i].0, s[j].0)
  }

  function Insert(e: (string, string), s: seq<(string, string)>): (r: seq<(string, string)>)
    ensures multiset(r) == multiset(s) + multiset{e}
    ensures |r| == |s| + 1
  {
    if |s| == 0 then [e]
    else if StrLe(e.0, s[0].0) then [e] + s
    else
      assert s == [s[0]] + s[1..];
      [s[0]] + Insert(e, s[1..])
  }

  lemma {:induction false} InsertSorted(e: (string, string), s: seq<(string, string)>)
    requires SortedByKey(s)
    ensures SortedByKey(Insert(e, s))
    ensures forall x :: x in Insert(e, s) ==> x == e || x in s
    decreases |s|
  {
    if |s| > 0 && !StrLe(e.0, s[0].0) {
      InsertSorted(e, s[1..]);
      StrLtTotal(e.0, s[0].0);
      SortedBehindHead(e, s, Insert(e, s[1..]));
    } else if |s| > 0 {
      SortedInFront(e, s);
    }
  }

  /** An entry past the head inserted into the tail keeps the order behind the head. */
  lemma SortedBehindHead(e: (string, string), s: seq<(string, string)>, t: seq<(string, string)>)
    requires |s| > 0 && SortedByKey(s) && SortedByKey(t) && StrLe(s[0].0, e.0)
    requires forall x :: x in t ==> x == e || x in s[1..]
    ensures SortedByKey([s[0]] + t)
    ensures forall x :: x in [s[0]] + t ==> x == e || x in s
  {
    var r := [s[0]] + t;
    forall i, j | 0 <= i < j < |r|
      ensures StrLe(r[i].0, r[j].0)
    {
      if i == 0 {
        var x := t[j - 1];
        assert x in t;
        if x != e {
          var k :| 0 <= k < |s[1..]| && s[1..][k] == x;
          assert StrLe(s[0].0, s[k + 1].0);
        }
      } else {
        assert r[i] == t[i - 1] && r[j] == t[j - 1];
      }
    }
  }

  /** An entry not past the head goes in front of a sorted sequence and keeps it sorted. */
  lemma SortedInFront(e: (string, string), s: seq<(string, string)>)
    requires |s| > 0 && SortedByKey(s) && StrLe(e.0, s[0].0)
    ensures SortedByKey([e] + s)
  {
    var r := [e] + s;
    forall i, j | 0 <= i < j < |r|
      ensures StrLe(r[i].0, r[j].0)
    {
      if i == 0 {
        StrLeTransitive(e.0, s[0].0, s[j - 1].0);
      } else {
        assert r[i] == s[i - 1] && r[j] == s[j - 1];
      }
    }
  }

  /** The entries in ascending key order (the stream's sorted()). */
  function SortByKey(s: seq<(string, string)>): (r: seq<(string, string)>)
    ensures multiset(r) == multiset(s)
  {
    if |s| == 0 then []
    else
      assert s == [s[0]] + s[1..];
      Insert(s[0], SortByKey(s[1..]))
  }

  /** sorted() yields the same entries, rearranged into ascending key order. */
  lemma {:induction false} SortByKeySorted(s: seq<(string, string)>)
    ensures SortedByKey(SortByKey(s))
    ensures multiset(SortByKey(s)) == multiset(s)
    decreases |s|
  {
    if |s| > 0 {
      SortByKeySorted(s[1..]);
      InsertSorted(s[0], SortByKey(s[1..]));
    }
  }

  function Matching(p: Properties, keyMatches: string -> bool): (r: seq<(string, string)>)
    ensures forall e :: e in r <==> e in p && keyMatches(e.0)
  {
    if |p| == 0 then []
    else if keyMatches(p[0].0) then [p[0]] + Matching(p[1..], keyMatches)
    else Matching(p[1..], keyMatches)
  }

  /** getValues(properties, keyPattern): the entries whose key matches, in ascending key order. */
  function GetValues(p: Properties, keyMatches: string -> bool): (r: seq<(string, string)>)
    ensures SortedByKey(r)
  {
    SortByKeySorted(Matching(p, keyMatches));
    SortByKey(Matching(p, keyMatches))
  }

  /** The entries getValues yields are exactly the matching entries, each once, in key order. */
  lemma GetValuesSpec(p: Properties, keyMatches: string -> bool)
    ensures SortedByKey(GetValues(p, keyMatches))
    ensures forall e :: e in GetValues(p, keyMatches) <==> e in p && keyMatches(e.0)
  {
    SortByKeySorted(Matching(p, keyMatches));
    var r := GetValues(p, keyMatches);
    forall e
      ensures e in r <==> e in Matching(p, keyMatches)
    {
      assert e in r <==> e in multiset(r);
    }
  }

  /** Keys are compared as text, not as numbers: "item10" sorts before "item2". */
  lemma TextualKeyOrder(a: string, b: string, keyMatches: string -> bool)
    requires keyMatches("item2") && keyMatches("item10")
    ensures GetValues([("item2", a), ("item10", b)], keyMatches) == [("item10", b), ("item2", a)]
  {
    assert StrLt("item10", "item2") by {
      assert "item10"[1..] == "tem10" && "item2"[1..] == "tem2";
      assert "tem10"[1..] == "em10" && "tem2"[1..] == "em2";
      assert "em10"[1..] == "m10" && "em2"[1..] == "m2";
      assert "m10"[1..] == "10" && "m2"[1..] == "2";
    }
    StrLtTotal("item2", "item10");
    assert !StrLt("item2", "item10") by {
      if StrLt("item2", "item10") {
        StrLtTransitive("item2", "item10", "item2");
        StrLtIrreflexive("item2");
      }
    }
    var p := [("item2", a), ("item10", b)];
    assert p[1..] == [("item10", b)] && p[1..][1..] == [];
    assert Matching(p[1..][1..], keyMatches) == [];
    assert Matching(p[1..], keyMatches) == [("item10", b)];
    assert Matching(p, keyMatches) == [("item2", a)] + [("item10", b)];
    assert SortByKey(p[1..]) == [("item10", b)];
    assert Insert(("item2", a), [("item10", b)]) == [("item10", b)] + Insert(("item2", a), []);
  }
}
