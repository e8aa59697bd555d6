/**
 * The viewer's GUI settings: the most-recently-used file list, the saved search filters and
 * the boolean switches, read from and written back to a properties file.
 */
module GuiConfigurations {
  import opened Wrappers
  import opened OrderedMaps
  import opened JavaLang
  import opened PropertiesFiles

  /** The Booleans enum: the boolean settings. */
  datatype BooleanKey = ExtendedFilterEnabled

  /** Booleans.values(), in declaration order. */
  const BOOLEAN_KEYS: seq<BooleanKey> := [ExtendedFilterEnabled]

  /** The property name of a boolean setting (the enum constant's name). */
  function KeyName(key: BooleanKey): string {
    match key
    case ExtendedFilterEnabled => "extendedFilterEnabled"
  }

  lemma AllKeysListed(key: BooleanKey)
    ensures key in BOOLEAN_KEYS
  {
    match key
    case ExtendedFilterEnabled =>
  }

  /** The trimming loop of addRecentlyUsedFile starts at this index. */
  const RECENT_LIMIT := 15

  const RECENT_PREFIX := "recentlyUsedFiles"
  const FILTER_PREFIX := "filters"

  // ---------------------------------------------------------------- list operations

  /** The index of the first element equal to x, or |s| when there is none. */
  function FirstIndex(s: seq<string>, x: string): (i: nat)
    ensures i <= |s|
    ensures i < |s| ==> s[i] == x
    ensures x !in s[..i]
    ensures i == |s| <==> x !in s
  {
    if |s| == 0 then 0
    else if s[0] == x then 0
    else
      assert s[1..][..FirstIndex(s[1..], x)] == s[1..1 + FirstIndex(s[1..], x)];
      assert s[..1 + FirstIndex(s[1..], x)] == [s[0]] + s[1..][..FirstIndex(s[1..], x)];
      1 + FirstIndex(s[1..], x)
  }

  /** List.remove(Object): the first element equal to x taken out; the list as it was when there is none. */
  function RemoveFirst(s: seq<string>, x: string): (r: seq<string>)
    ensures x !in s ==> r == s
    ensures x in s ==> exists i :: 0 <= i < |s| && s[i] == x && x !in s[..i] && r == s[..i] + s[i + 1..]
  {
    var i := FirstIndex(s, x);
    if i < |s| then s[..i] + s[i + 1..] else s
  }

  /** removeIf(e -> e.equals(x)): every element equal to x taken out, the others kept in order. */
  function RemoveAll(s: seq<string>, x: string): (r: seq<string>)
    ensures x !in r
    ensures multiset(r) == multiset(s)[x := 0]
  {
    if |s| == 0 then []
    else
      var rest := RemoveAll(s[1..], x);
      assert s == [s[0]] + s[1..];
      if s[0] == x then rest else [s[0]] + rest
  }

  lemma {:induction false} RemoveAllAbsent(s: seq<string>, x: string)
    requires x !in s
    ensures RemoveAll(s, x) == s
  {
    if |s| > 0 {
      RemoveAllAbsent(s[1..], x);
      assert s == [s[0]] + s[1..];
    }
  }

  /** The recently-used list before trimming: path in front, its first earlier occurrence removed. */
  function MoveToFront(s: seq<string>, path: string): (r: seq<string>)
    ensures |r| >= 1 && r[0] == path
    ensures path in s ==> |r| == |s|
    ensures path !in s ==> r == [path] + s
  {
    [path] + RemoveFirst(s, path)
  }

  /**
   * The trimming loop as written: `for (i = start; i < size(); i++) remove(i)`. Each pass
   * removes one element and moves i on, so it skips every other element past start.
   */
  function TrimFrom(s: seq<string>, i: nat): (r: seq<string>)
    ensures |r| <= |s|
    ensures |s| <= i ==> r == s
    ensures i <= |s| ==> i <= |r| && r[..i] == s[..i]
    decreases |s| - i
  {
    if i < |s| then
      var rest := s[..i] + s[i + 1..];
      assert rest[..i] == s[..i];
      TrimFrom(rest, i + 1)
    else s
  }

  /**
   * What the trimming loop keeps: the first i elements, and in all half of what lies beyond
   * them (rounded down), so only a list at most one longer than i is cut to i.
   */
  lemma {:induction false} TrimFromShape(s: seq<string>, i: nat)
    ensures |s| <= i ==> TrimFrom(s, i) == s
    ensures i <= |s| ==> |TrimFrom(s, i)| == |s| - (|s| - i + 1) / 2 && TrimFrom(s, i)[..i] == s[..i]
    decreases |s| - i
  {
    if i < |s| {
      var s' := s[..i] + s[i + 1..];
      TrimFromShape(s', i + 1);
      if i + 1 <= |s'| {
        assert TrimFrom(s', i + 1)[..i] == TrimFrom(s', i + 1)[..i + 1][..i];
      }
      assert s'[..i] == s[..i];
    }
  }

  /** A list of at most RECENT_LIMIT + 1 entries is cut to its first RECENT_LIMIT. */
  lemma TrimShortList(s: seq<string>)
    requires |s| <= RECENT_LIMIT + 1
    ensures TrimFrom(s, RECENT_LIMIT) == s[..Min(|s|, RECENT_LIMIT)]
  {
    TrimFromShape(s, RECENT_LIMIT);
    if |s| == RECENT_LIMIT + 1 {
      assert TrimFrom(s, RECENT_LIMIT) == TrimFrom(s, RECENT_LIMIT)[..RECENT_LIMIT];
    }
  }

  /** The recently-used list after adding path, as the source computes it. */
  function RecentAfterAdd(s: seq<string>, path: string): (r: seq<string>)
    ensures 1 <= |r| <= |s| + 1 && r[0] == path
  {
    TrimFrom(MoveToFront(s, path), RECENT_LIMIT)
  }

  /**
   * Adding keeps a list of at most RECENT_LIMIT entries within RECENT_LIMIT: the result is path
   * followed by the list without path's first occurrence, cut to RECENT_LIMIT entries.
   */
  lemma AddKeepsRecentBound(s: seq<string>, path: string)
    requires |s| <= RECENT_LIMIT
    ensures var r := RecentAfterAdd(s, path);
            1 <= |r| <= RECENT_LIMIT && r[0] == path && r[1..] == RemoveFirst(s, path)[..|r| - 1]
  {
    var m := MoveToFront(s, path);
    TrimShortList(m);
    var r := RecentAfterAdd(s, path);
    assert r[1..] == m[1..][..|r| - 1];
  }

  /** Adding to a longer list does not cut it to RECENT_LIMIT: 17 entries and a new path make 16, not 15. */
  lemma LongListNotCut(s: seq<string>, path: string)
    requires |s| == RECENT_LIMIT + 2 && path !in s
    ensures |RecentAfterAdd(s, path)| == RECENT_LIMIT + 1
  {
    TrimFromShape(MoveToFront(s, path), RECENT_LIMIT);
  }

  /** Adding the same path twice in a row is adding it once (as long as the first add cut the list down). */
  lemma MoveToFrontTwice(s: seq<string>, path: string)
    ensures MoveToFront(MoveToFront(s, path), path) == MoveToFront(s, path)
  {
    var r := RemoveFirst(s, path);
    var m := [path] + r;
    assert FirstIndex(m, path) == 0;
    assert m[..0] + m[1..] == r;
  }

  /** The filter list after adding filter: the trimmed filter in front, every other copy of it gone. */
  function FiltersAfterAdd(s: seq<string>, filter: string): (r: seq<string>)
    ensures |r| > 0 && r[0] == Trim(filter) && Trim(filter) !in r[1..]
    ensures multiset(r[1..]) == multiset(s)[Trim(filter) := 0]
  {
    var t := Trim(filter);
    assert ([t] + RemoveAll(s, t))[1..] == RemoveAll(s, t);
    [t] + RemoveAll(s, t)
  }

  /** Adding a filter twice is adding it once. */
  lemma AddFilterTwice(s: seq<string>, filter: string)
    ensures FiltersAfterAdd(FiltersAfterAdd(s, filter), filter) == FiltersAfterAdd(s, filter)
  {
    var t := Trim(filter);
    TrimIdempotent(filter);
    var once := FiltersAfterAdd(s, filter);
    RemoveAllAbsent(RemoveAll(s, t), t);
    assert RemoveAll(once, t) == RemoveAll(once[1..], t) by {
      assert once == [once[0]] + once[1..];
    }
  }

  // ---------------------------------------------------------------- the properties file

  function Zeros(k: nat): (z: string)
    ensures |z| == k && AllDigits(z)
  {
    seq(k, _ => '0')
  }

  lemma {:induction false} ZerosValue(k: nat)
    ensures DecimalValue(Zeros(k)) == 0
  {
    if k > 0 {
      assert Zeros(k)[..k - 1] == Zeros(k - 1);
      ZerosValue(k - 1);
    }
  }

  lemma {:induction false} LeadingZeros(k: nat, d: string)
    requires AllDigits(d)
    ensures DecimalValue(Zeros(k) + d) == DecimalValue(d)
    decreases |d|
  {
    if |d| == 0 {
      assert Zeros(k) + d == Zeros(k);
      ZerosValue(k);
    } else {
      var z := Zeros(k) + d;
      assert z[..|z| - 1] == Zeros(k) + d[..|d| - 1];
      LeadingZeros(k, d[..|d| - 1]);
    }
  }

  /** String.format("%0<width>d", n): the decimal digits of n, zero-padded on the left to width. */
  function ZeroPad(n: nat, width: nat): (s: string)
    ensures AllDigits(s) && |s| >= width && DecimalValue(s) == n
  {
    var digits := NatToString(n);
    DecimalValueOfNatToString(n);
    if |digits| >= width then digits
    else
      LeadingZeros(width - |digits|, digits);
      Zeros(width - |digits|) + digits
  }

  /** The key of the i-th recently-used file: "recentlyUsedFiles%02d". */
  function RecentKey(i: nat): (k: string)
    ensures |k| >= |RECENT_PREFIX| + 2 && k[..|RECENT_PREFIX|] == RECENT_PREFIX
    ensures AllDigits(k[|RECENT_PREFIX|..]) && DecimalValue(k[|RECENT_PREFIX|..]) == i
  {
    RECENT_PREFIX + ZeroPad(i, 2)
  }

  /** The key of the i-th saved filter: "filters%04d". */
  function FilterKey(i: nat): (k: string)
    ensures |k| >= |FILTER_PREFIX| + 4 && k[..|FILTER_PREFIX|] == FILTER_PREFIX
    ensures AllDigits(k[|FILTER_PREFIX|..]) && DecimalValue(k[|FILTER_PREFIX|..]) == i
  {
    FILTER_PREFIX + ZeroPad(i, 4)
  }

  /** A key matching pattern `prefix\d+` as a whole. */
  predicate KeyMatches(prefix: string, key: string) {
    |key| > |prefix| && key[..|prefix|] == prefix && AllDigits(key[|prefix|..])
  }

  predicate IsRecentKey(key: string) { KeyMatches(RECENT_PREFIX, key) }

  predicate IsFilterKey(key: string) { KeyMatches(FILTER_PREFIX, key) }

  /** The keys save writes are the keys loading looks for, and of no other kind. */
  lemma SavedKeysMatch(i: nat)
    ensures IsRecentKey(RecentKey(i)) && !IsFilterKey(RecentKey(i))
    ensures IsFilterKey(FilterKey(i)) && !IsRecentKey(FilterKey(i))
    ensures forall key :: key in BOOLEAN_KEYS ==> !IsRecentKey(KeyName(key)) && !IsFilterKey(KeyName(key))
  {
    assert RecentKey(i)[..|RECENT_PREFIX|] == RECENT_PREFIX && RecentKey(i)[|RECENT_PREFIX|..] == ZeroPad(i, 2);
    assert FilterKey(i)[..|FILTER_PREFIX|] == FILTER_PREFIX && FilterKey(i)[|FILTER_PREFIX|..] == ZeroPad(i, 4);
    assert RecentKey(i)[0] == 'r' && FilterKey(i)[0] == 'f';
  }

  /** Keys of the three kinds differ in their first character. */
  lemma FamiliesDiffer(i: nat, j: nat)
    ensures RecentKey(i) != FilterKey(j)
    ensures RecentKey(i) != KeyName(ExtendedFilterEnabled) && FilterKey(j) != KeyName(ExtendedFilterEnabled)
  {
    assert RecentKey(i)[0] == 'r' && FilterKey(j)[0] == 'f';
  }

  /** Different positions get different keys. */
  lemma KeysDistinct(i: nat, j: nat)
    requires i != j
    ensures RecentKey(i) != RecentKey(j) && FilterKey(i) != FilterKey(j)
    ensures RecentKey(i) != FilterKey(j)
  {
    assert RecentKey(i)[|RECENT_PREFIX|..] == ZeroPad(i, 2) && RecentKey(j)[|RECENT_PREFIX|..] == ZeroPad(j, 2);
    assert FilterKey(i)[|FILTER_PREFIX|..] == ZeroPad(i, 4) && FilterKey(j)[|FILTER_PREFIX|..] == ZeroPad(j, 4);
    assert RecentKey(i)[0] == 'r' && FilterKey(j)[0] == 'f';
  }

  /** Boolean.toString. */
  function BoolString(b: bool): string {
    if b then "true" else "false"
  }

  function LowerAscii(c: char): char {
    if 'A' <= c <= 'Z' then (c as int + 32) as char else c
  }

  /** Boolean.parseBoolean: true exactly for "true" in any letter case; null is false. */
  function ParseBoolean(s: Option<string>): (b: bool)
    ensures b <==> s.Some? && |s.value| == 4 && LowerAscii(s.value[0]) == 't' && LowerAscii(s.value[1]) == 'r' &&
                   LowerAscii(s.value[2]) == 'u' && LowerAscii(s.value[3]) == 'e'
  {
    match s
    case None => false
    case Some(text) => |text| == 4 && [LowerAscii(text[0]), LowerAscii(text[1]), LowerAscii(text[2]), LowerAscii(text[3])] == "true"
  }

  /** A boolean written by save reads back as itself. */
  lemma ParseBooleanOfBoolString(b: bool)
    ensures ParseBoolean(Some(BoolString(b))) == b
  {
  }

  /** booleansMap.getOrDefault(key, FALSE). */
  function Flag(booleans: map<BooleanKey, bool>, key: BooleanKey): bool {
    if key in booleans then booleans[key] else false
  }

  /** properties.setProperty for each entry in turn. */
  function PutAll(p: Properties, entries: seq<(string, string)>): (r: Properties)
    ensures DistinctKeys(p) ==> DistinctKeys(r)
    decreases |entries|
  {
    if |entries| == 0 then p
    else
      var last := entries[|entries| - 1];
      Put(PutAll(p, entries[..|entries| - 1]), last.0, last.1)
  }

  /** A key no entry writes keeps its value: stale keys are never deleted. */
  lemma {:induction false} PutAllKeeps(p: Properties, entries: seq<(string, string)>, key: string)
    requires forall j :: 0 <= j < |entries| ==> entries[j].0 != key
    ensures Get(PutAll(p, entries), key) == Get(p, key)
    decreases |entries|
  {
    if |entries| > 0 {
      var init := entries[..|entries| - 1];
      assert forall j :: 0 <= j < |init| ==> init[j] == entries[j];
      PutAllKeeps(p, init, key);
    }
  }

  /** Among entries with distinct keys, every entry is stored. */
  lemma {:induction false} PutAllStores(p: Properties, entries: seq<(string, string)>, j: nat)
    requires j < |entries|
    requires DistinctKeys(entries)
    ensures Get(PutAll(p, entries), entries[j].0) == Some(entries[j].1)
    decreases |entries|
  {
    var init := entries[..|entries| - 1];
    var last := entries[|entries| - 1];
    assert PutAll(p, entries) == Put(PutAll(p, init), last.0, last.1);
    if j < |entries| - 1 {
      assert Get(PutAll(p, init), entries[j].0) == Some(entries[j].1) by {
        assert DistinctKeys(init) by {
          assert forall a :: 0 <= a < |init| ==> init[a] == entries[a];
        }
        PutAllStores(p, init, j);
        assert init[j] == entries[j];
      }
      assert last.0 != entries[j].0;
    }
  }

  function RecentEntries(files: seq<string>): (es: seq<(string, string)>)
    ensures |es| == |files| && forall i :: 0 <= i < |files| ==> es[i] == (RecentKey(i), files[i])
  {
    seq(|files|, i requires 0 <= i < |files| => (RecentKey(i), files[i]))
  }

  function FilterEntries(filters: seq<string>): (es: seq<(string, string)>)
    ensures |es| == |filters| && forall i :: 0 <= i < |filters| ==> es[i] == (FilterKey(i), filters[i])
  {
    seq(|filters|, i requires 0 <= i < |filters| => (FilterKey(i), filters[i]))
  }

  function BooleanEntries(booleans: map<BooleanKey, bool>): (es: seq<(string, string)>)
    ensures |es| == |BOOLEAN_KEYS|
    ensures forall i :: 0 <= i < |BOOLEAN_KEYS| ==> es[i] == (KeyName(BOOLEAN_KEYS[i]), BoolString(Flag(booleans, BOOLEAN_KEYS[i])))
  {
    seq(|BOOLEAN_KEYS|, i requires 0 <= i < |BOOLEAN_KEYS| => (KeyName(BOOLEAN_KEYS[i]), BoolString(Flag(booleans, BOOLEAN_KEYS[i]))))
  }

  /** The properties save stores: the previous file's, overlaid with the lists and the booleans. */
  function SavedProperties(previous: Properties, files: seq<string>, filters: seq<string>, booleans: map<BooleanKey, bool>): (r: Properties)
    ensures DistinctKeys(previous) ==> DistinctKeys(r)
  {
    PutAll(PutAll(PutAll(previous, RecentEntries(files)), FilterEntries(filters)), BooleanEntries(booleans))
  }

  lemma RecentKeysDistinct(files: seq<string>)
    ensures DistinctKeys(RecentEntries(files))
  {
    var rs := RecentEntries(files);
    forall a, b | 0 <= a < b < |rs|
      ensures rs[a].0 != rs[b].0
    {
      KeysDistinct(a, b);
    }
  }

  lemma FilterKeysDistinct(filters: seq<string>)
    ensures DistinctKeys(FilterEntries(filters))
  {
    var fs := FilterEntries(filters);
    forall a, b | 0 <= a < b < |fs|
      ensures fs[a].0 != fs[b].0
    {
      KeysDistinct(a, b);
    }
  }

  /** Writing the booleans keeps every other key. */
  lemma BooleansKeep(p: Properties, booleans: map<BooleanKey, bool>, key: string)
    requires key != KeyName(ExtendedFilterEnabled)
    ensures Get(PutAll(p, BooleanEntries(booleans)), key) == Get(p, key)
  {
    assert BooleanEntries(booleans)[0].0 == KeyName(ExtendedFilterEnabled);
    PutAllKeeps(p, BooleanEntries(booleans), key);
  }

  /** Writing the filters keeps the key of every recently-used file. */
  lemma FiltersKeepRecent(p: Properties, filters: seq<string>, i: nat)
    ensures Get(PutAll(p, FilterEntries(filters)), RecentKey(i)) == Get(p, RecentKey(i))
  {
    var fs := FilterEntries(filters);
    forall j | 0 <= j < |fs|
      ensures fs[j].0 != RecentKey(i)
    {
      FamiliesDiffer(i, j);
    }
    PutAllKeeps(p, fs, RecentKey(i));
  }

  /** After save, the i-th recently-used file is stored under recentlyUsedFiles%02d. */
  lemma SavedFile(previous: Properties, files: seq<string>, filters: seq<string>, booleans: map<BooleanKey, bool>, i: nat)
    requires i < |files|
    ensures Get(SavedProperties(previous, files, filters, booleans), RecentKey(i)) == Some(files[i])
  {
    var p1 := PutAll(previous, RecentEntries(files));
    var p2 := PutAll(p1, FilterEntries(filters));
    RecentKeysDistinct(files);
    PutAllStores(previous, RecentEntries(files), i);
    FiltersKeepRecent(p1, filters, i);
    FamiliesDiffer(i, 0);
    BooleansKeep(p2, booleans, RecentKey(i));
  }

  /** After save, the i-th filter is stored under filters%04d. */
  lemma SavedFilter(previous: Properties, files: seq<string>, filters: seq<string>, booleans: map<BooleanKey, bool>, i: nat)
    requires i < |filters|
    ensures Get(SavedProperties(previous, files, filters, booleans), FilterKey(i)) == Some(filters[i])
  {
    var p1 := PutAll(previous, RecentEntries(files));
    var p2 := PutAll(p1, FilterEntries(filters));
    FilterKeysDistinct(filters);
    PutAllStores(p1, FilterEntries(filters), i);
    FamiliesDiffer(0, i);
    BooleansKeep(p2, booleans, FilterKey(i));
  }

  /** After save, every boolean is stored under its name, "false" when it has no value. */
  lemma SavedBoolean(previous: Properties, files: seq<string>, filters: seq<string>, booleans: map<BooleanKey, bool>)
    ensures Get(SavedProperties(previous, files, filters, booleans), KeyName(ExtendedFilterEnabled)) ==
              Some(BoolString(Flag(booleans, ExtendedFilterEnabled)))
  {
    var p2 := PutAll(PutAll(previous, RecentEntries(files)), FilterEntries(filters));
    assert DistinctKeys(BooleanEntries(booleans));
    PutAllStores(p2, BooleanEntries(booleans), 0);
  }

  /** Save never deletes a key: every key it does not write keeps its previous value, stale list entries included. */
  lemma SaveKeepsOtherKeys(previous: Properties, files: seq<string>, filters: seq<string>, booleans: map<BooleanKey, bool>, key: string)
    requires forall i :: 0 <= i < |files| ==> key != RecentKey(i)
    requires forall i :: 0 <= i < |filters| ==> key != FilterKey(i)
    requires key != KeyName(ExtendedFilterEnabled)
    ensures Get(SavedProperties(previous, files, filters, booleans), key) == Get(previous, key)
  {
    var rs, fs, bs := RecentEntries(files), FilterEntries(filters), BooleanEntries(booleans);
    var p1 := PutAll(previous, rs);
    PutAllKeeps(previous, rs, key);
    PutAllKeeps(p1, fs, key);
    PutAllKeeps(PutAll(p1, fs), bs, key);
  }

  /** A stale entry survives a save: after a list shrinks, its old last entry is still in the file. */
  lemma StaleEntrySurvives(previous: Properties, files: seq<string>, filters: seq<string>, booleans: map<BooleanKey, bool>, n: nat)
    requires |files| <= n
    ensures Get(SavedProperties(previous, files, filters, booleans), RecentKey(n)) == Get(previous, RecentKey(n))
  {
    forall i | 0 <= i < |files|
      ensures RecentKey(n) != RecentKey(i)
    {
      KeysDistinct(n, i);
    }
    forall i | 0 <= i < |filters|
      ensures RecentKey(n) != FilterKey(i)
    {
      SavedKeysMatch(n);
      SavedKeysMatch(i);
    }
    SavedKeysMatch(n);
    SaveKeepsOtherKeys(previous, files, filters, booleans, RecentKey(n));
  }

  /** The values of entries, in order. */
  function Values(entries: seq<(string, string)>): (vs: seq<string>)
    ensures |vs| == |entries| && forall i :: 0 <= i < |entries| ==> vs[i] == entries[i].1
  {
    seq(|entries|, i requires 0 <= i < |entries| => entries[i].1)
  }

  /** Every file save writes is found again by the next load (with the entries in ascending key order). */
  lemma SavedFileIsLoaded(previous: Properties, files: seq<string>, filters: seq<string>, booleans: map<BooleanKey, bool>, i: nat)
    requires i < |files|
    ensures var loaded := GetValues(SavedProperties(previous, files, filters, booleans), IsRecentKey);
            (RecentKey(i), files[i]) in loaded && SortedByKey(loaded)
  {
    var saved := SavedProperties(previous, files, filters, booleans);
    SavedFile(previous, files, filters, booleans, i);
    SavedKeysMatch(i);
    GetValuesSpec(saved, IsRecentKey);
  }

  /** One of save's forEach loops: setProperty for each entry in list order. */
  method StoreAll(p: Properties, entries: seq<(string, string)>) returns (r: Properties)
    ensures r == PutAll(p, entries)
  {
    r := p;
    for k := 0 to |entries|
      invariant r == PutAll(p, entries[..k])
    {
      assert entries[..k + 1][..k] == entries[..k];
      r := Put(r, entries[k].0, entries[k].1);
    }
    assert entries[..|entries|] == entries;
  }

  // ---------------------------------------------------------------- the settings object

  class GuiConfiguration {
    var recentlyUsedFiles: seq<string>
    var filters: seq<string>
    var booleansMap: map<BooleanKey, bool>

    /** Every Booleans key has a value, so getBoolean never unboxes null. */
    predicate Valid()
      reads this
    {
      forall key: BooleanKey :: key in booleansMap
    }

    /**
     * Loading: the values of the recentlyUsedFiles\d+ and filters\d+ keys in ascending key
     * order, and each boolean parsed from the property of its name.
     */
    constructor (properties: Properties)
      ensures Valid()
      ensures recentlyUsedFiles == Values(GetValues(properties, IsRecentKey))
      ensures filters == Values(GetValues(properties, IsFilterKey))
      ensures forall key :: GetBoolean(key) == ParseBoolean(GetProperty(properties, KeyName(key)))
    {
      recentlyUsedFiles := Values(GetValues(properties, IsRecentKey));
      filters := Values(GetValues(properties, IsFilterKey));
      booleansMap := map key | key in BOOLEAN_KEYS :: ParseBoolean(GetProperty(properties, KeyName(key)));
      new;
      forall key: BooleanKey
        ensures key in BOOLEAN_KEYS
      {
        AllKeysListed(key);
      }
    }

    /** addRecentlyUsedFile: path moved (or added) to the front, then the trimming loop from index 15. */
    method AddRecentlyUsedFile(path: string)
      modifies this
      ensures recentlyUsedFiles == RecentAfterAdd(old(recentlyUsedFiles), path)
      ensures filters == old(filters) && booleansMap == old(booleansMap)
    {
      recentlyUsedFiles := MoveToFront(recentlyUsedFiles, path);
      var i: nat := RECENT_LIMIT;
      while i < |recentlyUsedFiles|
        invariant RecentAfterAdd(old(recentlyUsedFiles), path) == TrimFrom(recentlyUsedFiles, i)
        invariant filters == old(filters) && booleansMap == old(booleansMap)
        decreases |recentlyUsedFiles| - i
      {
        recentlyUsedFiles := recentlyUsedFiles[..i] + recentlyUsedFiles[i + 1..];
        i := i + 1;
      }
    }

    /** addFilter: the trimmed filter in front, every other entry equal to it removed. */
    method AddFilter(filter: string)
      modifies this
      ensures filters == FiltersAfterAdd(old(filters), filter)
      ensures recentlyUsedFiles == old(recentlyUsedFiles) && booleansMap == old(booleansMap)
    {
      var trimmed := Trim(filter);
      filters := RemoveAll(filters, trimmed);
      filters := [trimmed] + filters;
    }

    /** getBoolean. */
    function GetBoolean(key: BooleanKey): bool
      reads this
      requires Valid()
    {
      booleansMap[key]
    }

    /** setBoolean: getBoolean now answers value for key and what it did for every other key. */
    method SetBoolean(key: BooleanKey, value: bool)
      requires Valid()
      modifies this
      ensures Valid() && GetBoolean(key) == value
      ensures recentlyUsedFiles == old(recentlyUsedFiles) && filters == old(filters)
    {
      booleansMap := booleansMap[key := value];
    }

    /** save: the previously stored properties, overlaid in list order with the current settings. */
    method Save(previous: Properties) returns (saved: Properties)
      ensures saved == SavedProperties(previous, recentlyUsedFiles, filters, booleansMap)
    {
      saved := StoreAll(previous, RecentEntries(recentlyUsedFiles));
      saved := StoreAll(saved, FilterEntries(filters));
      saved := StoreAll(saved, BooleanEntries(booleansMap));
    }
  }
}
