/**
 * A record format: the bundle of settings a file type declares (its name, the columns of the
 * list view, the dump layouts tried in order, the reader and its options, and the meta items
 * computed by expression), and the scan that lists the named groups of its record pattern.
 */
module RecordFormats {
  import opened Wrappers
  import opened JavaLang
  import opened ItemDefinitions

  /** The RecordReader implementations a format can name. */
  datatype ReaderKind = LinesReader | HexDumpLinesReader | StringDumpLinesReader | CsvLinesReader
                      | FixedBytesReader | VariableBytesReader

  /**
   * The fields of a RecordFormat. A dump layout is None when the format names a data group
   * that was never loaded. The meta item expressions are listed in the order the format's map
   * yields them.
   */
  datatype RecordFormat = RecordFormat(
    name: string,
    listItems: seq<string>,
    dumpLayouts: seq<Option<Node>>,
    readerClass: ReaderKind,
    readerOptions: map<string, string>,
    metaItemExpressions: seq<(string, string)>)
  {
    /** toString: the format's name. */
    function ToString(): string { name }
  }

  predicate IsAsciiLetter(c: char) { 'A' <= c <= 'Z' || 'a' <= c <= 'z' }

  predicate IsAsciiAlnum(c: char) { IsAsciiLetter(c) || IsAsciiDigit(c) }

  /** A name the scan accepts: `[A-Za-z][A-Za-z0-9]*`. */
  predicate IsGroupName(n: string) {
    |n| > 0 && IsAsciiLetter(n[0]) && forall i :: 0 <= i < |n| ==> IsAsciiAlnum(n[i])
  }

  /** The end of the run of letters and digits that starts at k. */
  function AlnumEnd(s: string, k: nat): (e: nat)
    requires k <= |s|
    ensures k <= e <= |s|
    ensures forall i :: k <= i < e ==> IsAsciiAlnum(s[i])
    ensures e < |s| ==> !IsAsciiAlnum(s[e])
    decreases |s| - k
  {
    if k < |s| && IsAsciiAlnum(s[k]) then AlnumEnd(s, k + 1) else k
  }

  /**
   * s starts with a match of `\(\?\<([A-Za-z][A-Za-z0-9]*)\>`. The letters and digits are
   * taken greedily, and backing off cannot help since '>' is neither, so the match (when
   * there is one) ends at the first character after the run.
   */
  predicate TagAt(s: string) {
    |s| >= 4 && s[..3] == "(?<" && IsAsciiLetter(s[3]) && AlnumEnd(s, 3) < |s| && s[AlnumEnd(s, 3)] == '>'
  }

  /**
   * The names a `while (m.find())` loop collects from s, in order: each search resumes
   * after the previous match, and a position where no match starts is passed over.
   */
  function MetaNames(s: string): (names: seq<string>)
    ensures forall k :: 0 <= k < |names| ==> IsGroupName(names[k])
    decreases |s|
  {
    if |s| == 0 then []
    else if TagAt(s) then [s[3..AlnumEnd(s, 3)]] + MetaNames(s[AlnumEnd(s, 3) + 1..])
    else MetaNames(s[1..])
  }

  /**
   * getMetaDataNames: the named groups of the reader's recordPattern option. Without
   * that option the matcher is given null and throws.
   */
  method GetMetaDataNames(format: RecordFormat) returns (r: Result<seq<string>>)
    ensures "recordPattern" !in format.readerOptions ==> r == Err(NullPointer)
    ensures "recordPattern" in format.readerOptions ==> r == Ok(MetaNames(format.readerOptions["recordPattern"]))
  {
    if "recordPattern" !in format.readerOptions {
      return Err(NullPointer);
    }
    var p := format.readerOptions["recordPattern"];
    var items: seq<string> := [];
    var pos := 0;
    while pos < |p|
      invariant pos <= |p|
      invariant items + MetaNames(p[pos..]) == MetaNames(p)
      decreases |p| - pos
    {
      var rest := p[pos..];
      if TagAt(rest) {
        var e := AlnumEnd(rest, 3);
        var name, after := rest[3..e], rest[e + 1..];
        assert after == p[pos + e + 1..];
        assert MetaNames(rest) == [name] + MetaNames(after);
        assert items + ([name] + MetaNames(after)) == (items + [name]) + MetaNames(after);
        items := items + [name];
        pos := pos + e + 1;
      } else {
        assert rest[1..] == p[pos + 1..];
        assert MetaNames(rest) == MetaNames(rest[1..]);
        pos := pos + 1;
      }
    }
    assert p[pos..] == [];
    assert MetaNames(p[pos..]) == [];
    assert items + [] == items;
    return Ok(items);
  }

  /** Every listed name is well formed and appears in the pattern as `(?<name>`. */
  lemma {:induction false} MetaNamesSound(s: string)
    ensures forall k :: 0 <= k < |MetaNames(s)| ==>
              IsGroupName(MetaNames(s)[k]) && Contains(s, "(?<" + MetaNames(s)[k] + ">")
    decreases |s|
  {
    if |s| > 0 {
      if TagAt(s) {
        var e := AlnumEnd(s, 3);
        var rest := s[e + 1..];
        MetaNamesSound(rest);
        forall k | 0 <= k < |MetaNames(rest)|
          ensures Contains(s, "(?<" + MetaNames(rest)[k] + ">")
        {
          ContainsSuffix(s, e + 1, "(?<" + MetaNames(rest)[k] + ">");
        }
        assert s[..|"(?<" + s[3..e] + ">"|] == "(?<" + s[3..e] + ">";
      } else {
        MetaNamesSound(s[1..]);
      }
    }
  }

  lemma {:induction false} ContainsSuffix(s: string, j: nat, sub: string)
    requires j <= |s| && Contains(s[j..], sub)
    ensures Contains(s, sub)
    decreases j
  {
    if j > 0 {
      assert s[1..][j - 1..] == s[j..];
      ContainsSuffix(s[1..], j - 1, sub);
    }
  }

  /** A declaration `(?<name>` contributes its name and the scan resumes right after it. */
  lemma NamedGroupListed(name: string, rest: string)
    requires IsGroupName(name)
    ensures MetaNames("(?<" + name + ">" + rest) == [name] + MetaNames(rest)
  {
    var s := "(?<" + name + ">" + rest;
    AlnumRun(s, 3, |name|);
    assert s[3..3 + |name|] == name;
    assert s[3 + |name| + 1..] == rest;
  }

  lemma {:induction false} AlnumRun(s: string, k: nat, len: nat)
    requires k + len < |s|
    requires forall i :: k <= i < k + len ==> IsAsciiAlnum(s[i])
    requires s[k + len] == '>'
    ensures AlnumEnd(s, k) == k + len
    decreases len
  {
    if len > 0 {
      AlnumRun(s, k + 1, len - 1);
    }
  }

  /** A character that cannot open a named group is passed over. */
  lemma OtherCharSkipped(s: string)
    requires |s| > 0 && s[0] != '('
    ensures MetaNames(s) == MetaNames(s[1..])
  {
    if |s| >= 4 {
      assert s[..3][0] == s[0];
      assert s[..3] != "(?<";
    }
    assert !TagAt(s);
  }

  /** Lookbehinds `(?<=` and `(?<!` are not named groups: a letter must follow `<`. */
  lemma LookbehindSkipped(s: string)
    requires |s| >= 4 && s[..3] == "(?<" && (s[3] == '=' || s[3] == '!')
    ensures MetaNames(s) == MetaNames(s[1..])
  {
  }

  /** A typical dump pattern: `(?<=x)(?<DUMP>.*)` lists only DUMP. */
  lemma DumpPatternNames()
    ensures MetaNames("(?<=x)(?<DUMP>.*)") == ["DUMP"]
  {
    LookbehindPrefixSkipped();
    DumpGroupListed();
  }

  lemma LookbehindPrefixSkipped()
    ensures MetaNames("(?<=x)(?<DUMP>.*)") == MetaNames("(?<DUMP>.*)")
  {
    var p := "(?<=x)(?<DUMP>.*)";
    assert p[..3] == "(?<";
    LookbehindSkipped(p);
    assert p[1..] == "?<=x)(?<DUMP>.*)";
    OtherCharSkipped("?<=x)(?<DUMP>.*)");
    OtherCharSkipped("<=x)(?<DUMP>.*)");
    OtherCharSkipped("=x)(?<DUMP>.*)");
    OtherCharSkipped("x)(?<DUMP>.*)");
    OtherCharSkipped(")(?<DUMP>.*)");
  }

  lemma DumpGroupListed()
    ensures MetaNames("(?<DUMP>.*)") == ["DUMP"]
  {
    assert "(?<DUMP>.*)" == "(?<" + "DUMP" + ">" + ".*)";
    NamedGroupListed("DUMP", ".*)");
    OtherCharSkipped(".*)");
    OtherCharSkipped("*)");
    OtherCharSkipped(")");
  }
}
