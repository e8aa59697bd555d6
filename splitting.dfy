/**
 * String.split as the core uses it, for two separators: a plain comma (`split(",")`) and
 * the quote-aware CSV_SEPARATOR `,(?=(?:[^"]*"[^"]*")*[^"]*$)`, which matches a comma only
 * when an even number of double quotes follows it, that is, a comma outside quotes.
 */
module Splitting {

  datatype Separator = PlainComma | UnquotedComma

  function QuoteCount(s: string): nat {
    if |s| == 0 then 0 else (if s[0] == '"' then 1 else 0) + QuoteCount(s[1..])
  }

  /** Whether the separator matches at position i; this depends only on s[i..]. */
  predicate SepAt(sep: Separator, s: string, i: nat)
    requires i < |s|
  {
    s[i] == ',' && (sep.UnquotedComma? ==> QuoteCount(s[i + 1..]) % 2 == 0)
  }

  /** The first match at or after i, or |s| when there is none. */
  function FirstSep(sep: Separator, s: string, i: nat): (r: nat)
    requires i <= |s|
    ensures i <= r <= |s|
    ensures r < |s| ==> SepAt(sep, s, r)
    ensures forall j :: i <= j < r ==> !SepAt(sep, s, j)
    decreases |s| - i
  {
    if i == |s| then i else if SepAt(sep, s, i) then i else FirstSep(sep, s, i + 1)
  }

  /** The text between consecutive matches, trailing empty strings kept (split with a negative limit). */
  function SplitAll(sep: Separator, s: string): (parts: seq<string>)
    ensures |parts| >= 1
    decreases |s|
  {
    var i := FirstSep(sep, s, 0);
    if i == |s| then [s] else [s[..i]] + SplitAll(sep, s[i + 1..])
  }

  function DropTrailingEmpty(parts: seq<string>): (r: seq<string>)
    ensures |r| <= |parts| && r == parts[..|r|]
    ensures |r| > 0 ==> r[|r| - 1] != ""
    ensures forall k :: |r| <= k < |parts| ==> parts[k] == ""
  {
    if |parts| == 0 then []
    else if parts[|parts| - 1] == "" then DropTrailingEmpty(parts[..|parts| - 1])
    else parts
  }

  /** split(regex): the whole input when nothing matches, otherwise the parts without trailing empty strings. */
  function Split(sep: Separator, s: string): seq<string>
  {
    var parts := SplitAll(sep, s);
    if |parts| == 1 then parts else DropTrailingEmpty(parts)
  }

  /**
   * split(regex) is the whole input when nothing matches, and otherwise the parts of the
   * unlimited split up to the trailing empty ones, which are all it drops.
   */
  lemma SplitIsTrimmedSplitAll(sep: Separator, s: string)
    ensures FirstSep(sep, s, 0) == |s| ==> Split(sep, s) == [s]
    ensures |Split(sep, s)| <= |SplitAll(sep, s)| && Split(sep, s) == SplitAll(sep, s)[..|Split(sep, s)|]
    ensures forall k :: |Split(sep, s)| <= k < |SplitAll(sep, s)| ==> SplitAll(sep, s)[k] == ""
  {
  }

  /** split(regex, 2): the text before the first match and everything after it. */
  function Split2(sep: Separator, s: string): (r: seq<string>)
    ensures 1 <= |r| <= 2
  {
    var i := FirstSep(sep, s, 0);
    if i == |s| then [s] else [s[..i], s[i + 1..]]
  }

  /** String.join: the parts with the delimiter between neighbours. */
  function Join(parts: seq<string>, delimiter: string): string
    decreases |parts|
  {
    if |parts| == 0 then ""
    else if |parts| == 1 then parts[0]
    else parts[0] + delimiter + Join(parts[1..], delimiter)
  }

  /** A join starts with the first part and ends with the last. */
  lemma {:induction false} JoinEnds(parts: seq<string>, delimiter: string)
    requires |parts| > 0
    ensures |parts[0]| <= |Join(parts, delimiter)| && Join(parts, delimiter)[..|parts[0]|] == parts[0]
    ensures var r, last := Join(parts, delimiter), parts[|parts| - 1];
            |last| <= |r| && r[|r| - |last|..] == last
    decreases |parts|
  {
    if |parts| > 1 {
      JoinEnds(parts[1..], delimiter);
    }
  }

  /** Whether the separator at position i of `pre + "," + post` is decided by `post` alone. */
  lemma {:induction false} SepAtShift(sep: Separator, s: string, k: nat, j: nat)
    requires k < |s| && k + j < |s|
    decreases j
    ensures SepAt(sep, s, k + j) == SepAt(sep, s[k..], j)
  {
    assert s[k..][j] == s[k + j];
    assert s[k..][j + 1..] == s[k + j + 1..];
  }

  /** A text is what comes before position i, the character at i, and what follows it. */
  lemma Around(s: string, i: nat)
    requires i < |s|
    ensures s == s[..i] + [s[i]] + s[i + 1..]
  {
  }

  /** Joining the parts with commas restores the input: split loses nothing but the separators. */
  lemma {:induction false} JoinSplitAll(sep: Separator, s: string)
    ensures Join(SplitAll(sep, s), ",") == s
    decreases |s|
  {
    var i := FirstSep(sep, s, 0);
    if i < |s| {
      var rest := s[i + 1..];
      var parts := SplitAll(sep, s);
      JoinSplitAll(sep, rest);
      assert parts == [s[..i]] + SplitAll(sep, rest);
      assert Join(parts, ",") == s[..i] + "," + Join(parts[1..], ",");
      assert parts[1..] == SplitAll(sep, rest);
      Around(s, i);
    }
  }

  /** split(regex, 2) is the first part of split with no limit and the rest of the text, separators kept. */
  lemma Split2OfSplitAll(sep: Separator, s: string)
    ensures Split2(sep, s)[0] == SplitAll(sep, s)[0]
    ensures |Split2(sep, s)| == 2 <==> |SplitAll(sep, s)| >= 2
    ensures |Split2(sep, s)| == 2 ==> Join(SplitAll(sep, Split2(sep, s)[1]), ",") == Split2(sep, s)[1]
    ensures |Split2(sep, s)| == 2 ==> SplitAll(sep, s)[1..] == SplitAll(sep, Split2(sep, s)[1])
  {
    var i := FirstSep(sep, s, 0);
    if i < |s| {
      var rest := s[i + 1..];
      assert Split2(sep, s) == [s[..i], rest];
      assert SplitAll(sep, s) == [s[..i]] + SplitAll(sep, rest);
      JoinSplitAll(sep, rest);
    }
  }

  /** The plain-comma parts contain no comma. */
  lemma {:induction false} PlainPartsHaveNoComma(s: string)
    ensures forall k, c :: 0 <= k < |SplitAll(PlainComma, s)| && 0 <= c < |SplitAll(PlainComma, s)[k]| ==>
              SplitAll(PlainComma, s)[k][c] != ','
    decreases |s|
  {
    var i := FirstSep(PlainComma, s, 0);
    if i < |s| {
      PlainPartsHaveNoComma(s[i + 1..]);
      assert SplitAll(PlainComma, s)[1..] == SplitAll(PlainComma, s[i + 1..]);
      forall c | 0 <= c < i
        ensures s[..i][c] != ','
      {
        assert !SepAt(PlainComma, s, c);
      }
    } else {
      forall c | 0 <= c < |s|
        ensures s[c] != ','
      {
        assert !SepAt(PlainComma, s, c);
      }
    }
  }

  /** Without double quotes in the input, CSV_SEPARATOR splits exactly where a plain comma does. */
  lemma {:induction false} UnquotedIsPlainWithoutQuotes(s: string)
    requires forall c :: 0 <= c < |s| ==> s[c] != '"'
    ensures SplitAll(UnquotedComma, s) == SplitAll(PlainComma, s)
    ensures Split(UnquotedComma, s) == Split(PlainComma, s)
    decreases |s|
  {
    forall j | 0 <= j < |s|
      ensures SepAt(UnquotedComma, s, j) == SepAt(PlainComma, s, j)
    {
      NoQuotesCount(s[j + 1..]);
    }
    FirstSepAgree(s, 0);
    var i := FirstSep(PlainComma, s, 0);
    if i < |s| {
      UnquotedIsPlainWithoutQuotes(s[i + 1..]);
    }
  }

  lemma {:induction false} FirstSepAgree(s: string, i: nat)
    requires i <= |s|
    requires forall j :: 0 <= j < |s| ==> SepAt(UnquotedComma, s, j) == SepAt(PlainComma, s, j)
    ensures FirstSep(UnquotedComma, s, i) == FirstSep(PlainComma, s, i)
    decreases |s| - i
  {
    if i < |s| {
      FirstSepAgree(s, i + 1);
    }
  }

  lemma {:induction false} NoQuotesCount(s: string)
    requires forall c :: 0 <= c < |s| ==> s[c] != '"'
    ensures QuoteCount(s) == 0
    decreases |s|
  {
    if |s| > 0 {
      NoQuotesCount(s[1..]);
    }
  }

  /** A comma between double quotes does not split: a,"b,c",d has three parts. */
  lemma QuotedCommaStaysInPart()
    ensures Split(UnquotedComma, "a,\"b,c\",d") == ["a", "\"b,c\"", "d"]
  {
    var s := "a,\"b,c\",d";
    assert s[9..] == "" && QuoteCount(s[9..]) == 0;
    assert s[8..][1..] == s[9..] && QuoteCount(s[8..]) == 0;
    assert s[7..][1..] == s[8..] && QuoteCount(s[7..]) == 0;
    assert s[6..][1..] == s[7..] && QuoteCount(s[6..]) == 1;
    assert s[5..][1..] == s[6..] && QuoteCount(s[5..]) == 1;
    assert s[4..][1..] == s[5..] && QuoteCount(s[4..]) == 1;
    assert s[3..][1..] == s[4..] && QuoteCount(s[3..]) == 1;
    assert s[2..][1..] == s[3..] && QuoteCount(s[2..]) == 2;
    assert FirstSep(UnquotedComma, s, 0) == 1;
    var t := s[2..];
    assert t == "\"b,c\",d";
    assert t[2] == ',' && t[3..] == s[5..];
    assert !SepAt(UnquotedComma, t, 2);
    assert FirstSep(UnquotedComma, t, 0) == 5;
    var u := t[6..];
    assert u == "d";
    assert FirstSep(UnquotedComma, u, 0) == 1;
    assert SplitAll(UnquotedComma, u) == ["d"];
    assert t[..5] == "\"b,c\"";
    assert SplitAll(UnquotedComma, t) == ["\"b,c\""] + SplitAll(UnquotedComma, u);
    assert s[..1] == "a";
    assert SplitAll(UnquotedComma, s) == ["a"] + SplitAll(UnquotedComma, t);
  }

  /** split drops trailing empty parts but keeps leading ones. */
  lemma SplitDropsTrailingEmpty()
    ensures Split(PlainComma, ",a,,") == ["", "a"]
  {
    assert ",a,,"[1..] == "a,,";
    assert "a,,"[2..] == "," && "a,,"[..1] == "a";
    assert FirstSep(PlainComma, "a,,", 0) == 1;
    assert ","[1..] == "";
    assert SplitAll(PlainComma, ",") == ["", ""];
    assert SplitAll(PlainComma, "a,,") == ["a"] + SplitAll(PlainComma, ",");
    assert SplitAll(PlainComma, ",a,,") == [""] + SplitAll(PlainComma, "a,,");
    var parts := ["", "a", "", ""];
    assert SplitAll(PlainComma, ",a,,") == parts;
    assert parts[..3] == ["", "a", ""] && parts[..3][..2] == ["", "a"];
    assert DropTrailingEmpty(parts) == DropTrailingEmpty(["", "a", ""]);
    assert DropTrailingEmpty(["", "a", ""]) == DropTrailingEmpty(["", "a"]);
  }

  /** An input made only of separators splits into no parts at all. */
  lemma SplitOfSeparatorsOnly()
    ensures Split(PlainComma, ",,") == []
  {
    assert ",,"[1..] == "," && ","[1..] == "";
    assert SplitAll(PlainComma, ",") == ["", ""];
    assert SplitAll(PlainComma, ",,") == ["", "", ""];
    var parts := ["", "", ""];
    assert parts[..2] == ["", ""] && parts[..2][..1] == [""] && parts[..2][..1][..0] == [];
  }

  /** With no match, split returns the input itself, so the empty string yields one empty part. */
  lemma SplitOfEmpty()
    ensures Split(PlainComma, "") == [""]
    ensures Split(UnquotedComma, "") == [""]
  {
  }
}
