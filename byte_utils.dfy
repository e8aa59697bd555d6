/**
 * ByteUtils: upper-case hexadecimal rendering of a slice of a Java byte array
 * (printHexBinary) and its inverse, xsd:hexBinary parsing (parseHexBinary).
 */
module ByteUtils {
  import opened Wrappers

  /** A Java `byte`: signed, eight bits. */
  newtype int8 = x: int | -128 <= x < 128

  const HexCode: string := "0123456789ABCDEF"

  /** `(b >> 4) & 0xF`: the arithmetic shift is a floor division, so Dafny's `/` matches it. */
  function HighNibble(b: int8): (h: nat)
    ensures h < 16
  {
    ((b as int) / 16) % 16
  }

  /** `b & 0xF` on the two's-complement bits, which is the Euclidean remainder. */
  function LowNibble(b: int8): (l: nat)
    ensures l < 16
  {
    (b as int) % 16
  }

  /** The two hexadecimal digits of one byte, high nibble first. */
  function HexOf(b: int8): string {
    [HexCode[HighNibble(b)], HexCode[LowNibble(b)]]
  }

  /** The hexadecimal rendering of a byte sequence. */
  function Hex(bs: seq<int8>): string {
    if |bs| == 0 then "" else HexOf(bs[0]) + Hex(bs[1..])
  }

  predicate IsUpperHexDigit(c: char) { '0' <= c <= '9' || 'A' <= c <= 'F' }

  /** `a + b` on Java ints: the sum wrapped to 32 bits two's complement. */
  function IntSum(a: int, b: int): (r: int)
    ensures -0x8000_0000 <= r < 0x8000_0000
    ensures -0x8000_0000 <= a + b < 0x8000_0000 ==> r == a + b
    ensures (r - (a + b)) % 0x1_0000_0000 == 0
  {
    (a + b + 0x8000_0000) % 0x1_0000_0000 - 0x8000_0000
  }

  /**
   * What printHexBinary(data, offset, length) returns or throws: the loop runs from offset up
   * to the end index offset + length as an int computes it, so an end that wraps below offset
   * gives the empty text.
   */
  function HexRange(data: seq<int8>, offset: int, length: int): (r: Result<string>)
    ensures r.Err? ==> r.error == IndexOutOfBounds && offset < IntSum(offset, length)
    ensures r.Ok? && r.value != "" ==> 0 <= offset < IntSum(offset, length) <= |data|
  {
    var end := IntSum(offset, length);
    if end <= offset then Ok("")
    else if 0 <= offset && end <= |data| then Ok(Hex(data[offset..end]))
    else Err(IndexOutOfBounds)
  }

  /** Without wrap-around, printHexBinary renders exactly data[offset .. offset + length - 1]. */
  lemma HexRangeInRange(data: seq<int8>, offset: int, length: int)
    requires -0x8000_0000 <= offset + length < 0x8000_0000
    ensures length <= 0 ==> HexRange(data, offset, length) == Ok("")
    ensures length > 0 && 0 <= offset && offset + length <= |data| ==>
              HexRange(data, offset, length) == Ok(Hex(data[offset..offset + length]))
    ensures length > 0 && (offset < 0 || offset + length > |data|) ==> HexRange(data, offset, length) == Err(IndexOutOfBounds)
  {
  }

  /** A length whose end index overflows int gives the empty text instead of an index error. */
  lemma HexRangeWraps(data: seq<int8>)
    requires |data| == 0
    ensures HexRange(data, 1, 0x7FFF_FFFF) == Ok("")
    ensures HexRange(data, -0x8000_0000, -1) == Err(IndexOutOfBounds)
  {
    assert IntSum(1, 0x7FFF_FFFF) == -0x8000_0000;
    assert IntSum(-0x8000_0000, -1) == 0x7FFF_FFFF;
  }

  /**
   * printHexBinary: two digits for every byte of data[offset .. offset + length - 1],
   * reading data[i] for i counting up from offset; an index outside the array throws.
   */
  method PrintHexBinary(data: seq<int8>, offset: int, length: int) returns (r: Result<string>)
    ensures r == HexRange(data, offset, length)
  {
    var sb := "";
    var end := IntSum(offset, length);
    var i := offset;
    while i < end
      invariant offset <= i
      invariant end <= offset ==> i == offset
      invariant end > offset ==> i <= end
      invariant i > offset ==> 0 <= offset && i <= |data| && sb == Hex(data[offset..i])
      invariant i == offset ==> sb == ""
      decreases end - i
    {
      if i < 0 || i >= |data| {
        return Err(IndexOutOfBounds);
      }
      if i > offset {
        HexAppend(data[offset..i], data[i]);
        assert data[offset..i + 1] == data[offset..i] + [data[i]];
      } else {
        assert data[offset..i + 1] == [data[i]];
      }
      sb := sb + HexOf(data[i]);
      i := i + 1;
    }
    if end > offset {
      assert i == end;
    }
    return Ok(sb);
  }

  lemma {:induction false} HexAppend(bs: seq<int8>, b: int8)
    ensures Hex(bs + [b]) == Hex(bs) + HexOf(b)
    decreases |bs|
  {
    if |bs| > 0 {
      assert (bs + [b])[1..] == bs[1..] + [b];
      HexAppend(bs[1..], b);
    } else {
      assert (bs + [b])[1..] == [];
    }
  }

  /** The rendering has two upper-case hexadecimal digits per byte. */
  lemma {:induction false} HexShape(bs: seq<int8>)
    ensures |Hex(bs)| == 2 * |bs|
    ensures forall i :: 0 <= i < |Hex(bs)| ==> IsUpperHexDigit(Hex(bs)[i])
    decreases |bs|
  {
    if |bs| > 0 {
      HexShape(bs[1..]);
      var h := Hex(bs);
      forall i | 0 <= i < |h|
        ensures IsUpperHexDigit(h[i])
      {
        if i >= 2 {
          assert h[i] == Hex(bs[1..])[i - 2];
        } else {
          HexCodeDigits();
        }
      }
    }
  }

  lemma HexCodeDigits()
    ensures forall d :: 0 <= d < 16 ==> IsUpperHexDigit(HexCode[d])
  {
  }

  /** What printHexBinary returns is two upper-case digits per requested byte. */
  lemma HexRangeShape(data: seq<int8>, offset: int, length: int)
    requires HexRange(data, offset, length).Ok?
    ensures var end := IntSum(offset, length);
            |HexRange(data, offset, length).value| == (if end <= offset then 0 else 2 * (end - offset))
    ensures forall i :: 0 <= i < |HexRange(data, offset, length).value| ==>
              IsUpperHexDigit(HexRange(data, offset, length).value[i])
  {
    var end := IntSum(offset, length);
    if end > offset {
      HexShape(data[offset..end]);
    }
  }

  /** DatatypeConverter's hexToBin: the value of a hexadecimal digit of either case, or -1. */
  function HexToBin(c: char): (v: int)
    ensures -1 <= v < 16
  {
    if '0' <= c <= '9' then (c as int) - ('0' as int)
    else if 'A' <= c <= 'F' then (c as int) - ('A' as int) + 10
    else if 'a' <= c <= 'f' then (c as int) - ('a' as int) + 10
    else -1
  }

  /** The `(byte)` cast of a value in 0 .. 255. */
  function ToByte(v: int): int8
    requires 0 <= v < 256
  {
    if v < 128 then v as int8 else (v - 256) as int8
  }

  function HexPairs(s: string): Option<seq<int8>>
    requires |s| % 2 == 0
  {
    if |s| == 0 then Some([])
    else
      var h := HexToBin(s[0]);
      var l := HexToBin(s[1]);
      if h == -1 || l == -1 then None
      else match HexPairs(s[2..])
        case None => None
        case Some(rest) => Some([ToByte(h * 16 + l)] + rest)
  }

  /**
   * parseHexBinary (xsd:hexBinary): an even number of hexadecimal digits of either
   * case, two per byte; otherwise an IllegalArgumentException naming the input.
   */
  function ParseHexBinary(s: string): (r: Result<seq<int8>>)
    ensures |s| % 2 != 0 ==> r.Err?
    ensures r.Err? ==> r.error.IllegalArgument?
    ensures r.Ok? ==> 2 * |r.value| == |s|
  {
    if |s| % 2 != 0 then Err(IllegalArgument("hexBinary needs to be even-length: " + s))
    else
      HexPairsLength(s);
      match HexPairs(s)
      case None => Err(IllegalArgument("contains illegal character for hexBinary: " + s))
      case Some(bs) => Ok(bs)
  }

  /** Two digits make one byte. */
  lemma {:induction false} HexPairsLength(s: string)
    requires |s| % 2 == 0
    ensures HexPairs(s).Some? ==> 2 * |HexPairs(s).value| == |s|
    decreases |s|
  {
    if |s| > 0 {
      HexPairsLength(s[2..]);
    }
  }

  lemma NibblesOfByte(b: int8)
    ensures ToByte(HighNibble(b) * 16 + LowNibble(b)) == b
  {
    var x := b as int;
    if x < 0 {
      assert x / 16 < 0;
      assert HighNibble(b) == x / 16 + 16;
    } else {
      assert HighNibble(b) == x / 16;
    }
  }

  lemma NibblesOfPair(h: nat, l: nat)
    requires h < 16 && l < 16
    ensures HighNibble(ToByte(h * 16 + l)) == h && LowNibble(ToByte(h * 16 + l)) == l
  {
    var x := ToByte(h * 16 + l) as int;
    if h * 16 + l < 128 {
      assert x == 16 * h + l;
    } else {
      assert x == 16 * (h - 16) + l;
      assert x / 16 == h - 16;
    }
  }

  lemma HexToBinOfHexCode()
    ensures forall d :: 0 <= d < 16 ==> HexToBin(HexCode[d]) == d
  {
  }

  /** parseHexBinary inverts printHexBinary. */
  lemma {:induction false} ParseHexBinaryOfHex(bs: seq<int8>)
    ensures ParseHexBinary(Hex(bs)) == Ok(bs)
    decreases |bs|
  {
    HexShape(bs);
    if |bs| > 0 {
      var b, rest := bs[0], bs[1..];
      assert bs == [b] + rest;
      HexCons(b, rest);
      HexShape(rest);
      ParseHexBinaryOfHex(rest);
      var d, t := HexOf(b), Hex(rest);
      assert HexPairs(t) == Some(rest);
      DigitsOfByte(b);
      HexPairsPrefix(d, t);
      assert HexPairs(d + t) == Some([b] + rest);
    }
  }

  /** The two digits printed for a byte parse back to that byte. */
  lemma DigitsOfByte(b: int8)
    ensures var d := HexOf(b);
            HexToBin(d[0]) == HighNibble(b) && HexToBin(d[1]) == LowNibble(b) &&
            ToByte(HexToBin(d[0]) * 16 + HexToBin(d[1])) == b
  {
    HexToBinOfHexCode();
    NibblesOfByte(b);
  }

  /** Parsing a pair of digits in front of an even-length text: their byte, then the text's bytes. */
  lemma HexPairsPrefix(d: string, t: string)
    requires |d| == 2 && |t| % 2 == 0
    requires HexToBin(d[0]) != -1 && HexToBin(d[1]) != -1
    ensures HexPairs(d + t) ==
              match HexPairs(t)
              case None => None
              case Some(rest) => Some([ToByte(HexToBin(d[0]) * 16 + HexToBin(d[1]))] + rest)
  {
    var s := d + t;
    assert s[0] == d[0] && s[1] == d[1] && s[2..] == t;
  }


  /** The upper-case form of a hexadecimal digit; other characters are kept. */
  function UpperHex(c: char): char {
    if 'a' <= c <= 'f' then ((c as int) - ('a' as int) + ('A' as int)) as char else c
  }

  function UpperHexString(s: string): (t: string)
    ensures |t| == |s|
  {
    if |s| == 0 then "" else [UpperHex(s[0])] + UpperHexString(s[1..])
  }

  lemma HexCodeOfHexToBin(c: char)
    requires HexToBin(c) != -1
    ensures HexCode[HexToBin(c)] == UpperHex(c)
  {
    if '0' <= c <= '9' {
      assert c in "0123456789";
    } else if 'A' <= c <= 'F' {
      assert c in "ABCDEF";
    } else {
      assert c in "abcdef";
    }
  }

  /** A pair of hexadecimal digits parses to the byte that prints as the same pair in upper case. */
  lemma HexOfPair(c0: char, c1: char)
    requires HexToBin(c0) != -1 && HexToBin(c1) != -1
    ensures HexOf(ToByte(HexToBin(c0) * 16 + HexToBin(c1))) == [UpperHex(c0), UpperHex(c1)]
  {
    var h, l := HexToBin(c0), HexToBin(c1);
    var b := ToByte(h * 16 + l);
    NibblesOfPair(h, l);
    HexCodeOfHexToBin(c0);
    HexCodeOfHexToBin(c1);
    assert HexOf(b) == [HexCode[HighNibble(b)], HexCode[LowNibble(b)]] == [HexCode[h], HexCode[l]];
  }

  /** printHexBinary inverts parseHexBinary, up to the case of the digits. */
  lemma {:induction false} HexOfParseHexBinary(s: string)
    requires ParseHexBinary(s).Ok?
    ensures Hex(ParseHexBinary(s).value) == UpperHexString(s)
    decreases |s|
  {
    if |s| > 0 {
      HexPairsHead(s);
      var rest := HexPairs(s[2..]).value;
      assert ParseHexBinary(s[2..]) == Ok(rest);
      HexOfParseHexBinary(s[2..]);
      HexOfPairThenRest(s, rest);
    }
  }

  /** The byte two digits parse to, in front of a rest that prints as the digits after them. */
  lemma HexOfPairThenRest(s: string, rest: seq<int8>)
    requires |s| >= 2 && HexToBin(s[0]) != -1 && HexToBin(s[1]) != -1
    requires Hex(rest) == UpperHexString(s[2..])
    ensures Hex([ToByte(HexToBin(s[0]) * 16 + HexToBin(s[1]))] + rest) == UpperHexString(s)
  {
    var b := ToByte(HexToBin(s[0]) * 16 + HexToBin(s[1]));
    HexOfPair(s[0], s[1]);
    HexConsPair(s, b, rest);
  }

  /** A byte that prints as two digits, in front of a rest that prints as the digits after them. */
  lemma HexConsPair(s: string, b: int8, rest: seq<int8>)
    requires |s| >= 2 && HexOf(b) == [UpperHex(s[0]), UpperHex(s[1])]
    requires Hex(rest) == UpperHexString(s[2..])
    ensures Hex([b] + rest) == UpperHexString(s)
  {
    HexCons(b, rest);
    UpperHexPair(s);
  }

  /** A text that parses starts with two digits, and its bytes are theirs, then the rest's. */
  lemma HexPairsHead(s: string)
    requires |s| > 0 && ParseHexBinary(s).Ok?
    ensures |s| >= 2 && |s[2..]| % 2 == 0 && HexToBin(s[0]) != -1 && HexToBin(s[1]) != -1
    ensures HexPairs(s[2..]).Some? &&
            ParseHexBinary(s).value == [ToByte(HexToBin(s[0]) * 16 + HexToBin(s[1]))] + HexPairs(s[2..]).value
  {
  }

  /** The hexadecimal rendering of a byte in front of others: its two digits, then theirs. */
  lemma HexCons(b: int8, rest: seq<int8>)
    ensures Hex([b] + rest) == HexOf(b) + Hex(rest)
  {
    assert ([b] + rest)[1..] == rest;
  }

  /** Upper-casing a text of two or more digits: its first two upper-cased, then the rest. */
  lemma UpperHexPair(s: string)
    requires |s| >= 2
    ensures UpperHexString(s) == [UpperHex(s[0]), UpperHex(s[1])] + UpperHexString(s[2..])
  {
    assert s[1..][1..] == s[2..];
  }



}
