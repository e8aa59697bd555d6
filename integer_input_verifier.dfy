/**
 * The input verifier of the numeric text fields: text that parses as an int is accepted and
 * pulled into [min, max]; other text is rejected and left as it is.
 */
module IntegerInputVerifiers {
  import opened Wrappers
  import opened JavaLang

  /** The text component a verifier checks: only its text matters here. */
  class TextField {
    var text: string

    constructor (text: string)
      ensures this.text == text
    {
      this.text := text;
    }
  }

  /**
   * The text after verify: min when the parsed value is below min, else max when it is above
   * max, else the text as it was (unparsable text included).
   */
  function Corrected(min: int, max: int, text: string): (r: string)
    ensures r == text || r == IntToString(min) || r == IntToString(max)
    ensures ParseInt(text).Err? ==> r == text
    ensures r != text ==> ParseInt(text).Ok? && !(min <= ParseInt(text).value <= max)
  {
    match ParseInt(text)
    case Err(_) => text
    case Ok(value) =>
      if value < min then IntToString(min)
      else if max < value then IntToString(max)
      else text
  }

  /**
   * With min <= max, accepted text ends up as an int in [min, max]; a value already in range
   * keeps its text.
   */
  lemma CorrectedInRange(min: int, max: int, text: string)
    requires InInt32(min) && InInt32(max) && min <= max
    requires ParseInt(text).Ok?
    ensures var r := ParseInt(Corrected(min, max, text));
            r.Ok? && min <= r.value <= max &&
            (min <= ParseInt(text).value <= max ==> Corrected(min, max, text) == text)
  {
    ParseIntOfIntToString(min);
    ParseIntOfIntToString(max);
  }

  /** Verifying twice changes nothing more than verifying once. */
  lemma CorrectedIdempotent(min: int, max: int, text: string)
    requires InInt32(min) && InInt32(max) && min <= max
    ensures Corrected(min, max, Corrected(min, max, text)) == Corrected(min, max, text)
  {
    if ParseInt(text).Ok? {
      CorrectedInRange(min, max, text);
    }
  }

  /** Text that is not an int is never touched. */
  lemma UnparsableUnchanged(min: int, max: int, text: string)
    requires !IsIntegerLiteral(text) || !InInt32(LiteralValue(text))
    ensures Corrected(min, max, text) == text && ParseInt(text).Err?
  {
  }

  class IntegerInputVerifier {
    const min: int
    const max: int

    constructor (min: int, max: int)
      requires InInt32(min) && InInt32(max)
      ensures this.min == min && this.max == max
    {
      this.min := min;
      this.max := max;
    }

    /**
     * verify: true exactly when the field's text parses as an int; the text is then set to min
     * or max when the value lies outside [min, max]. The error beep is left out.
     */
    method Verify(field: TextField) returns (verified: bool)
      modifies field
      ensures verified <==> ParseInt(old(field.text)).Ok?
      ensures field.text == Corrected(min, max, old(field.text))
    {
      verified := false;
      var parsed := ParseInt(field.text);
      if parsed.Ok? {
        var value := parsed.value;
        if value < min {
          field.text := IntToString(min);
        } else if max < value {
          field.text := IntToString(max);
        }
        verified := true;
      }
    }
  }
}
