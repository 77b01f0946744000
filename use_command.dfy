/**
 * The argument check of the `/use <n>` command: the stripped message text is
 * split on white space, there must be exactly two words, and the second must
 * be a number; `int()` then turns it into the chat id to switch to.
 */
module UseCommand {
  import opened Wrappers
  import opened Text

  /** What the check and the `int()` call that follows it make of a message. */
  datatype Parsed =
    | Usage               // the usage hint is sent
    | ChatNumber(n: nat)  // the chat id to look up
    | ValueError          // `int()` raised: the handler stops with an exception

  /**
   * The check as written: `str.isdigit()` lets through superscript, subscript
   * and circled digits, which `int()` then refuses.
   */
  function UseArgAsWritten(text: string): Parsed
  {
    var parts := Words(Strip(text));
    if |parts| != 2 || !AllDigits(parts[1]) then Usage
    else if AllDecimal(parts[1]) then ChatNumber(DecimalValue(parts[1]))
    else ValueError
  }

  /** The check as written raises on `/use ²`. */
  lemma UseArgAsWrittenRaises()
    ensures UseArgAsWritten("/use \U{b2}") == ValueError
  {
    var text := "/use \U{b2}";
    var arg := "\U{b2}";
    StripUnpadded(text);
    assert text == "/use" + " " + arg;
    WordsOfTwo("/use", arg);
    assert Words(Strip(text)) == ["/use", arg];
    assert AllDigits(arg) && !AllDecimal(arg) by {
      assert arg[0] == '\U{b2}';
    }
  }

  /** The check as intended: the second word must be made of decimal digits, the ones `int()` accepts. */
  function UseArg(text: string): Option<nat>
  {
    var parts := Words(Strip(text));
    if |parts| == 2 && AllDecimal(parts[1]) then Some(DecimalValue(parts[1])) else None
  }

  /**
   * The intended check agrees with the written one wherever the written one
   * does not raise, and where it raises the intended one sends the usage hint.
   */
  lemma UseArgAgreesWithWritten(text: string)
    ensures UseArgAsWritten(text) == Usage ==> UseArg(text) == None
    ensures UseArgAsWritten(text) == ValueError ==> UseArg(text) == None
    ensures forall n: nat :: UseArgAsWritten(text) == ChatNumber(n) <==> UseArg(text) == Some(n)
  {
    var parts := Words(Strip(text));
    if |parts| == 2 && AllDecimal(parts[1]) {
      assert AllDigits(parts[1]);
    }
  }

  /** `/use 12` selects chat 12: the command with any chat number reads back that number. */
  lemma UseArgReadsNumber(n: nat)
    ensures UseArg("/use " + NatToString(n)) == Some(n)
  {
    var digits := NatToString(n);
    var text := "/use " + digits;
    NatToStringIsCanonical(n);
    DecimalValueOfNatToString(n);
    assert text[|text| - 1] == digits[|digits| - 1];
    StripUnpadded(text);
    assert NoSpace(digits);
    assert text == "/use" + " " + digits;
    WordsOfTwo("/use", digits);
    assert Words(Strip(text)) == ["/use", digits];
  }
}
