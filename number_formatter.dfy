/** `addNumberPrefix`: how the bot prints a world coordinate in its replies. */
module NumberFormatter {
  import opened Wrappers
  import opened Digits

  /**
   * A positive coordinate gets an explicit `+`; zero and negative numbers are
   * rendered as JavaScript renders them.
   */
  function AddNumberPrefix(num: int): (r: string)
    ensures |r| > 0
    ensures r[0] == '+' <==> num > 0
    ensures ParseInteger(DropPlus(r)) == Some(num)
  {
    IntRoundTrip(num);
    if num > 0 then "+" + IntToString(num) else IntToString(num)
  }

  /** The string without one leading `+`. */
  function DropPlus(s: string): string {
    if |s| > 0 && s[0] == '+' then s[1..] else s
  }

  /** The three cases of the unit tests: 5, -5 and 0. */
  lemma PrefixExamples()
    ensures AddNumberPrefix(5) == "+5"
    ensures AddNumberPrefix(-5) == "-5"
    ensures AddNumberPrefix(0) == "0"
  {
    assert NatToString(5) == "5";
    assert NatToString(0) == "0";
  }

  /** For a positive number the result is `+` followed by its decimal digits. */
  lemma PositiveShape(num: int)
    requires num > 0
    ensures AddNumberPrefix(num) == "+" + NatToString(num)
    ensures AllDigits(AddNumberPrefix(num)[1..])
  {
    assert AddNumberPrefix(num)[1..] == NatToString(num);
  }

  /** A negative number keeps its `-` and is otherwise the decimal of its magnitude. */
  lemma NonPositiveShape(num: int)
    requires num <= 0
    ensures AddNumberPrefix(num) == IntToString(num)
    ensures num < 0 ==> AddNumberPrefix(num) == "-" + NatToString(-num)
    ensures num == 0 ==> AddNumberPrefix(num) == "0"
  {
  }
}
