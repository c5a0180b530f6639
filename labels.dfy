/** The label of a collapsed row: the bare address when one row had
    it, `address + " (N)"` when N > 1 rows shared it.  `N` is written as a
    template literal writes a whole number: its decimal digits.
 */
module Labels {

  /** The decimal digit character for `d`. */
  function DigitChar(d: nat): (c: char)
    requires d < 10
    ensures '0' <= c <= '9'
    ensures c as int - '0' as int == d
  {
    ('0' as int + d) as char
  }

  /** `n` in decimal, without leading zeros. */
  function Decimal(n: nat): (s: string)
    ensures |s| > 0
    ensures forall k :: 0 <= k < |s| ==> '0' <= s[k] <= '9'
    ensures s[0] == '0' ==> n == 0
  {
    if n < 10 then [DigitChar(n)] else Decimal(n / 10) + [DigitChar(n % 10)]
  }

  /** Reads a string of decimal digits back as a number. */
  function ParseDecimal(s: string): (n: nat)
    requires forall k :: 0 <= k < |s| ==> '0' <= s[k] <= '9'
  {
    if |s| == 0 then 0
    else ParseDecimal(s[..|s| - 1]) * 10 + (s[|s| - 1] as int - '0' as int)
  }

  lemma {:induction false} DecimalRoundTrip(n: nat)
    ensures ParseDecimal(Decimal(n)) == n
  {
    if n >= 10 {
      var front := Decimal(n / 10);
      assert (front + [DigitChar(n % 10)])[..|front|] == front;
      DecimalRoundTrip(n / 10);
    }
  }

  /** The address shown for a group of `count` rows sharing `address`. */
  function Label(address: string, count: int): (shown: string)
  {
    if count > 1 then address + " (" + Decimal(count) + ")" else address
  }

  /** The label always starts with the address, and is longer exactly when it
      carries a suffix. */
  lemma LabelExtendsAddress(address: string, count: int)
    ensures var shown := Label(address, count);
      |address| <= |shown| && shown[..|address|] == address
      && (|shown| == |address| <==> count <= 1)
  {
  }

  /** The label is the bare address exactly when at most one row had it. */
  lemma LabelIsBare(address: string, count: int)
    ensures Label(address, count) == address <==> count <= 1
  {
  }

  /** A suffixed label starts with the address, and its parenthesised suffix
      reads back as the count. */
  lemma LabelRecoversCount(address: string, count: int)
    requires count > 1
    ensures var shown := Label(address, count);
      && |shown| >= |address| + 3
      && shown[..|address|] == address
      && shown[|address|..|address| + 2] == " ("
      && shown[|shown| - 1] == ')'
      && (forall k :: |address| + 2 <= k < |shown| - 1 ==> '0' <= shown[k] <= '9')
      && ParseDecimal(shown[|address| + 2..|shown| - 1]) == count
  {
    var digits := Decimal(count);
    var shown := Label(address, count);
    assert shown == address + " (" + digits + ")";
    assert shown[|address| + 2..|shown| - 1] == digits;
    DecimalRoundTrip(count);
  }
}
