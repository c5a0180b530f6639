/** The order in which the transaction details view sorts row addresses.

    The component compares two addresses with JavaScript's `<` on strings:
    character by character from the left, the first differing character
    decides, and a proper prefix comes first.  The lemmas show that this is a
    strict total order, which is all that grouping equal addresses needs.
 */
module AddressOrder {

  /** `a < b` on two strings, lexicographically: at the first position where
      they differ, the smaller character decides; when one is a proper prefix
      of the other, the shorter comes first. */
  predicate Less(a: string, b: string): (less: bool)
  {
    if |a| == 0 then |b| > 0
    else if |b| == 0 then false
    else if a[0] != b[0] then a[0] < b[0]
    else Less(a[1..], b[1..])
  }

  /** A proper prefix sorts first, and nothing sorts before its own prefix. */
  lemma {:induction false} LessOfPrefix(a: string, b: string)
    requires |a| <= |b| && a == b[..|a|]
    ensures Less(a, b) <==> |a| < |b|
    ensures !Less(b, a)
  {
    if |a| > 0 {
      assert a[1..] == b[1..][..|a| - 1];
      LessOfPrefix(a[1..], b[1..]);
    }
  }

  /** At the first position where two strings differ, the smaller character
      decides. */
  lemma {:induction false} LessAtFirstDifference(a: string, b: string, k: nat)
    requires k < |a| && k < |b| && a[..k] == b[..k] && a[k] != b[k]
    ensures Less(a, b) <==> a[k] < b[k]
  {
    if k > 0 {
      assert a[1..][..k - 1] == a[..k][1..] == b[..k][1..] == b[1..][..k - 1];
      LessAtFirstDifference(a[1..], b[1..], k - 1);
    }
  }

  lemma {:induction false} LessIrreflexive(a: string)
    ensures !Less(a, a)
  {
    if |a| > 0 {
      LessIrreflexive(a[1..]);
    }
  }

  lemma {:induction false} LessAsymmetric(a: string, b: string)
    requires Less(a, b)
    ensures !Less(b, a)
  {
    if |a| > 0 && |b| > 0 && a[0] == b[0] {
      LessAsymmetric(a[1..], b[1..]);
    }
  }

  lemma {:induction false} LessTransitive(a: string, b: string, c: string)
    requires Less(a, b) && Less(b, c)
    ensures Less(a, c)
  {
    if |a| > 0 && a[0] == b[0] && b[0] == c[0] {
      LessTransitive(a[1..], b[1..], c[1..]);
    }
  }

  /** Two different addresses are always ordered one way or the other. */
  lemma {:induction false} LessTotal(a: string, b: string)
    requires a != b
    ensures Less(a, b) || Less(b, a)
  {
    if |a| > 0 && |b| > 0 && a[0] == b[0] {
      assert a == [a[0]] + a[1..] && b == [b[0]] + b[1..];
      LessTotal(a[1..], b[1..]);
    }
  }
}
