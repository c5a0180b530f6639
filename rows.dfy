/** The rows of a transaction's input and output lists, and the aggregates the
    view computes over them.

    Values are whole numbers of the currency's smallest unit.  `Sum` folds
    from the left, as `reduce((a, b) => a + b, 0)` does.
 */
module Rows {
  import opened AddressOrder

  /** One input or output row: an address and the amount it carries. */
  datatype Row = Row(address: string, value: int)

  /** The sum of all values of `rows`. */
  function Sum(rows: seq<Row>): (sum: int)
  {
    if |rows| == 0 then 0 else Sum(rows[..|rows| - 1]) + rows[|rows| - 1].value
  }

  /** How many rows of `rows` carry `address`. */
  function Count(rows: seq<Row>, address: string): (count: nat)
  {
    if |rows| == 0 then 0
    else Count(rows[..|rows| - 1], address) + (if rows[|rows| - 1].address == address then 1 else 0)
  }

  /** The sum of the values of the rows of `rows` that carry `address`. */
  function Total(rows: seq<Row>, address: string): (total: int)
  {
    if |rows| == 0 then 0
    else Total(rows[..|rows| - 1], address) + (if rows[|rows| - 1].address == address then rows[|rows| - 1].value else 0)
  }

  /** Every row's address is at least its predecessor's. */
  ghost predicate SortedByAddress(rows: seq<Row>)
  {
    forall k :: 0 < k < |rows| ==> !Less(rows[k].address, rows[k - 1].address)
  }

  /** Sorted by neighbours means sorted between any two positions. */
  lemma {:induction false} SortedByAddressPairwise(rows: seq<Row>, p: nat, q: nat)
    requires SortedByAddress(rows)
    requires p <= q < |rows|
    ensures !Less(rows[q].address, rows[p].address)
    decreases q - p
  {
    if p == q {
      LessIrreflexive(rows[p].address);
    } else {
      SortedByAddressPairwise(rows, p + 1, q);
      var a, b, c := rows[p].address, rows[p + 1].address, rows[q].address;
      if Less(c, a) {
        // c < a and a <= b force c < b, which contradicts b <= c
        if a != b {
          LessTotal(a, b);
          LessTransitive(c, a, b);
        }
        assert false;
      }
    }
  }

  /** Rows whose values are all non-negative have a non-negative sum. */
  lemma {:induction false} SumOfNonNegative(rows: seq<Row>)
    requires forall k :: 0 <= k < |rows| ==> rows[k].value >= 0
    ensures Sum(rows) >= 0
  {
    if |rows| > 0 {
      SumOfNonNegative(rows[..|rows| - 1]);
    }
  }

  /** An address that no row carries has a zero total. */
  lemma {:induction false} TotalOfAbsent(rows: seq<Row>, address: string)
    requires Count(rows, address) == 0
    ensures Total(rows, address) == 0
  {
    if |rows| > 0 {
      TotalOfAbsent(rows[..|rows| - 1], address);
    }
  }

  /** Sum, Count and Total distribute over concatenation. */
  lemma {:induction false} AggregatesAppend(s: seq<Row>, t: seq<Row>, address: string)
    ensures Sum(s + t) == Sum(s) + Sum(t)
    ensures Count(s + t, address) == Count(s, address) + Count(t, address)
    ensures Total(s + t, address) == Total(s, address) + Total(t, address)
  {
    if |t| == 0 {
      assert s + t == s;
    } else {
      var t' := t[..|t| - 1];
      assert (s + t)[..|s + t| - 1] == s + t';
      AggregatesAppend(s, t', address);
    }
  }

  /** Sum, Count and Total do not depend on the order of the rows. */
  lemma {:induction false} AggregatesOfPermutation(s: seq<Row>, t: seq<Row>, address: string)
    requires multiset(s) == multiset(t)
    ensures Sum(s) == Sum(t)
    ensures Count(s, address) == Count(t, address)
    ensures Total(s, address) == Total(t, address)
    decreases |s|
  {
    if |s| == 0 {
      assert |t| == |multiset(t)| == 0;
    } else {
      var last := s[|s| - 1];
      var front := s[..|s| - 1];
      var before, after := RemoveOne(s, t);
      AggregatesOfPermutation(front, before + after, address);
      AggregatesAppend(before, after, address);
      AggregatesAppend(before, [last], address);
      AggregatesAppend(before + [last], after, address);
      AggregatesAppend(front, [last], address);
      assert s == front + [last];
    }
  }

  /** Locates the last row of `s` in its permutation `t`; what is left on
      either side of it is a permutation of the rest of `s`. */
  lemma RemoveOne(s: seq<Row>, t: seq<Row>) returns (before: seq<Row>, after: seq<Row>)
    requires |s| > 0 && multiset(s) == multiset(t)
    ensures t == before + [s[|s| - 1]] + after
    ensures multiset(s[..|s| - 1]) == multiset(before + after)
  {
    var last := s[|s| - 1];
    assert s == s[..|s| - 1] + [last];
    assert last in multiset(t);
    var i :| 0 <= i < |t| && t[i] == last;
    before, after := t[..i], t[i + 1..];
    assert t == before + [last] + after;
    assert multiset(s[..|s| - 1]) == multiset(s) - multiset{last};
    assert multiset(before + after) == multiset(t) - multiset{last};
  }
}
