/** What collapsing repeated rows is meant to produce, stated without the
    walk: one row per distinct address, in ascending address order, carrying
    the address's label and total.
 */
module Grouping {
  import opened AddressOrder
  import opened Rows
  import opened Labels

  /** Every address is strictly below every later one. */
  ghost predicate StrictlyIncreasing(addresses: seq<string>)
  {
    forall k, l :: 0 <= k < l < |addresses| ==> Less(addresses[k], addresses[l])
  }

  /** The single row that stands for all rows of `input` carrying `address`. */
  function GroupRow(input: seq<Row>, address: string): (row: Row)
  {
    Row(Label(address, Count(input, address)), Total(input, address))
  }

  /** `out` is a collapsed form of `input`, row `k` standing for the address
      `bases[k]`: the bases are the distinct addresses of `input` in ascending
      order, and each row is its base's group row. */
  ghost predicate CollapsedForm(out: seq<Row>, bases: seq<string>, input: seq<Row>)
  {
    && |out| == |bases|
    && StrictlyIncreasing(bases)
    && (forall x :: x in bases <==> Count(input, x) > 0)
    && (forall k :: 0 <= k < |bases| ==> out[k] == GroupRow(input, bases[k]))
  }

  /** Adds `x` to the ascending list `addresses` unless it is there already. */
  function InsertAddress(addresses: seq<string>, x: string): (inserted: seq<string>)
  {
    if |addresses| == 0 then [x]
    else if addresses[0] == x then addresses
    else if Less(x, addresses[0]) then [x] + addresses
    else [addresses[0]] + InsertAddress(addresses[1..], x)
  }

  /** The distinct addresses of `input`, in ascending order. */
  function Bases(input: seq<Row>): (bases: seq<string>)
  {
    if |input| == 0 then []
    else InsertAddress(Bases(input[..|input| - 1]), input[|input| - 1].address)
  }

  /** The collapsed form of `input`. */
  function Collapsed(input: seq<Row>): (out: seq<Row>)
  {
    var bases := Bases(input);
    seq(|bases|, k requires 0 <= k < |bases| => GroupRow(input, bases[k]))
  }

  lemma {:induction false} InsertAddressKeepsOrder(addresses: seq<string>, x: string)
    requires StrictlyIncreasing(addresses)
    ensures StrictlyIncreasing(InsertAddress(addresses, x))
    ensures forall y :: y in InsertAddress(addresses, x) <==> y in addresses || y == x
  {
    if |addresses| == 0 || addresses[0] == x {
    } else if Less(x, addresses[0]) {
      var r := [x] + addresses;
      forall l | 0 < l < |r| ensures Less(x, r[l]) {
        if l > 1 {
          LessTransitive(x, addresses[0], r[l]);
        }
      }
    } else {
      var first := addresses[0];
      LessTotal(x, first);
      var rest := InsertAddress(addresses[1..], x);
      InsertAddressKeepsOrder(addresses[1..], x);
      var r := [first] + rest;
      forall l | 0 < l < |r| ensures Less(first, r[l]) {
        assert r[l] == rest[l - 1] && rest[l - 1] in rest;
        if r[l] != x {
          var m :| 0 <= m < |addresses[1..]| && addresses[1..][m] == r[l];
          assert addresses[m + 1] == r[l];
        }
      }
      assert addresses == [first] + addresses[1..];
    }
  }

  /** `Bases` lists exactly the addresses that occur, each once, ascending. */
  lemma {:induction false} BasesAreTheAddresses(input: seq<Row>)
    ensures StrictlyIncreasing(Bases(input))
    ensures forall x :: x in Bases(input) <==> Count(input, x) > 0
  {
    if |input| > 0 {
      BasesAreTheAddresses(input[..|input| - 1]);
      InsertAddressKeepsOrder(Bases(input[..|input| - 1]), input[|input| - 1].address);
    }
  }

  /** There is at least one collapsed row for a nonempty list, and never
      more than there are rows. */
  lemma {:induction false} CollapsedSize(input: seq<Row>)
    ensures |Collapsed(input)| <= |input|
    ensures |input| > 0 ==> |Collapsed(input)| > 0
  {
    if |input| > 0 {
      CollapsedSize(input[..|input| - 1]);
      InsertAddressSize(Bases(input[..|input| - 1]), input[|input| - 1].address);
    }
  }

  lemma {:induction false} InsertAddressSize(addresses: seq<string>, x: string)
    ensures 0 < |InsertAddress(addresses, x)| <= |addresses| + 1
  {
    if |addresses| > 0 && addresses[0] != x && !Less(x, addresses[0]) {
      InsertAddressSize(addresses[1..], x);
    }
  }

  lemma CollapsedIsCollapsedForm(input: seq<Row>)
    ensures CollapsedForm(Collapsed(input), Bases(input), input)
  {
    BasesAreTheAddresses(input);
  }

  /** Without its first address, a strictly increasing list holds exactly the
      other addresses. */
  lemma TailMembers(addresses: seq<string>)
    requires StrictlyIncreasing(addresses) && |addresses| > 0
    ensures forall x :: x in addresses[1..] <==> x in addresses && x != addresses[0]
  {
    forall x | x in addresses[1..] ensures x != addresses[0] {
      var k :| 1 <= k < |addresses| && addresses[k] == x;
      LessIrreflexive(x);
    }
    forall x | x in addresses && x != addresses[0] ensures x in addresses[1..] {
      var k :| 0 <= k < |addresses| && addresses[k] == x;
      assert addresses[1..][k - 1] == x;
    }
  }

  lemma SameMembersBothEmpty(b1: seq<string>, b2: seq<string>)
    requires forall x :: x in b1 <==> x in b2
    ensures |b1| == 0 <==> |b2| == 0
  {
    if |b1| > 0 {
      assert b1[0] in b2;
    }
    if |b2| > 0 {
      assert b2[0] in b1;
    }
  }

  /** Two strictly increasing lists with the same addresses are the same list. */
  lemma {:induction false} StrictlyIncreasingUnique(b1: seq<string>, b2: seq<string>)
    requires StrictlyIncreasing(b1) && StrictlyIncreasing(b2)
    requires forall x :: x in b1 <==> x in b2
    ensures b1 == b2
    decreases |b1|
  {
    SameMembersBothEmpty(b1, b2);
    if |b1| > 0 {
      if b1[0] != b2[0] {
        assert b1[0] in b2 && b2[0] in b1;
        var l :| 0 <= l < |b2| && b2[l] == b1[0];
        var k :| 0 <= k < |b1| && b1[k] == b2[0];
        LessAsymmetric(b1[0], b2[0]);
        assert false;
      }
      TailMembers(b1);
      TailMembers(b2);
      StrictlyIncreasingUnique(b1[1..], b2[1..]);
      assert b1 == [b1[0]] + b1[1..] && b2 == [b2[0]] + b2[1..];
    }
  }

  /** The characterisation pins the result down: whatever satisfies it is
      `Collapsed(input)`. */
  lemma CollapsedFormDetermines(out: seq<Row>, bases: seq<string>, input: seq<Row>)
    requires CollapsedForm(out, bases, input)
    ensures bases == Bases(input) && out == Collapsed(input)
  {
    BasesAreTheAddresses(input);
    StrictlyIncreasingUnique(bases, Bases(input));
  }

  /** The collapsed form depends on the rows only, not on their order. */
  lemma CollapsedOfPermutation(s: seq<Row>, t: seq<Row>)
    requires multiset(s) == multiset(t)
    ensures Collapsed(s) == Collapsed(t)
  {
    forall x ensures Count(s, x) == Count(t, x) && Total(s, x) == Total(t, x) {
      AggregatesOfPermutation(s, t, x);
    }
    CollapsedIsCollapsedForm(s);
    CollapsedFormDetermines(Collapsed(s), Bases(s), t);
  }

  lemma CollapsedFormOfOne(row: Row)
    ensures CollapsedForm([row], [row.address], [row])
    ensures row == Row(Label(row.address, 1), row.value)
  {
    assert [row][..0] == [];
    forall x
      ensures Count([row], x) == (if x == row.address then 1 else 0)
      ensures Total([row], x) == (if x == row.address then row.value else 0)
    {
      assert Count([row][..0], x) == 0 && Total([row][..0], x) == 0;
    }
    assert GroupRow([row], row.address) == row;
  }

  /** A lone row comes back as it is, its address bare. */
  lemma CollapsedOfOne(row: Row)
    ensures Collapsed([row]) == [row]
  {
    CollapsedFormOfOne(row);
    CollapsedFormDetermines([row], [row.address], [row]);
  }

  /** Rows for "B", "A", "A" collapse to "A (2)" carrying both A values,
      followed by "B". */
  lemma CollapseExample(a1: int, a2: int, b: int)
    ensures Collapsed([Row("B", b), Row("A", a1), Row("A", a2)]) == [Row("A (2)", a1 + a2), Row("B", b)]
  {
    var input := [Row("B", b), Row("A", a1), Row("A", a2)];
    assert input[..2] == [Row("B", b), Row("A", a1)];
    assert input[..2][..1] == [Row("B", b)];
    assert [Row("B", b)][..0] == [];
    forall x
      ensures Count(input, x) == (if x == "A" then 2 else if x == "B" then 1 else 0)
      ensures Total(input, x) == (if x == "A" then a1 + a2 else if x == "B" then b else 0)
    {
      assert Count([Row("B", b)], x) == (if x == "B" then 1 else 0);
      assert Total([Row("B", b)], x) == (if x == "B" then b else 0);
      assert Count(input[..2], x) == (if x == "A" then 1 else if x == "B" then 1 else 0);
      assert Total(input[..2], x) == (if x == "A" then a1 else if x == "B" then b else 0);
    }
    assert Less("A", "B");
    assert Label("A", 2) == "A (2)" by {
      assert Decimal(2) == [DigitChar(2)] == "2";
    }
    assert CollapsedForm([Row("A (2)", a1 + a2), Row("B", b)], ["A", "B"], input);
    CollapsedFormDetermines([Row("A (2)", a1 + a2), Row("B", b)], ["A", "B"], input);
  }

  /** Distinct addresses give distinct rows, but a shown label can equal
      another address's label: rows "A", "A", "A (2)" collapse to two rows
      that both read "A (2)". */
  lemma CollapsedLabelsCollide(x: int, y: int, z: int)
    ensures var out := Collapsed([Row("A", x), Row("A", y), Row("A (2)", z)]);
      |out| == 2 && out[0].address == out[1].address
  {
    var input := [Row("A", x), Row("A", y), Row("A (2)", z)];
    assert input[..2] == [Row("A", x), Row("A", y)];
    assert input[..2][..1] == [Row("A", x)];
    assert [Row("A", x)][..0] == [];
    forall w
      ensures Count(input, w) == (if w == "A" then 2 else if w == "A (2)" then 1 else 0)
      ensures Total(input, w) == (if w == "A" then x + y else if w == "A (2)" then z else 0)
    {
      assert Count([Row("A", x)], w) == (if w == "A" then 1 else 0);
      assert Total([Row("A", x)], w) == (if w == "A" then x else 0);
      assert Count(input[..2], w) == (if w == "A" then 2 else 0);
      assert Total(input[..2], w) == (if w == "A" then x + y else 0);
    }
    assert Less("A", "A (2)");
    assert Label("A", 2) == "A (2)" by {
      assert Decimal(2) == [DigitChar(2)] == "2";
    }
    assert CollapsedForm([Row("A (2)", x + y), Row("A (2)", z)], ["A", "A (2)"], input);
    CollapsedFormDetermines([Row("A (2)", x + y), Row("A (2)", z)], ["A", "A (2)"], input);
  }
}
