/** Collapsing repeated rows: the rows of one list are sorted by address, and
    every run of rows sharing an address becomes a single row carrying the
    run's summed value, labelled with the run's length when it is above one.
 */
module Collapse {
  import opened AddressOrder
  import opened Rows
  import opened Labels
  import opened Grouping

  /** Sorts `a` by address in place.  The view hands this to the array's own
      sort; only its outcome, a sorted permutation, is modelled. */
  method SortByAddress(a: array<Row>)
    modifies a
    ensures SortedByAddress(a[..])
    ensures multiset(a[..]) == old(multiset(a[..]))
  {
    for i := 0 to a.Length
      invariant SortedByAddress(a[..i])
      invariant multiset(a[..]) == old(multiset(a[..]))
    {
      SinkLast(a, i);
    }
    assert a[..a.Length] == a[..];
  }

  /** Moves `a[i]` leftwards past every larger address, so that the sorted
      prefix `a[..i]` grows by one. */
  method SinkLast(a: array<Row>, i: nat)
    requires i < a.Length && SortedByAddress(a[..i])
    modifies a
    ensures SortedByAddress(a[..i + 1])
    ensures forall k :: i < k < a.Length ==> a[k] == old(a[k])
    ensures multiset(a[..]) == old(multiset(a[..]))
  {
    var j := i;
    while j > 0 && Less(a[j].address, a[j - 1].address)
      invariant 0 <= j <= i
      invariant forall k :: 0 < k <= i && k != j && k != j + 1 ==> !Less(a[k].address, a[k - 1].address)
      invariant j < i ==> Less(a[j].address, a[j + 1].address)
      invariant 0 < j < i ==> !Less(a[j + 1].address, a[j - 1].address)
      invariant forall k :: i < k < a.Length ==> a[k] == old(a[k])
      invariant multiset(a[..]) == old(multiset(a[..]))
    {
      SwapWithPrevious(a, j);
      j := j - 1;
    }
    if j < i {
      LessAsymmetric(a[j].address, a[j + 1].address);
    }
  }

  method SwapWithPrevious(a: array<Row>, j: nat)
    requires 0 < j < a.Length
    modifies a
    ensures a[j - 1] == old(a[j]) && a[j] == old(a[j - 1])
    ensures forall k :: 0 <= k < a.Length && k != j - 1 && k != j ==> a[k] == old(a[k])
    ensures multiset(a[..]) == old(multiset(a[..]))
  {
    a[j - 1], a[j] := a[j], a[j - 1];
  }

  /** Appends the accumulated row, its address labelled with `count`. */
  method PushAccumulated(collapsed: seq<Row>, accumulated: Row, count: int) returns (pushed: seq<Row>)
    ensures pushed == collapsed + [Row(Label(accumulated.address, count), accumulated.value)]
    ensures |pushed| == |collapsed| + 1 && pushed[..|collapsed|] == collapsed
    ensures pushed[|collapsed|].value == accumulated.value
    ensures pushed[|collapsed|].address == accumulated.address <==> count <= 1
    ensures count > 1 ==> pushed[|collapsed|].address == accumulated.address + " (" + Decimal(count) + ")"
  {
    var row := accumulated;
    if count > 1 {
      row := row.(address := row.address + " (" + Decimal(count) + ")");
    }
    pushed := collapsed + [row];
    LabelIsBare(accumulated.address, count);
  }

  /** The walk over rows already sorted by address: a running accumulator and
      counter, one row pushed whenever the address changes and one at the end. */
  method CollapseSortedRows(rows: seq<Row>) returns (collapsed: seq<Row>)
    requires |rows| > 0 && SortedByAddress(rows)
    ensures collapsed == Collapsed(rows)
    ensures Sum(collapsed) == Sum(rows)
    ensures 1 <= |collapsed| <= |rows|
  {
    var accumulated := Row(rows[0].address, 0);
    var countSameAddress := 0;
    collapsed := [];
    ghost var bases := [];
    for i := 0 to |rows|
      invariant Walked(rows, i, collapsed, bases, accumulated, countSameAddress)
    {
      collapsed, bases, accumulated, countSameAddress := VisitRow(rows, i, collapsed, bases, accumulated, countSameAddress);
    }
    assert rows[..|rows|] == rows;
    collapsed := PushAccumulated(collapsed, accumulated, countSameAddress);
    CollapsedFormDetermines(collapsed, bases + [accumulated.address], rows);
  }

  /** What the walk knows once it has visited the first `i` rows: the counter
      and the accumulator cover the run of the current address, and flushing
      the accumulator would give the collapsed form of the rows visited. */
  ghost predicate Walked(rows: seq<Row>, i: nat, collapsed: seq<Row>, bases: seq<string>, accumulated: Row, count: int)
    requires i <= |rows|
  {
    && |collapsed| == |bases|
    && count == Count(rows[..i], accumulated.address)
    && accumulated.value == Total(rows[..i], accumulated.address)
    && Sum(collapsed) + accumulated.value == Sum(rows[..i])
    && (i == 0 ==> |rows| > 0 && accumulated == Row(rows[0].address, 0) && bases == [])
    && (i > 0 ==>
          && accumulated.address == rows[i - 1].address
          && |bases| < i
          && CollapsedForm(collapsed + [Row(Label(accumulated.address, count), accumulated.value)],
                           bases + [accumulated.address], rows[..i]))
  }

  /** The loop body: visiting row `i` either extends the current run or
      pushes the accumulated row and starts a run for the new address. */
  method VisitRow(rows: seq<Row>, i: nat, collapsed: seq<Row>, ghost bases: seq<string>, accumulated: Row, count: int)
    returns (collapsed': seq<Row>, ghost bases': seq<string>, accumulated': Row, count': int)
    requires i < |rows| && SortedByAddress(rows)
    requires Walked(rows, i, collapsed, bases, accumulated, count)
    ensures Walked(rows, i + 1, collapsed', bases', accumulated', count')
  {
    var row := rows[i];
    var newAddress := row.address != accumulated.address;
    collapsed', bases', accumulated' := collapsed, bases, accumulated;
    if newAddress {
      WalkOntoNewAddress(rows, i, collapsed, bases, accumulated, count);
      collapsed' := PushAccumulated(collapsed, accumulated, count);
      bases' := bases + [accumulated.address];
      accumulated' := Row(row.address, 0);
    } else {
      WalkOnSameAddress(rows, i, collapsed, bases, accumulated, count);
    }
    count' := if newAddress then 1 else count + 1;
    accumulated' := accumulated'.(value := accumulated'.value + row.value);
  }

  lemma WalkOnSameAddress(rows: seq<Row>, i: nat, collapsed: seq<Row>, bases: seq<string>, accumulated: Row, count: int)
    requires i < |rows| && Walked(rows, i, collapsed, bases, accumulated, count)
    requires rows[i].address == accumulated.address
    ensures Walked(rows, i + 1, collapsed, bases, accumulated.(value := accumulated.value + rows[i].value), count + 1)
  {
    var row := rows[i];
    PrefixStep(rows, i);
    if i == 0 {
      CollapsedFormOfOne(row);
    } else {
      var flushed := collapsed + [Row(Label(accumulated.address, count), accumulated.value)];
      assert flushed[..|flushed| - 1] == collapsed;
      ExtendWithSameAddress(flushed, bases + [accumulated.address], rows[..i], row);
    }
  }

  lemma WalkOntoNewAddress(rows: seq<Row>, i: nat, collapsed: seq<Row>, bases: seq<string>, accumulated: Row, count: int)
    requires i < |rows| && SortedByAddress(rows) && Walked(rows, i, collapsed, bases, accumulated, count)
    requires rows[i].address != accumulated.address
    ensures Walked(rows, i + 1, collapsed + [Row(Label(accumulated.address, count), accumulated.value)],
                   bases + [accumulated.address], Row(rows[i].address, rows[i].value), 1)
  {
    var row := rows[i];
    PrefixStep(rows, i);
    assert Less(accumulated.address, row.address) by {
      LessTotal(accumulated.address, row.address);
    }
    var pushed := collapsed + [Row(Label(accumulated.address, count), accumulated.value)];
    assert pushed[..|collapsed|] == collapsed;
    ExtendWithNewAddress(pushed, bases + [accumulated.address], rows[..i], row);
  }

  /** What one more row adds to the aggregates of a prefix. */
  lemma PrefixStep(rows: seq<Row>, i: nat)
    requires i < |rows|
    ensures rows[..i + 1] == rows[..i] + [rows[i]]
    ensures Count(rows[..i + 1], rows[i].address) == Count(rows[..i], rows[i].address) + 1
    ensures Total(rows[..i + 1], rows[i].address) == Total(rows[..i], rows[i].address) + rows[i].value
    ensures Sum(rows[..i + 1]) == Sum(rows[..i]) + rows[i].value
  {
  }

  /** One more row with the last base's address adds one to that base's count
      and its value to that base's total. */
  lemma ExtendWithSameAddress(out: seq<Row>, bases: seq<string>, prefix: seq<Row>, row: Row)
    requires CollapsedForm(out, bases, prefix)
    requires |bases| > 0 && row.address == bases[|bases| - 1]
    ensures var a := row.address;
      CollapsedForm(out[..|out| - 1] + [Row(Label(a, Count(prefix, a) + 1), Total(prefix, a) + row.value)],
                    bases, prefix + [row])
  {
    var a := row.address;
    var extended := prefix + [row];
    assert extended[..|prefix|] == prefix;
    var out' := out[..|out| - 1] + [Row(Label(a, Count(prefix, a) + 1), Total(prefix, a) + row.value)];
    forall k | 0 <= k < |bases| - 1
      ensures out'[k] == Row(Label(bases[k], Count(extended, bases[k])), Total(extended, bases[k]))
    {
      LessIrreflexive(a);
    }
  }

  /** A row whose address lies above every base starts a new group. */
  lemma ExtendWithNewAddress(out: seq<Row>, bases: seq<string>, prefix: seq<Row>, row: Row)
    requires CollapsedForm(out, bases, prefix)
    requires |bases| > 0 && Less(bases[|bases| - 1], row.address)
    ensures Count(prefix, row.address) == 0 && Total(prefix, row.address) == 0
    ensures CollapsedForm(out + [Row(Label(row.address, 1), row.value)], bases + [row.address], prefix + [row])
  {
    var next := row.address;
    var extended := prefix + [row];
    assert extended[..|prefix|] == prefix;
    forall k | 0 <= k < |bases| ensures Less(bases[k], next) && bases[k] != next {
      if k < |bases| - 1 {
        LessTransitive(bases[k], bases[|bases| - 1], next);
      }
      LessIrreflexive(next);
    }
    assert next !in bases;
    TotalOfAbsent(prefix, next);
  }

  /** `collapseRepeatedRows`: an empty list is handed back as it is; any other
      list is sorted in place and walked into a fresh collapsed list. */
  method CollapseRepeatedRows(rows: array<Row>) returns (collapsed: array<Row>)
    modifies rows
    ensures rows.Length == 0 ==> collapsed == rows
    ensures rows.Length > 0 ==> fresh(collapsed) && 1 <= collapsed.Length <= rows.Length
    ensures SortedByAddress(rows[..]) && multiset(rows[..]) == old(multiset(rows[..]))
    ensures collapsed[..] == Collapsed(old(rows[..]))
    ensures Sum(collapsed[..]) == Sum(old(rows[..]))
  {
    if rows.Length == 0 {
      assert rows[..] == [];
      return rows;
    }
    SortByAddress(rows);
    var sorted := rows[..];
    var walked := CollapseSortedRows(sorted);
    collapsed := new Row[|walked|](k requires 0 <= k < |walked| => walked[k]);
    assert collapsed[..] == walked;
    CollapsedOfPermutation(sorted, old(rows[..]));
    AggregatesOfPermutation(sorted, old(rows[..]), "");
  }
}
