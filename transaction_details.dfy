/** The transaction details view: it holds the transaction last retrieved,
    collapses its input and output lists as it arrives, and computes the fee
    shown beside them.
 */
module TransactionDetails {
  import opened Rows
  import opened Grouping
  import opened Collapse

  /** A transaction as the backend returns it.  Either list may be absent. */
  class Transaction {
    var txid: string
    var input: array?<Row>
    var output: array?<Row>

    constructor (txid: string, input: array?<Row>, output: array?<Row>)
      ensures this.txid == txid && this.input == input && this.output == output
    {
      this.txid := txid;
      this.input := input;
      this.output := output;
    }
  }

  function Max(a: int, b: int): (m: int)
    ensures m >= a && m >= b
    ensures m == a || m == b
  {
    if a < b then b else a
  }

  class TransactionDetailsComponent {
    /** The transaction on display; null until the first one arrives. */
    var transaction: Transaction?

    constructor ()
      ensures transaction == null
    {
      transaction := null;
    }

    /** `onTransactionRetrieved`: the response becomes the transaction on
        display, and its input and then its output list are replaced by their
        collapsed forms (each list is first sorted in place).  An absent list
        makes the collapse throw; `thrown` reports that, and the lists not yet
        reached are left as they were. */
    method OnTransactionRetrieved(response: Transaction) returns (thrown: bool)
      modifies this, response, response.input, response.output
      ensures transaction == response && response.txid == old(response.txid)
      ensures thrown <==> old(response.input) == null || old(response.output) == null
      ensures old(response.input) == null ==>
                response.input == null && response.output == old(response.output)
                && (response.output != null ==> response.output[..] == old(response.output[..]))
      ensures old(response.input) != null ==>
                response.input != null
                && response.input[..] == Collapsed(old(response.input[..]))
                && Sum(response.input[..]) == Sum(old(response.input[..]))
      ensures old(response.input) != null && old(response.output) == null ==> response.output == null
      ensures old(response.input) != null && old(response.output) != null ==>
                response.output != null
                && response.output[..] == Collapsed(old(response.output[..]))
                && Sum(response.output[..]) == Sum(old(response.output[..]))
      ensures old(response.input) != null ==>
                SortedByAddress(old(response.input)[..])
                && multiset(old(response.input)[..]) == old(multiset(response.input[..]))
      ensures old(response.input) != null && old(response.output) != null ==>
                SortedByAddress(old(response.output)[..])
                && multiset(old(response.output)[..]) == old(multiset(response.output[..]))
      ensures !thrown ==> response.output != null && GetFee(response) == old(GetFee(response))
    {
      transaction := response;
      if response.input == null {
        return true;
      }
      ghost var outputBefore := if response.output == null then [] else response.output[..];
      CollapseInput(response);
      if response.output == null {
        return true;
      }
      ghost var outputSorted := response.output[..];
      CollapseOutput(response);
      CollapsedOfPermutation(outputSorted, outputBefore);
      AggregatesOfPermutation(outputSorted, outputBefore, "");
      thrown := false;
    }

    /** The first assignment of `onTransactionRetrieved`: the input list is
        replaced by its collapsed form.  The output list, which may be the
        same array, can only have been reordered. */
    method CollapseInput(tx: Transaction)
      requires tx.input != null
      modifies tx, tx.input
      ensures tx.txid == old(tx.txid) && tx.output == old(tx.output)
      ensures tx.input != null && tx.input[..] == Collapsed(old(tx.input[..]))
      ensures Sum(tx.input[..]) == Sum(old(tx.input[..]))
      ensures tx.input.Length == 0 || fresh(tx.input)
      ensures SortedByAddress(old(tx.input)[..]) && multiset(old(tx.input)[..]) == old(multiset(tx.input[..]))
      ensures tx.output != null ==> multiset(tx.output[..]) == old(multiset(tx.output[..]))
      ensures tx.output != null && tx.output != old(tx.input) ==> tx.output[..] == old(tx.output[..])
    {
      var input := CollapseRepeatedRows(tx.input);
      tx.input := input;
    }

    /** The second assignment: the output list is replaced by its collapsed
        form, the input list left as it is unless it is that same array. */
    method CollapseOutput(tx: Transaction)
      requires tx.output != null
      modifies tx, tx.output
      ensures tx.txid == old(tx.txid) && tx.input == old(tx.input)
      ensures tx.output != null && tx.output[..] == Collapsed(old(tx.output[..]))
      ensures Sum(tx.output[..]) == Sum(old(tx.output[..]))
      ensures SortedByAddress(old(tx.output)[..]) && multiset(old(tx.output)[..]) == old(multiset(tx.output[..]))
      ensures tx.input != null && tx.input != old(tx.output) ==> tx.input[..] == old(tx.input[..])
    {
      var output := CollapseRepeatedRows(tx.output);
      tx.output := output;
    }

    /** `getVIN`: the sum of the input values; an absent or empty input list
        counts as zero. */
    function GetVIN(tx: Transaction): (vin: int)
      reads tx, tx.input
      ensures tx.input == null ==> vin == 0
      ensures tx.input != null ==> vin == Sum(tx.input[..])
    {
      if tx.input == null || tx.input.Length == 0 then 0 else Sum(tx.input[..])
    }

    /** `getFee`: what the inputs carry beyond the outputs, never below zero. */
    function GetFee(tx: Transaction): (fee: int)
      reads tx, tx.input, tx.output
      requires tx.output != null
      ensures fee >= 0 && fee >= GetVIN(tx) - Sum(tx.output[..])
      ensures fee == 0 || fee == GetVIN(tx) - Sum(tx.output[..])
    {
      var vout := Sum(tx.output[..]);
      Max(0, GetVIN(tx) - vout)
    }
  }
}
