/**
 * The wrap-around cursor over the packet list that both the packet table
 * and the application view keep: a table selection and a scrollbar.
 */
module TableCursor {
  import opened Wrappers

  /** The table's selection (the part of the table widget's state the model keeps). */
  datatype TableState = TableState(selected: Option<nat>)

  datatype ScrollbarState = ScrollbarState(contentLength: nat, position: nat)

  /** `next_row`: one row down, wrapping from the last row (or an empty list) to the first. */
  function NextIndex(selected: Option<nat>, packetsLen: nat): nat
  {
    match selected
    case None => 0
    case Some(i) => if packetsLen == 0 || i >= packetsLen - 1 then 0 else i + 1
  }

  /** `previous_row`: one row up, wrapping from the first row to the last. */
  function PreviousIndex(selected: Option<nat>, packetsLen: nat): nat
  {
    match selected
    case None => 0
    case Some(i) =>
      if i == 0 then (if packetsLen > 0 then packetsLen - 1 else 0)
      else i - 1
  }

  /** Moving down lands on a row of a non-empty list, on row 0 of an empty one, and on row 0 with no selection. */
  lemma NextIndexInRange(selected: Option<nat>, packetsLen: nat)
    ensures packetsLen > 0 ==> NextIndex(selected, packetsLen) < packetsLen
    ensures packetsLen == 0 ==> NextIndex(selected, packetsLen) == 0
    ensures selected.None? ==> NextIndex(selected, packetsLen) == 0
  {
  }

  /**
   * Moving up from a row of the list lands on a row of the list; with no
   * selection it lands on row 0.  (From a selection past the end it only
   * steps back by one.)
   */
  lemma PreviousIndexInRange(selected: Option<nat>, packetsLen: nat)
    ensures selected.Some? && selected.value < packetsLen ==> PreviousIndex(selected, packetsLen) < packetsLen
    ensures selected.Some? && selected.value >= packetsLen && selected.value > 0 ==>
              PreviousIndex(selected, packetsLen) == selected.value - 1
    ensures selected.None? ==> PreviousIndex(selected, packetsLen) == 0
  {
  }

  /** Up undoes down and down undoes up, on every row of the list. */
  lemma MovesAreInverse(i: nat, packetsLen: nat)
    requires i < packetsLen
    ensures PreviousIndex(Some(NextIndex(Some(i), packetsLen)), packetsLen) == i
    ensures NextIndex(Some(PreviousIndex(Some(i), packetsLen)), packetsLen) == i
  {
  }

  /** Row `i` after `k` moves down. */
  function NextIterate(i: nat, packetsLen: nat, k: nat): nat
  {
    if k == 0 then i else NextIndex(Some(NextIterate(i, packetsLen, k - 1)), packetsLen)
  }

  /** Row `i` after `k` moves up. */
  function PreviousIterate(i: nat, packetsLen: nat, k: nat): nat
  {
    if k == 0 then i else PreviousIndex(Some(PreviousIterate(i, packetsLen, k - 1)), packetsLen)
  }

  /** Moves compose: `a` moves and then `b` moves are `a + b` moves. */
  lemma {:induction false} NextIterateCompose(i: nat, packetsLen: nat, a: nat, b: nat)
    ensures NextIterate(NextIterate(i, packetsLen, a), packetsLen, b) == NextIterate(i, packetsLen, a + b)
  {
    if b > 0 {
      NextIterateCompose(i, packetsLen, a, b - 1);
    }
  }

  lemma {:induction false} PreviousIterateCompose(i: nat, packetsLen: nat, a: nat, b: nat)
    ensures PreviousIterate(PreviousIterate(i, packetsLen, a), packetsLen, b) == PreviousIterate(i, packetsLen, a + b)
  {
    if b > 0 {
      PreviousIterateCompose(i, packetsLen, a, b - 1);
    }
  }

  /** Short of the last row, `k` moves down go `k` rows further. */
  lemma {:induction false} NextIterateAdvances(i: nat, packetsLen: nat, k: nat)
    requires i + k < packetsLen
    ensures NextIterate(i, packetsLen, k) == i + k
  {
    if k > 0 {
      NextIterateAdvances(i, packetsLen, k - 1);
    }
  }

  /** Short of the first row, `k` moves up go `k` rows back. */
  lemma {:induction false} PreviousIterateRetreats(i: nat, packetsLen: nat, k: nat)
    requires k <= i
    ensures PreviousIterate(i, packetsLen, k) == i - k
  {
    if k > 0 {
      PreviousIterateRetreats(i, packetsLen, k - 1);
    }
  }

  /** `packetsLen` moves in either direction come back to the starting row. */
  lemma {:induction false} FullCycle(i: nat, packetsLen: nat)
    requires i < packetsLen
    ensures NextIterate(i, packetsLen, packetsLen) == i
    ensures PreviousIterate(i, packetsLen, packetsLen) == i
  {
    var n := packetsLen;
    NextIterateAdvances(i, n, n - 1 - i);
    assert NextIterate(i, n, n - i) == 0;
    NextIterateAdvances(0, n, i);
    NextIterateCompose(i, n, n - i, i);
    PreviousIterateRetreats(i, n, i);
    assert PreviousIterate(i, n, i + 1) == n - 1;
    PreviousIterateRetreats(n - 1, n, n - 1 - i);
    PreviousIterateCompose(i, n, i + 1, n - 1 - i);
  }
}
