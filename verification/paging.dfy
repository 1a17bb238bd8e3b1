/**
 * Browsing the raw rows of a selection five at a time. The cursor is the
 * number of rows already offered; the caller keeps it between pages.
 */
module Paging {

  /** Rows per page. */
  const PageSize: nat := 5

  function MinNat(a: nat, b: nat): nat
  {
    if a <= b then a else b
  }

  /**
   * The rows `[c, c + 5)` of `s`, clipped to its end as a Python slice is:
   * at most five rows, each the row at its position, and none past the end.
   */
  function Page<T>(s: seq<T>, c: nat): (rows: seq<T>)
    ensures |rows| == MinNat(c + PageSize, |s|) - MinNat(c, |s|)
    ensures |rows| <= PageSize
    ensures forall i :: 0 <= i < |rows| ==> rows[i] == s[c + i]
  {
    if c >= |s| then [] else s[c..MinNat(c + PageSize, |s|)]
  }

  /** Rows of `n` not yet offered once the cursor is at `c`; never negative. */
  function Remaining(n: nat, c: nat): (left: nat)
    ensures left == n - MinNat(c, n)
  {
    if c >= n then 0 else n - c
  }

  /**
   * The count the program prints after a page: `n - c`, not clamped. It
   * agrees with the rows left while the cursor is inside the data and is
   * negative exactly when the cursor has passed the end.
   */
  function RemainingAsWritten(n: nat, c: nat): (printed: int)
    ensures c <= n ==> printed == Remaining(n, c)
    ensures printed < 0 <==> c > n
  {
    n - c
  }

  datatype PageStep<T> = PageStep(rows: seq<T>, cursor: nat, remaining: nat)

  /** One "show five more lines" step: the page at the cursor, the cursor moved on by five, and what is left. */
  function NextPage<T>(s: seq<T>, c: nat): (step: PageStep<T>)
    ensures step.rows == Page(s, c)
    ensures step.cursor == c + PageSize
    ensures step.remaining == |s| - MinNat(c + PageSize, |s|)
  {
    PageStep(Page(s, c), c + PageSize, Remaining(|s|, c + PageSize))
  }

  /** The rows offered by `k` successive steps starting at cursor `c`. */
  function ShowFrom<T>(s: seq<T>, c: nat, k: nat): seq<T>
    decreases k
  {
    if k == 0 then []
    else
      var step := NextPage(s, c);
      step.rows + ShowFrom(s, step.cursor, k - 1)
  }

  /**
   * Successive pages concatenate to one contiguous slice: `k` steps from
   * cursor `c` offer exactly the rows `[c, c + 5k)`, clipped to the end.
   */
  lemma {:induction false} ShowFromIsSlice<T>(s: seq<T>, c: nat, k: nat)
    ensures MinNat(c, |s|) <= MinNat(c + PageSize * k, |s|)
    ensures ShowFrom(s, c, k) == s[MinNat(c, |s|)..MinNat(c + PageSize * k, |s|)]
    decreases k
  {
    if k > 0 {
      var lo := MinNat(c, |s|);
      var mid := MinNat(c + PageSize, |s|);
      var hi := MinNat(c + PageSize * k, |s|);
      assert c + PageSize + PageSize * (k - 1) == c + PageSize * k;
      ShowFromIsSlice(s, c + PageSize, k - 1);
      assert ShowFrom(s, c + PageSize, k - 1) == s[mid..hi];
      PageIsSlice(s, c);
      assert ShowFrom(s, c, k) == s[lo..mid] + s[mid..hi];
      assert s[lo..mid] + s[mid..hi] == s[lo..hi];
    }
  }

  /** A page is the clipped slice `[c, c + 5)` of the rows. */
  lemma PageIsSlice<T>(s: seq<T>, c: nat)
    ensures Page(s, c) == s[MinNat(c, |s|)..MinNat(c + PageSize, |s|)]
  {
  }

  /**
   * From the start, the first `k` pages offer the first `5k` rows (all of
   * them once `5k` passes the end), and the clamped count left is what was
   * not offered.
   */
  lemma PagesFormPrefix<T>(s: seq<T>, k: nat)
    ensures ShowFrom(s, 0, k) == s[..MinNat(PageSize * k, |s|)]
    ensures Remaining(|s|, PageSize * k) == |s| - |ShowFrom(s, 0, k)|
  {
    ShowFromIsSlice(s, 0, k);
  }

  /**
   * Twelve rows browse as pages of 5, 5, 2 and then 0 rows, with 7, 2, 0
   * and 0 rows left; the printed count after the third page is -3.
   */
  lemma TwelveRowsExample<T>(s: seq<T>)
    requires |s| == 12
    ensures |NextPage(s, 0).rows| == 5 && NextPage(s, 0).remaining == 7
    ensures |NextPage(s, 5).rows| == 5 && NextPage(s, 5).remaining == 2
    ensures |NextPage(s, 10).rows| == 2 && NextPage(s, 10).remaining == 0
    ensures |NextPage(s, 15).rows| == 0 && NextPage(s, 15).remaining == 0
    ensures RemainingAsWritten(|s|, NextPage(s, 10).cursor) == -3
  {
  }

  /**
   * Once the cursor is past the last row, the unclamped count the program
   * prints is negative although no row is left.
   */
  lemma RemainingAsWrittenGoesNegative<T>(s: seq<T>, k: nat)
    requires PageSize * k > |s|
    ensures RemainingAsWritten(|s|, PageSize * k) < 0
    ensures |s| - |ShowFrom(s, 0, k)| == 0
  {
    PagesFormPrefix(s, k);
  }
}
