/**
 * The "most common value" of a column, as `Series.mode()[0]`.
 * Ties are broken deterministically: the value whose first occurrence comes
 * first in load order wins.
 */
module Mode {
  import opened Seqs

  /** `x` occurs in `s` and no value occurs more often. */
  ghost predicate IsMode<T>(s: seq<T>, x: T)
  {
    x in s && forall j :: 0 <= j < |s| ==> Count(s, s[j]) <= Count(s, x)
  }

  /**
   * `k` is the first position of `s` holding a value of maximal count: every
   * position holds a value at most as frequent, and every earlier position a
   * strictly less frequent one.
   */
  ghost predicate IsFirstModeIndex<T>(s: seq<T>, k: nat)
  {
    && k < |s|
    && (forall j :: 0 <= j < |s| ==> Count(s, s[j]) <= Count(s, s[k]))
    && (forall j :: 0 <= j < k ==> Count(s, s[j]) < Count(s, s[k]))
  }

  /** One left-to-right pass keeping the best position seen in `s[..i]`. */
  function ModeScan<T(==)>(s: seq<T>, i: nat, best: nat): (k: nat)
    requires best < i <= |s|
    requires forall j :: 0 <= j < i ==> Count(s, s[j]) <= Count(s, s[best])
    requires forall j :: 0 <= j < best ==> Count(s, s[j]) < Count(s, s[best])
    ensures IsFirstModeIndex(s, k)
    decreases |s| - i
  {
    if i == |s| then best
    else if Count(s, s[i]) > Count(s, s[best]) then ModeScan(s, i + 1, i)
    else ModeScan(s, i + 1, best)
  }

  /** Position of the most common value; undefined on an empty column. */
  function ModeIndex<T(==)>(s: seq<T>): (k: nat)
    requires |s| > 0
    ensures IsFirstModeIndex(s, k)
  {
    ModeScan(s, 1, 0)
  }

  /** The most common value of `s`, first-occurrence tie-break. */
  function ModeOf<T(==)>(s: seq<T>): (x: T)
    requires |s| > 0
    ensures IsMode(s, x)
    ensures forall j :: 0 <= j < |s| && Count(s, s[j]) == Count(s, x) ==> IndexOf(s, x) <= j
  {
    var k := ModeIndex(s);
    FirstModeIndexIsFirstOccurrence(s, k);
    s[k]
  }

  /** The chosen position is the first occurrence of its value. */
  lemma FirstModeIndexIsFirstOccurrence<T>(s: seq<T>, k: nat)
    requires IsFirstModeIndex(s, k)
    ensures IndexOf(s, s[k]) == k
  {
  }

  /** The tie-break rule pins the mode down: at most one position satisfies it. */
  lemma FirstModeIndexUnique<T>(s: seq<T>, k1: nat, k2: nat)
    requires IsFirstModeIndex(s, k1) && IsFirstModeIndex(s, k2)
    ensures k1 == k2
  {
    assert Count(s, s[k1]) == Count(s, s[k2]);
  }

  /** Applying `f` to every element of `s`. */
  function Image<A, B>(s: seq<A>, f: A -> B): (r: seq<B>)
    ensures |r| == |s| && forall i :: 0 <= i < |s| ==> r[i] == f(s[i])
  {
    seq(|s|, i requires 0 <= i < |s| => f(s[i]))
  }

  /** If nothing else in `s` shares `x`'s image, counting images counts `x`. */
  lemma {:induction false} CountImage<A, B>(s: seq<A>, f: A -> B, x: A)
    requires forall y :: y in s && f(y) == f(x) ==> y == x
    ensures Count(Image(s, f), f(x)) == Count(s, x)
  {
    if |s| > 0 {
      assert Image(s, f)[1..] == Image(s[1..], f);
      CountImage(s[1..], f, x);
    }
  }

  /**
   * Taking the mode commutes with a map that is injective on the column:
   * the mode of the images is the image of the mode.
   */
  lemma ModeOfInjectiveImage<A, B>(s: seq<A>, f: A -> B)
    requires |s| > 0
    requires forall i, j :: 0 <= i < |s| && 0 <= j < |s| && f(s[i]) == f(s[j]) ==> s[i] == s[j]
    ensures ModeOf(Image(s, f)) == f(ModeOf(s))
  {
    var t := Image(s, f);
    forall j | 0 <= j < |s| ensures Count(t, t[j]) == Count(s, s[j]) {
      forall y | y in s && f(y) == f(s[j]) ensures y == s[j] {
        var m := IndexOf(s, y);
      }
      CountImage(s, f, s[j]);
    }
    var k := ModeIndex(s);
    assert IsFirstModeIndex(t, k);
    FirstModeIndexUnique(t, k, ModeIndex(t));
  }

  /** A column [3, 3, 4, 4] resolves to 3, the value that reached the top count first. */
  lemma TieBreakExample()
    ensures ModeOf([3, 3, 4, 4]) == 3
  {
    var s := [3, 3, 4, 4];
    assert Count(s, 3) == 2 && Count(s, 4) == 2;
    assert IndexOf(s, 4) == 2;
  }
}
