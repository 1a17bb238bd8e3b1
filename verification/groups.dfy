/**
 * Grouped counts, as `df.groupby(key).count()`: one group per distinct key,
 * holding the number of records with that key.
 */
module Groups {
  import opened Seqs

  datatype Group<K> = Group(key: K, count: nat)

  ghost predicate NoDuplicates<T>(s: seq<T>)
  {
    forall i, j :: 0 <= i < j < |s| ==> s[i] != s[j]
  }

  /** The distinct values of `s` in order of first appearance. */
  function Distinct<T(==)>(s: seq<T>): (d: seq<T>)
    ensures NoDuplicates(d)
    ensures forall i :: 0 <= i < |d| ==> d[i] in s
    ensures forall i :: 0 <= i < |s| ==> s[i] in d
  {
    if |s| == 0 then []
    else
      var d := Distinct(s[..|s| - 1]);
      var last := s[|s| - 1];
      assert s == s[..|s| - 1] + [last];
      if last in d then d else d + [last]
  }

  /** The total of the counts `s` gives to the keys of `d`. */
  function CountsTotal<T(==)>(d: seq<T>, s: seq<T>): nat
  {
    if |d| == 0 then 0 else Count(s, d[0]) + CountsTotal(d[1..], s)
  }

  function GroupTotal<K>(g: seq<Group<K>>): nat
  {
    if |g| == 0 then 0 else g[0].count + GroupTotal(g[1..])
  }

  /** A key listed once in `d` is counted once. */
  lemma {:induction false} CountOfDistinct<T>(d: seq<T>, x: T)
    requires NoDuplicates(d) && x in d
    ensures Count(d, x) == 1
  {
    if d[0] == x {
      assert x !in d[1..];
    } else {
      CountOfDistinct(d[1..], x);
    }
  }

  lemma {:induction false} CountsTotalCons<T>(d: seq<T>, x: T, s: seq<T>)
    ensures CountsTotal(d, [x] + s) == Count(d, x) + CountsTotal(d, s)
  {
    if |d| > 0 {
      assert ([x] + s)[1..] == s;
      CountsTotalCons(d[1..], x, s);
    }
  }

  /** Counting every record under a list of distinct keys that covers them all counts each record once. */
  lemma {:induction false} CountsTotalIsLength<T>(d: seq<T>, s: seq<T>)
    requires NoDuplicates(d)
    requires forall i :: 0 <= i < |s| ==> s[i] in d
    ensures CountsTotal(d, s) == |s|
  {
    if |s| == 0 {
      CountsTotalEmpty(d, s);
    } else {
      assert s == [s[0]] + s[1..];
      CountsTotalCons(d, s[0], s[1..]);
      CountOfDistinct(d, s[0]);
      CountsTotalIsLength(d, s[1..]);
    }
  }

  lemma {:induction false} CountsTotalEmpty<T>(d: seq<T>, s: seq<T>)
    requires |s| == 0
    ensures CountsTotal(d, s) == 0
  {
    if |d| > 0 {
      CountsTotalEmpty(d[1..], s);
    }
  }

  function GroupsOf<K(==)>(d: seq<K>, s: seq<K>): (g: seq<Group<K>>)
    ensures |g| == |d|
    ensures forall i :: 0 <= i < |d| ==> g[i] == Group(d[i], Count(s, d[i]))
    ensures GroupTotal(g) == CountsTotal(d, s)
  {
    if |d| == 0 then [] else [Group(d[0], Count(s, d[0]))] + GroupsOf(d[1..], s)
  }

  /**
   * The grouped counts of a key column: keys are distinct and are exactly the
   * values present, every count is the number of records with that key (so
   * positive), and the counts add up to the number of records.
   */
  function GroupCounts<K(==)>(s: seq<K>): (g: seq<Group<K>>)
    ensures forall i, j :: 0 <= i < j < |g| ==> g[i].key != g[j].key
    ensures forall i :: 0 <= i < |g| ==> g[i].key in s && g[i].count == Count(s, g[i].key) > 0
    ensures forall j :: 0 <= j < |s| ==> exists i :: 0 <= i < |g| && g[i].key == s[j]
    ensures GroupTotal(g) == |s|
  {
    var d := Distinct(s);
    var g := GroupsOf(d, s);
    CountsTotalIsLength(d, s);
    assert forall j :: 0 <= j < |s| ==> g[IndexOf(d, s[j])].key == s[j];
    g
  }
}
