/** The Python list operations the clustering code relies on:
    `list.index`, `list.remove` and `max`, on sequences. */
module Lists {

  /** Position of the first `x` in `s`, or |s| when there is none (where
      `list.index` raises ValueError). */
  function IndexOf<T(==)>(s: seq<T>, x: T): (i: nat)
    ensures i <= |s|
    ensures x !in s[..i]
    ensures i < |s| ==> s[i] == x
    ensures i == |s| <==> x !in s
  {
    if |s| == 0 then 0
    else if s[0] == x then 0
    else
      var i := 1 + IndexOf(s[1..], x);
      assert s[..i] == [s[0]] + s[1..][..i - 1];
      i
  }

  /** `list.remove(x)` on a list that holds `x`: the list without its first
      `x`. */
  function RemoveFirst<T(==)>(s: seq<T>, x: T): (r: seq<T>)
    requires x in s
    ensures |r| == |s| - 1
    ensures multiset(r) == multiset(s) - multiset{x}
  {
    var i := IndexOf(s, x);
    assert s == s[..i] + [s[i]] + s[i + 1..];
    s[..i] + s[i + 1..]
  }

  /** No element occurs twice. */
  predicate Distinct<T(==)>(s: seq<T>)
  {
    forall i, j :: 0 <= i < j < |s| ==> s[i] != s[j]
  }

  /** Position `a` of the list without its first `x` holds what `s`
      holds at `a` before that `x` and at `a + 1` after it. */
  lemma RemoveFirstAt<T>(s: seq<T>, x: T, a: nat)
    requires x in s && a < |s| - 1
    ensures RemoveFirst(s, x)[a] == if a < IndexOf(s, x) then s[a] else s[a + 1]
  {
  }

  /** Taking the only `x` out of a list without repetitions leaves a list
      without repetitions, without `x`, and with every other element. */
  lemma RemoveFirstDistinct<T>(s: seq<T>, x: T)
    requires x in s && Distinct(s)
    ensures Distinct(RemoveFirst(s, x))
    ensures x !in RemoveFirst(s, x)
    ensures forall y :: y != x ==> (y in RemoveFirst(s, x) <==> y in s)
  {
    var i := IndexOf(s, x);
    var r := RemoveFirst(s, x);
    forall a | 0 <= a < |r|
      ensures r[a] == if a < i then s[a] else s[a + 1]
    {
      RemoveFirstAt(s, x, a);
    }
    forall y | y != x && y in s
      ensures y in r
    {
      var t :| 0 <= t < |s| && s[t] == y;
      if t < i {
        assert r[t] == y;
      } else {
        assert r[t - 1] == y;
      }
    }
  }

  /** In a list without repetitions, the element at `i` is first found
      at `i`. */
  lemma IndexOfDistinct<T>(s: seq<T>, i: nat)
    requires Distinct(s) && i < |s|
    ensures IndexOf(s, s[i]) == i
  {
  }

  /** `max(row)` of a non-empty row: an element of the row that no element
      exceeds. */
  function MaxOf(row: seq<real>): (m: real)
    requires |row| > 0
    ensures m in row
    ensures forall j :: 0 <= j < |row| ==> row[j] <= m
  {
    if |row| == 1 then row[0]
    else
      var m := MaxOf(row[..|row| - 1]);
      assert forall j :: 0 <= j < |row| - 1 ==> row[j] == row[..|row| - 1][j];
      if row[|row| - 1] > m then row[|row| - 1] else m
  }
}
