/** Tables of the relational store as sequences of rows, kept in insertion
    order, and the three things the store does to them: select the rows a
    predicate keeps, update every row through a function, and find a row. */
module Tables {

  datatype Option<T> = None | Some(value: T)

  /** SELECT ... WHERE keep: the kept rows, in table order. */
  function Filter<T(==, !new)>(s: seq<T>, keep: T -> bool): (r: seq<T>)
    ensures |r| <= |s|
    ensures forall x :: x in r <==> x in s && keep(x)
    ensures multiset(r) <= multiset(s)
    ensures (forall x :: x in s ==> keep(x)) ==> r == s
    ensures (forall x :: x in s ==> !keep(x)) ==> r == []
  {
    if s == [] then []
    else if keep(s[0]) then
      assert s == [s[0]] + s[1..];
      [s[0]] + Filter(s[1..], keep)
    else
      assert s == [s[0]] + s[1..];
      Filter(s[1..], keep)
  }

  /** UPDATE: every row is replaced by its image under f. */
  function MapRows<T>(s: seq<T>, f: T -> T): (r: seq<T>)
    ensures |r| == |s|
    ensures forall i :: 0 <= i < |s| ==> r[i] == f(s[i])
  {
    if s == [] then [] else [f(s[0])] + MapRows(s[1..], f)
  }

  /** findOne: a row that matches, or None when no row does. */
  function Find<T>(s: seq<T>, matches: T -> bool): (r: Option<T>)
    ensures r.Some? ==> r.value in s && matches(r.value)
    ensures r.None? <==> forall i :: 0 <= i < |s| ==> !matches(s[i])
  {
    if s == [] then None
    else if matches(s[0]) then Some(s[0])
    else
      var r := Find(s[1..], matches);
      assert forall i :: 1 <= i < |s| ==> s[i] == s[1..][i - 1];
      r
  }

  /** Every earlier row stands in relation ok to every later row. */
  ghost predicate Pairwise<T>(s: seq<T>, ok: (T, T) -> bool) {
    forall i, j :: 0 <= i < j < |s| ==> ok(s[i], s[j])
  }

  lemma {:induction false} FilterKeepsPairwise<T(!new)>(s: seq<T>, keep: T -> bool, ok: (T, T) -> bool)
    requires Pairwise(s, ok)
    ensures Pairwise(Filter(s, keep), ok)
  {
    if s != [] {
      var rest := Filter(s[1..], keep);
      FilterKeepsPairwise(s[1..], keep, ok);
      if keep(s[0]) {
        forall y | y in rest
          ensures ok(s[0], y)
        {
          var k :| 0 <= k < |s[1..]| && s[1..][k] == y;
          assert s[k + 1] == y;
        }
        var r := [s[0]] + rest;
        forall i, j | 0 <= i < j < |r|
          ensures ok(r[i], r[j])
        {
          if i == 0 {
            assert r[j] == rest[j - 1];
            assert r[j] in rest;
          } else {
            assert r[i] == rest[i - 1] && r[j] == rest[j - 1];
          }
        }
      }
    }
  }

  lemma AppendKeepsPairwise<T>(s: seq<T>, x: T, ok: (T, T) -> bool)
    requires Pairwise(s, ok)
    requires forall i :: 0 <= i < |s| ==> ok(s[i], x)
    ensures Pairwise(s + [x], ok)
  {
    var r := s + [x];
    forall i, j | 0 <= i < j < |r|
      ensures ok(r[i], r[j])
    {
      if j < |s| {
        assert r[i] == s[i] && r[j] == s[j];
      } else {
        assert r[i] == s[i] && r[j] == x;
      }
    }
  }

  /** Two sequences with the same multiset hold the same elements. */
  lemma SameElements<T>(a: seq<T>, b: seq<T>)
    requires multiset(a) == multiset(b)
    ensures forall x :: x in a <==> x in b
  {
    forall x
      ensures x in a <==> x in b
    {
      assert x in a <==> x in multiset(a);
      assert x in b <==> x in multiset(b);
    }
  }
}
