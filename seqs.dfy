/** Sequence helpers shared by the list-building parts of the model. */
module Seqs {

  /** The order-preserving sublist of `s` whose elements satisfy `p`:
      a Python list comprehension `[x for x in s if p(x)]`. */
  function Filter<T(==)>(p: T -> bool, s: seq<T>): (r: seq<T>)
    ensures |r| <= |s|
    ensures forall i :: 0 <= i < |r| ==> r[i] in s && p(r[i])
    ensures forall i :: 0 <= i < |s| && p(s[i]) ==> s[i] in r
  {
    if s == [] then [] else (if p(s[0]) then [s[0]] else []) + Filter(p, s[1..])
  }

  /** Filtering distributes over concatenation, so a list built by appending
      in a loop can be compared with a filter of the whole input. */
  lemma {:induction false} FilterConcat<T>(p: T -> bool, a: seq<T>, b: seq<T>)
    ensures Filter(p, a + b) == Filter(p, a) + Filter(p, b)
  {
    if a == [] {
      assert a + b == b;
    } else {
      assert (a + b)[0] == a[0];
      assert (a + b)[1..] == a[1..] + b;
      FilterConcat(p, a[1..], b);
    }
  }

  /** Appending one element to the input appends it to the output when it
      passes. */
  lemma FilterSnoc<T>(p: T -> bool, s: seq<T>, x: T)
    ensures Filter(p, s + [x]) == Filter(p, s) + (if p(x) then [x] else [])
  {
    FilterConcat(p, s, [x]);
    assert [x][1..] == [];
  }

  /** A filter keeps nothing exactly when no element passes it. */
  lemma FilterEmpty<T>(p: T -> bool, s: seq<T>)
    ensures Filter(p, s) == [] <==> forall i :: 0 <= i < |s| ==> !p(s[i])
  {
    var r := Filter(p, s);
    if r != [] {
      assert r[0] in s && p(r[0]);
      var j :| 0 <= j < |s| && s[j] == r[0];
      assert p(s[j]);
    }
  }

  /** A filter that every element passes keeps the whole list. */
  lemma {:induction false} FilterAll<T>(p: T -> bool, s: seq<T>)
    requires forall i :: 0 <= i < |s| ==> p(s[i])
    ensures Filter(p, s) == s
  {
    if s != [] {
      FilterAll(p, s[1..]);
      assert [s[0]] + s[1..] == s;
    }
  }

  /** `x` occurs in `s` at some position before one where `y` occurs. */
  predicate OccursBefore<T(==)>(s: seq<T>, x: T, y: T) {
    exists a, b :: 0 <= a < b < |s| && s[a] == x && s[b] == y
  }

  /** A filter keeps the order of the list it filters. */
  lemma {:induction false} FilterKeepsOrder<T>(p: T -> bool, s: seq<T>)
    ensures forall i, j :: 0 <= i < j < |Filter(p, s)| ==> OccursBefore(s, Filter(p, s)[i], Filter(p, s)[j])
  {
    if s != [] {
      var rest := Filter(p, s[1..]);
      FilterKeepsOrder(p, s[1..]);
      var r := Filter(p, s);
      if p(s[0]) {
        assert r == [s[0]] + rest;
        forall i, j | 0 <= i < j < |r| ensures OccursBefore(s, r[i], r[j]) {
          if i == 0 {
            OccursAfterHead(s, rest[j - 1]);
          } else {
            OccursBeforeInTail(s, rest[i - 1], rest[j - 1]);
          }
        }
      } else {
        assert r == rest;
        forall i, j | 0 <= i < j < |r| ensures OccursBefore(s, r[i], r[j]) {
          OccursBeforeInTail(s, rest[i], rest[j]);
        }
      }
    }
  }

  lemma OccursAfterHead<T>(s: seq<T>, y: T)
    requires s != [] && y in s[1..]
    ensures OccursBefore(s, s[0], y)
  {
    var b :| 0 <= b < |s[1..]| && s[1..][b] == y;
    assert s[b + 1] == y;
  }

  lemma OccursBeforeInTail<T>(s: seq<T>, x: T, y: T)
    requires s != [] && OccursBefore(s[1..], x, y)
    ensures OccursBefore(s, x, y)
  {
    var a, b :| 0 <= a < b < |s[1..]| && s[1..][a] == x && s[1..][b] == y;
    assert s[a + 1] == x && s[b + 1] == y;
  }

  /** No element occurs twice. */
  predicate Distinct<T(==)>(s: seq<T>) {
    forall i, j :: 0 <= i < j < |s| ==> s[i] != s[j]
  }

  /** A filter of a list without repetitions has no repetitions either. */
  lemma {:induction false} FilterDistinct<T>(p: T -> bool, s: seq<T>)
    requires Distinct(s)
    ensures Distinct(Filter(p, s))
  {
    if s != [] {
      assert Distinct(s[1..]) by {
        forall i, j | 0 <= i < j < |s[1..]| ensures s[1..][i] != s[1..][j] {
          assert s[1..][i] == s[i + 1] && s[1..][j] == s[j + 1];
        }
      }
      FilterDistinct(p, s[1..]);
      var rest := Filter(p, s[1..]);
      if p(s[0]) {
        assert s[0] !in s[1..] by {
          forall k | 0 <= k < |s[1..]| ensures s[1..][k] != s[0] {
            assert s[1..][k] == s[k + 1];
          }
        }
        assert s[0] !in rest;
        var r := [s[0]] + rest;
        forall i, j | 0 <= i < j < |r| ensures r[i] != r[j] {
          if i == 0 {
            assert r[j] == rest[j - 1];
          } else {
            assert r[i] == rest[i - 1] && r[j] == rest[j - 1];
          }
        }
      } else {
        assert Filter(p, s) == rest;
      }
    }
  }
}
