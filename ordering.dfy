/** The order in which channels and threads are listed: a stable sort by
    the key (category position, item position), where a missing category or
    a missing position counts as positive infinity. */
module Ordering {
  import opened Wrappers
  import opened Entities

  /** An integer or positive infinity (`float('inf')` in the key). */
  datatype Bound = Finite(n: int) | Infinite

  predicate BoundLe(a: Bound, b: Bound) {
    b.Infinite? || (a.Finite? && a.n <= b.n)
  }

  /** The sort key: a pair compared lexicographically, as Python compares
      tuples. */
  datatype SortKey = SortKey(group: Bound, item: Bound)

  predicate KeyLe(a: SortKey, b: SortKey) {
    (BoundLe(a.group, b.group) && a.group != b.group) || (a.group == b.group && BoundLe(a.item, b.item))
  }

  /** The key of a chat: its category's position, then its own position.
      Only a text channel has a position; a chat without a category, or
      without a position, gets infinity in that component. */
  function KeyOf(c: Chat): (k: SortKey)
    ensures k.group.Finite? <==> CategoryOf(c).Some?
    ensures k.item.Finite? <==> c.TextChannel?
  {
    SortKey(
      match CategoryOf(c) case Some(cat) => Finite(cat.position) case None => Infinite,
      if c.TextChannel? then Finite(c.position) else Infinite)
  }

  lemma KeyLeTotal(a: SortKey, b: SortKey)
    ensures KeyLe(a, b) || KeyLe(b, a)
  {
  }

  lemma KeyLeTransitive(a: SortKey, b: SortKey, c: SortKey)
    requires KeyLe(a, b) && KeyLe(b, c)
    ensures KeyLe(a, c)
  {
  }

  lemma KeyLeAntisymmetric(a: SortKey, b: SortKey)
    requires KeyLe(a, b) && KeyLe(b, a)
    ensures a == b
  {
  }

  predicate Sorted(s: seq<Chat>) {
    forall i, j :: 0 <= i < j < |s| ==> KeyLe(KeyOf(s[i]), KeyOf(s[j]))
  }

  /** Every item of `s` has a key at or above `k`. */
  predicate AllAbove(k: SortKey, s: seq<Chat>) {
    forall i :: 0 <= i < |s| ==> KeyLe(k, KeyOf(s[i]))
  }

  /** A list is sorted when its head is at or below all the rest and the
      rest is sorted. */
  lemma SortedCons(s: seq<Chat>)
    requires s != []
    ensures Sorted(s) <==> AllAbove(KeyOf(s[0]), s[1..]) && Sorted(s[1..])
  {
    if AllAbove(KeyOf(s[0]), s[1..]) && Sorted(s[1..]) {
      forall i, j | 0 <= i < j < |s| ensures KeyLe(KeyOf(s[i]), KeyOf(s[j])) {
        assert s[j] == s[1..][j - 1];
        if i > 0 {
          assert s[i] == s[1..][i - 1];
        }
      }
    }
    if Sorted(s) {
      forall i | 0 <= i < |s[1..]| ensures KeyLe(KeyOf(s[0]), KeyOf(s[1..][i])) {
        assert s[1..][i] == s[i + 1];
      }
      forall i, j | 0 <= i < j < |s[1..]| ensures KeyLe(KeyOf(s[1..][i]), KeyOf(s[1..][j])) {
        assert s[1..][i] == s[i + 1] && s[1..][j] == s[j + 1];
      }
    }
  }

  /** Put `x` in front of the first element whose key is not below its
      own, so that `x` stays ahead of the elements with an equal key. */
  function Insert(x: Chat, t: seq<Chat>): (r: seq<Chat>)
    ensures |r| == |t| + 1
  {
    if t == [] || KeyLe(KeyOf(x), KeyOf(t[0])) then [x] + t
    else [t[0]] + Insert(x, t[1..])
  }

  /** `sorted(items, key=...)`: Python's sort is stable, and so is this
      insertion sort, which inserts each item in front of the later items
      with an equal key. */
  function SortChats(s: seq<Chat>): (r: seq<Chat>)
    ensures |r| == |s|
  {
    if s == [] then [] else Insert(s[0], SortChats(s[1..]))
  }

  lemma {:induction false} InsertPermutes(x: Chat, t: seq<Chat>)
    ensures multiset(Insert(x, t)) == multiset{x} + multiset(t)
  {
    if t != [] && !KeyLe(KeyOf(x), KeyOf(t[0])) {
      InsertPermutes(x, t[1..]);
      assert t == [t[0]] + t[1..];
    }
  }

  /** The sort neither loses nor duplicates an item. */
  lemma {:induction false} SortChatsPermutes(s: seq<Chat>)
    ensures multiset(SortChats(s)) == multiset(s)
  {
    if s != [] {
      SortChatsPermutes(s[1..]);
      InsertPermutes(s[0], SortChats(s[1..]));
      assert s == [s[0]] + s[1..];
    }
  }

  lemma {:induction false} InsertAbove(x: Chat, t: seq<Chat>, k: SortKey)
    requires KeyLe(k, KeyOf(x)) && AllAbove(k, t)
    ensures AllAbove(k, Insert(x, t))
  {
    if t != [] && !KeyLe(KeyOf(x), KeyOf(t[0])) {
      var rest := t[1..];
      assert AllAbove(k, rest) by {
        forall i | 0 <= i < |rest| ensures KeyLe(k, KeyOf(rest[i])) {
          assert rest[i] == t[i + 1];
        }
      }
      InsertAbove(x, rest, k);
      var r := Insert(x, t);
      forall i | 0 <= i < |r| ensures KeyLe(k, KeyOf(r[i])) {
        if i > 0 {
          assert r[i] == Insert(x, rest)[i - 1];
        }
      }
    }
  }

  lemma {:induction false} InsertSorted(x: Chat, t: seq<Chat>)
    requires Sorted(t)
    ensures Sorted(Insert(x, t))
  {
    var r := Insert(x, t);
    if t == [] || KeyLe(KeyOf(x), KeyOf(t[0])) {
      if t != [] {
        SortedCons(t);
      }
      forall i | 0 <= i < |t| ensures KeyLe(KeyOf(x), KeyOf(t[i])) {
        if i > 0 {
          assert t[1..][i - 1] == t[i];
          KeyLeTransitive(KeyOf(x), KeyOf(t[0]), KeyOf(t[i]));
        }
      }
      assert r[1..] == t;
      SortedCons(r);
    } else {
      var rest := t[1..];
      SortedCons(t);
      InsertSorted(x, rest);
      KeyLeTotal(KeyOf(x), KeyOf(t[0]));
      InsertAbove(x, rest, KeyOf(t[0]));
      assert r[1..] == Insert(x, rest);
      SortedCons(r);
    }
  }

  /** The list comes out in key order. */
  lemma {:induction false} SortChatsSorted(s: seq<Chat>)
    ensures Sorted(SortChats(s))
  {
    if s != [] {
      SortChatsSorted(s[1..]);
      InsertSorted(s[0], SortChats(s[1..]));
    }
  }

  /** The items of key `k`, in order. */
  function WithKey(k: SortKey, s: seq<Chat>): (r: seq<Chat>)
    ensures forall i :: 0 <= i < |r| ==> KeyOf(r[i]) == k
  {
    if s == [] then []
    else (if KeyOf(s[0]) == k then [s[0]] else []) + WithKey(k, s[1..])
  }

  /** Putting `y` in front adds `y` to its own key's items only. */
  lemma WithKeyCons(k: SortKey, y: Chat, t: seq<Chat>)
    ensures WithKey(k, [y] + t) == (if KeyOf(y) == k then [y] else []) + WithKey(k, t)
  {
    assert ([y] + t)[0] == y && ([y] + t)[1..] == t;
  }

  /** Inserting into a sorted list leaves every other key's items alone,
      and puts `x` first among the items of its own key. */
  lemma {:induction false} InsertWithKey(x: Chat, t: seq<Chat>, k: SortKey)
    requires Sorted(t)
    ensures WithKey(k, Insert(x, t)) == (if KeyOf(x) == k then [x] else []) + WithKey(k, t)
  {
    if t == [] || KeyLe(KeyOf(x), KeyOf(t[0])) {
      WithKeyCons(k, x, t);
    } else {
      var rest := t[1..];
      SortedCons(t);
      InsertWithKey(x, rest, k);
      WithKeyCons(k, t[0], Insert(x, rest));
      if KeyOf(x) == k {
        // t[0]'s key is strictly below x's.
        assert KeyOf(t[0]) != k;
      }
    }
  }

  /** Stability: items with equal keys keep their relative order. */
  lemma {:induction false} SortChatsStable(s: seq<Chat>, k: SortKey)
    ensures WithKey(k, SortChats(s)) == WithKey(k, s)
  {
    if s != [] {
      SortChatsStable(s[1..], k);
      SortChatsSorted(s[1..]);
      InsertWithKey(s[0], SortChats(s[1..]), k);
    }
  }

  /** A list already in key order is left as it is. */
  lemma {:induction false} SortedUnchanged(s: seq<Chat>)
    requires Sorted(s)
    ensures SortChats(s) == s
  {
    if s != [] {
      var rest := s[1..];
      assert Sorted(rest) by {
        forall i, j | 0 <= i < j < |rest| ensures KeyLe(KeyOf(rest[i]), KeyOf(rest[j])) {
          assert rest[i] == s[i + 1] && rest[j] == s[j + 1];
        }
      }
      SortedUnchanged(rest);
      if rest != [] {
        assert KeyLe(KeyOf(s[0]), KeyOf(rest[0])) by {
          assert rest[0] == s[1];
        }
      }
      assert [s[0]] + rest == s;
    }
  }

  /** Sorting twice is sorting once. */
  lemma SortChatsIdempotent(s: seq<Chat>)
    ensures SortChats(SortChats(s)) == SortChats(s)
  {
    SortChatsSorted(s);
    SortedUnchanged(SortChats(s));
  }

  /** Sorting three chats whose keys increase from `a` to `c`, given in
      reverse order. */
  lemma SortThree(a: Chat, b: Chat, c: Chat)
    requires !KeyLe(KeyOf(b), KeyOf(a)) && !KeyLe(KeyOf(c), KeyOf(a)) && !KeyLe(KeyOf(c), KeyOf(b))
    ensures SortChats([c, b, a]) == [a, b, c]
  {
    assert [c, b, a][1..] == [b, a] && [b, a][1..] == [a] && [a][1..] == [];
    assert SortChats([a]) == [a];
    assert Insert(b, [a]) == [a] + Insert(b, []);
    assert SortChats([b, a]) == [a, b];
    assert [a, b][1..] == [b];
    assert Insert(c, [b]) == [b] + Insert(c, []);
    assert Insert(c, [a, b]) == [a] + Insert(c, [b]);
  }

  /** Sorting three chats where the first has the largest key and the
      other two are in order. */
  lemma SortLastFirst(x: Chat, y: Chat, z: Chat)
    requires KeyLe(KeyOf(y), KeyOf(z)) && !KeyLe(KeyOf(x), KeyOf(y)) && !KeyLe(KeyOf(x), KeyOf(z))
    ensures SortChats([x, y, z]) == [y, z, x]
  {
    assert [x, y, z][1..] == [y, z] && [y, z][1..] == [z] && [z][1..] == [];
    assert SortChats([z]) == [z];
    assert SortChats([y, z]) == [y, z];
    assert [y, z][1..] == [z];
    assert Insert(x, [z]) == [z] + Insert(x, []);
    assert Insert(x, [y, z]) == [y] + Insert(x, [z]);
  }
}
