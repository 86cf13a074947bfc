/** Python's `sorted(xs, key=...)` for a key that is a pair of strings, as the
    generator's `(technology.name, command)`: tuples compare on their first
    component and, when those are equal, on their second. `sorted` is stable,
    so elements with equal keys keep their order. */
module Sorting {
  import opened Text

  type Key = (string, string)

  /** `<` on pairs of strings. */
  predicate KeyLess(a: Key, b: Key) {
    Less(a.0, b.0) || (a.0 == b.0 && Less(a.1, b.1))
  }

  lemma KeyLessIrreflexive(a: Key)
    ensures !KeyLess(a, a)
  {
    LessIrreflexive(a.0);
    LessIrreflexive(a.1);
  }

  lemma KeyLessTransitive(a: Key, b: Key, c: Key)
    requires KeyLess(a, b) && KeyLess(b, c)
    ensures KeyLess(a, c)
  {
    if Less(a.0, b.0) && Less(b.0, c.0) {
      LessTransitive(a.0, b.0, c.0);
    } else if a.0 == b.0 && b.0 == c.0 {
      LessTransitive(a.1, b.1, c.1);
    }
  }

  /** Different keys are ordered one way or the other. */
  lemma KeyLessTotal(a: Key, b: Key)
    ensures a == b || KeyLess(a, b) || KeyLess(b, a)
  {
    LessTotal(a.0, b.0);
    LessTotal(a.1, b.1);
  }

  lemma KeyLessAsymmetric(a: Key, b: Key)
    requires KeyLess(a, b)
    ensures !KeyLess(b, a)
  {
    if Less(a.0, b.0) {
      LessAsymmetric(a.0, b.0);
      LessIrreflexive(a.0);
    } else {
      LessAsymmetric(a.1, b.1);
      LessIrreflexive(a.0);
    }
  }

  /** No element is followed by one with a smaller key. */
  predicate SortedBy<T>(s: seq<T>, key: T -> Key) {
    forall i, j :: 0 <= i < j < |s| ==> !KeyLess(key(s[j]), key(s[i]))
  }

  /** The elements of `s` whose key is `k`, in their order in `s`. */
  function WithKey<T>(s: seq<T>, key: T -> Key, k: Key): seq<T>
  {
    if s == [] then [] else (if key(s[0]) == k then [s[0]] else []) + WithKey(s[1..], key, k)
  }

  /** Puts `x` in front of the first element whose key is not smaller than its
      own, that is after every element with a smaller key and before every
      element with an equal or greater one. */
  function Insert<T>(x: T, s: seq<T>, key: T -> Key): (r: seq<T>)
    requires SortedBy(s, key)
    ensures SortedBy(r, key)
    ensures multiset(r) == multiset(s) + multiset{x}
  {
    if s == [] then [x]
    else if !KeyLess(key(s[0]), key(x)) then
      assert forall j :: 0 <= j < |s| ==> !KeyLess(key(s[j]), key(x)) by {
        forall j | 0 <= j < |s| ensures !KeyLess(key(s[j]), key(x)) {
          if j > 0 && KeyLess(key(s[j]), key(x)) {
            KeyLessTotal(key(s[j]), key(s[0]));
            if KeyLess(key(s[j]), key(s[0])) { } else if key(s[j]) == key(s[0]) { } else {
              KeyLessTransitive(key(s[0]), key(s[j]), key(x));
            }
          }
        }
      }
      [x] + s
    else
      var rest := Insert(x, s[1..], key);
      assert s == [s[0]] + s[1..];
      assert forall y :: y in multiset(rest) ==> y == x || y in multiset(s[1..]);
      assert forall j :: 0 <= j < |rest| ==> !KeyLess(key(rest[j]), key(s[0])) by {
        forall j | 0 <= j < |rest| ensures !KeyLess(key(rest[j]), key(s[0])) {
          assert rest[j] in multiset(rest);
          if rest[j] == x {
            KeyLessAsymmetric(key(s[0]), key(x));
          } else {
            var m :| 0 <= m < |s[1..]| && s[1..][m] == rest[j];
            assert s[m + 1] == rest[j];
          }
        }
      }
      [s[0]] + rest
  }

  /** `sorted(s, key=key)`. */
  function Sort<T>(s: seq<T>, key: T -> Key): (r: seq<T>)
    ensures SortedBy(r, key)
    ensures multiset(r) == multiset(s)
  {
    if s == [] then []
    else
      assert s == [s[0]] + s[1..];
      Insert(s[0], Sort(s[1..], key), key)
  }

  lemma WithKeyCons<T>(x: T, s: seq<T>, key: T -> Key, k: Key)
    ensures WithKey([x] + s, key, k) == (if key(x) == k then [x] else []) + WithKey(s, key, k)
  {
    assert ([x] + s)[1..] == s;
  }

  lemma {:induction false} InsertWithKey<T>(x: T, s: seq<T>, key: T -> Key, k: Key)
    requires SortedBy(s, key)
    ensures WithKey(Insert(x, s, key), key, k) == (if key(x) == k then [x] else []) + WithKey(s, key, k)
  {
    if s == [] {
      WithKeyCons(x, s, key, k);
    } else if !KeyLess(key(s[0]), key(x)) {
      WithKeyCons(x, s, key, k);
    } else {
      var rest := Insert(x, s[1..], key);
      WithKeyCons(s[0], rest, key, k);
      InsertWithKey(x, s[1..], key, k);
      WithKeyCons(s[0], s[1..], key, k);
      assert [s[0]] + s[1..] == s;
      if key(x) == k {
        assert key(s[0]) != k by { KeyLessIrreflexive(key(x)); }
      }
    }
  }

  /** Stability: for every key, the elements with that key come out in the
      order they went in. */
  lemma {:induction false} SortStable<T>(s: seq<T>, key: T -> Key, k: Key)
    ensures WithKey(Sort(s, key), key, k) == WithKey(s, key, k)
  {
    if s != [] {
      SortStable(s[1..], key, k);
      InsertWithKey(s[0], Sort(s[1..], key), key, k);
      WithKeyCons(s[0], s[1..], key, k);
      assert [s[0]] + s[1..] == s;
    }
  }

  lemma WithKeyHead<T>(s: seq<T>, key: T -> Key)
    requires s != []
    ensures WithKey(s, key, key(s[0])) != [] && WithKey(s, key, key(s[0]))[0] == s[0]
  {
  }

  lemma {:induction false} WithKeyMember<T>(s: seq<T>, key: T -> Key, k: Key, y: T)
    requires y in WithKey(s, key, k)
    ensures y in s && key(y) == k
  {
    if s != [] {
      if y != s[0] || key(s[0]) != k {
        WithKeyMember(s[1..], key, k, y);
      }
    }
  }

  /** Sorting is determined: a sorted sequence that keeps, for every key, the
      elements of `s` with that key in their order is exactly `Sort(s, key)`.
      So the insertion sort here and any other stable sort agree. */
  lemma {:induction false} SortUnique<T>(s: seq<T>, r: seq<T>, key: T -> Key)
    requires SortedBy(r, key)
    requires forall k :: WithKey(r, key, k) == WithKey(s, key, k)
    ensures r == Sort(s, key)
  {
    var q := Sort(s, key);
    forall k ensures WithKey(r, key, k) == WithKey(q, key, k) {
      SortStable(s, key, k);
    }
    SortedUnique(r, q, key);
  }

  lemma {:induction false} SortedUnique<T>(r: seq<T>, q: seq<T>, key: T -> Key)
    requires SortedBy(r, key) && SortedBy(q, key)
    requires forall k :: WithKey(r, key, k) == WithKey(q, key, k)
    ensures r == q
    decreases |r| + |q|
  {
    if r == [] && q == [] {
    } else if r == [] || q == [] {
      var p := if r == [] then q else r;
      WithKeyHead(p, key);
      assert false;
    } else {
      HeadsAgree(r, q, key);
      forall k ensures WithKey(r[1..], key, k) == WithKey(q[1..], key, k) {
        TailsAgree(r, q, key, k);
      }
      SortedUnique(r[1..], q[1..], key);
      assert r == [r[0]] + r[1..] && q == [q[0]] + q[1..];
    }
  }

  /** Two sorted sequences with the same elements per key start alike: each
      head occurs in the other sequence, so neither head's key is above the
      other's, and the first element with that key is the same in both. */
  lemma HeadsAgree<T>(r: seq<T>, q: seq<T>, key: T -> Key)
    requires r != [] && q != []
    requires SortedBy(r, key) && SortedBy(q, key)
    requires WithKey(r, key, key(r[0])) == WithKey(q, key, key(r[0]))
    requires WithKey(r, key, key(q[0])) == WithKey(q, key, key(q[0]))
    ensures r[0] == q[0]
  {
    var a, b := key(r[0]), key(q[0]);
    WithKeyHead(r, key);
    WithKeyHead(q, key);
    assert r[0] in WithKey(q, key, a);
    WithKeyMember(q, key, a, r[0]);
    var i :| 0 <= i < |q| && q[i] == r[0];
    assert q[0] in WithKey(r, key, b);
    WithKeyMember(r, key, b, q[0]);
    var j :| 0 <= j < |r| && r[j] == q[0];
    assert !KeyLess(a, b) by {
      if i == 0 { KeyLessIrreflexive(a); } else { assert !KeyLess(key(q[i]), key(q[0])); }
    }
    assert !KeyLess(b, a) by {
      if j == 0 { KeyLessIrreflexive(b); } else { assert !KeyLess(key(r[j]), key(r[0])); }
    }
    KeyLessTotal(a, b);
  }

  lemma TailsAgree<T>(r: seq<T>, q: seq<T>, key: T -> Key, k: Key)
    requires r != [] && q != [] && r[0] == q[0]
    requires WithKey(r, key, k) == WithKey(q, key, k)
    ensures WithKey(r[1..], key, k) == WithKey(q[1..], key, k)
  {
    var x, y := WithKey(r[1..], key, k), WithKey(q[1..], key, k);
    if key(r[0]) == k {
      assert WithKey(r, key, k) == [r[0]] + x;
      assert WithKey(q, key, k) == [q[0]] + y;
      assert x == ([r[0]] + x)[1..] && y == ([q[0]] + y)[1..];
    } else {
      assert WithKey(r, key, k) == [] + x;
      assert WithKey(q, key, k) == [] + y;
      assert [] + x == x && [] + y == y;
    }
  }
}
