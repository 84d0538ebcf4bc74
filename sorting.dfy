/** Python's `list.sort(key=..., reverse=True)`: a stable sort into
    descending key order, for the keys the scripts sort by (a pair of a
    time and a string, compared lexicographically). As in Python, items
    with equal keys keep their original relative order. */
module StableSort {
  import opened PyStrings

  /** A sort key `(major, minor)`, compared as a Python tuple. */
  datatype Key = Key(major: nat, minor: string)

  predicate KeyLess(a: Key, b: Key) {
    a.major < b.major || (a.major == b.major && LexLess(a.minor, b.minor))
  }

  lemma KeyLessIrreflexive(a: Key)
    ensures !KeyLess(a, a)
  {
    LexIrreflexive(a.minor);
  }

  lemma KeyLessTransitive(a: Key, b: Key, c: Key)
    requires KeyLess(a, b) && KeyLess(b, c)
    ensures KeyLess(a, c)
  {
    if a.major == b.major == c.major {
      LexTransitive(a.minor, b.minor, c.minor);
    }
  }

  lemma KeyLessTotal(a: Key, b: Key)
    ensures a == b || KeyLess(a, b) || KeyLess(b, a)
  {
    LexTotal(a.minor, b.minor);
  }

  /** "Not less than" chains: `a >= b >= c` gives `a >= c`. */
  lemma NotLessTransitive(a: Key, b: Key, c: Key)
    requires !KeyLess(a, b) && !KeyLess(b, c)
    ensures !KeyLess(a, c)
  {
    KeyLessTotal(a, b);
    KeyLessTotal(b, c);
    if KeyLess(a, c) {
      if a == b {
      } else if b == c {
      } else {
        KeyLessTransitive(c, b, a);
        KeyLessTransitive(a, c, a);
        KeyLessIrreflexive(a);
      }
    }
  }

  /** Every item's key is at least the key of every later item. */
  predicate Descending<T>(s: seq<T>, key: T -> Key) {
    forall i, j :: 0 <= i < j < |s| ==> !KeyLess(key(s[i]), key(s[j]))
  }

  /** Puts `x` in front of the first item whose key is not greater. */
  function Insert<T>(x: T, s: seq<T>, key: T -> Key): seq<T>
  {
    if s == [] || !KeyLess(key(x), key(s[0])) then [x] + s
    else [s[0]] + Insert(x, s[1..], key)
  }

  /** The stable descending sort; the first item is inserted last, so it
      lands in front of every item with the same key. */
  function SortDescending<T>(s: seq<T>, key: T -> Key): seq<T>
  {
    if s == [] then [] else Insert(s[0], SortDescending(s[1..], key), key)
  }

  /** The items that have key `k`, in order. */
  function WithKey<T>(s: seq<T>, key: T -> Key, k: Key): seq<T>
  {
    if s == [] then []
    else (if key(s[0]) == k then [s[0]] else []) + WithKey(s[1..], key, k)
  }

  lemma {:induction false} InsertMultiset<T>(x: T, s: seq<T>, key: T -> Key)
    ensures multiset(Insert(x, s, key)) == multiset(s) + multiset{x}
  {
    if s != [] && KeyLess(key(x), key(s[0])) {
      InsertMultiset(x, s[1..], key);
      assert s == [s[0]] + s[1..];
    }
  }

  lemma {:induction false} InsertDescending<T>(x: T, s: seq<T>, key: T -> Key)
    requires Descending(s, key)
    ensures Descending(Insert(x, s, key), key)
  {
    var r := Insert(x, s, key);
    if s == [] {
    } else if !KeyLess(key(x), key(s[0])) {
      forall i, j | 0 <= i < j < |r| ensures !KeyLess(key(r[i]), key(r[j])) {
        if i == 0 {
          KeyLessIrreflexive(key(s[0]));
          NotLessTransitive(key(x), key(s[0]), key(s[j - 1]));
        }
      }
    } else {
      var t := Insert(x, s[1..], key);
      assert Descending(s[1..], key) by {
        forall i, j | 0 <= i < j < |s| - 1 ensures !KeyLess(key(s[1..][i]), key(s[1..][j])) {
          assert s[1..][i] == s[i + 1] && s[1..][j] == s[j + 1];
        }
      }
      InsertDescending(x, s[1..], key);
      InsertMultiset(x, s[1..], key);
      forall i, j | 0 <= i < j < |r| ensures !KeyLess(key(r[i]), key(r[j])) {
        if i == 0 {
          var y := t[j - 1];
          assert y in multiset(t);
          if y == x {
            KeyLessTotal(key(x), key(s[0]));
            if KeyLess(key(s[0]), key(x)) {
              KeyLessTransitive(key(x), key(s[0]), key(x));
              KeyLessIrreflexive(key(x));
            }
          } else {
            assert y in multiset(s[1..]);
            var m :| 0 <= m < |s[1..]| && s[1..][m] == y;
            assert s[m + 1] == y;
          }
        } else {
          assert r[i] == t[i - 1] && r[j] == t[j - 1];
        }
      }
    }
  }

  /** The sort puts the items into descending key order. */
  lemma {:induction false} SortIsDescending<T>(s: seq<T>, key: T -> Key)
    ensures Descending(SortDescending(s, key), key)
  {
    if s != [] {
      SortIsDescending(s[1..], key);
      InsertDescending(s[0], SortDescending(s[1..], key), key);
    }
  }

  /** The sort neither loses nor invents an item. */
  lemma {:induction false} SortIsPermutation<T>(s: seq<T>, key: T -> Key)
    ensures multiset(SortDescending(s, key)) == multiset(s)
  {
    if s != [] {
      SortIsPermutation(s[1..], key);
      InsertMultiset(s[0], SortDescending(s[1..], key), key);
      assert s == [s[0]] + s[1..];
    }
  }

  lemma {:induction false} InsertWithKey<T>(x: T, s: seq<T>, key: T -> Key, k: Key)
    ensures WithKey(Insert(x, s, key), key, k) ==
            (if key(x) == k then [x] else []) + WithKey(s, key, k)
  {
    if s == [] || !KeyLess(key(x), key(s[0])) {
      assert ([x] + s)[1..] == s;
    } else {
      var r := Insert(x, s, key);
      assert r[0] == s[0] && r[1..] == Insert(x, s[1..], key);
      InsertWithKey(x, s[1..], key, k);
      KeyLessIrreflexive(key(x));
    }
  }

  /** The sort is stable: the items sharing a key keep their order. */
  lemma {:induction false} SortIsStable<T>(s: seq<T>, key: T -> Key, k: Key)
    ensures WithKey(SortDescending(s, key), key, k) == WithKey(s, key, k)
  {
    if s != [] {
      SortIsStable(s[1..], key, k);
      InsertWithKey(s[0], SortDescending(s[1..], key), key, k);
    }
  }
}
