/** `Array.prototype.sort` with a comparator that orders two items by a
    date text, as the coach pages use it: the order of two ISO date texts
    ("YYYY-MM-DD", optionally followed by "THH:MM") of the same shape is
    the order of their characters. The sort is stable, so items with equal
    keys keep their relative order. */
module Sorting {

  /** `a` comes no later than `b` character by character. */
  predicate LexLeq(a: string, b: string)
    decreases |a|
  {
    a == [] || (b != [] && (a[0] < b[0] || (a[0] == b[0] && LexLeq(a[1..], b[1..]))))
  }

  lemma {:induction false} LexTotal(a: string, b: string)
    ensures LexLeq(a, b) || LexLeq(b, a)
    decreases |a|
  {
    if a != [] && b != [] && a[0] == b[0] {
      LexTotal(a[1..], b[1..]);
    }
  }

  lemma {:induction false} LexTrans(a: string, b: string, c: string)
    requires LexLeq(a, b) && LexLeq(b, c)
    ensures LexLeq(a, c)
    decreases |a|
  {
    if a != [] && a[0] == b[0] && b[0] == c[0] {
      LexTrans(a[1..], b[1..], c[1..]);
    }
  }

  /** `x` may stand before `y`: keys ascending, or descending when
      `newestFirst`. */
  predicate Before<T>(key: T -> string, newestFirst: bool, x: T, y: T) {
    if newestFirst then LexLeq(key(y), key(x)) else LexLeq(key(x), key(y))
  }

  predicate SortedBy<T>(s: seq<T>, key: T -> string, newestFirst: bool) {
    forall i, j :: 0 <= i < j < |s| ==> Before(key, newestFirst, s[i], s[j])
  }

  /** `x` placed after every item it may follow, before the first one it
      must precede. */
  function Insert<T>(s: seq<T>, x: T, key: T -> string, newestFirst: bool): (r: seq<T>)
    ensures |r| == |s| + 1
  {
    if s == [] then [x]
    else if !Before(key, newestFirst, s[0], x) then [x] + s
    else [s[0]] + Insert(s[1..], x, key, newestFirst)
  }

  /** The sorted copy: each item inserted after the ones before it. */
  function SortBy<T>(s: seq<T>, key: T -> string, newestFirst: bool): (r: seq<T>)
    ensures |r| == |s|
  {
    if s == [] then [] else Insert(SortBy(s[..|s| - 1], key, newestFirst), s[|s| - 1], key, newestFirst)
  }

  lemma {:induction false} InsertKeeps<T>(s: seq<T>, x: T, key: T -> string, newestFirst: bool)
    ensures multiset(Insert(s, x, key, newestFirst)) == multiset(s) + multiset{x}
  {
    if s != [] && Before(key, newestFirst, s[0], x) {
      InsertKeeps(s[1..], x, key, newestFirst);
      assert s == [s[0]] + s[1..];
    }
  }

  lemma {:induction false} InsertSorted<T>(s: seq<T>, x: T, key: T -> string, newestFirst: bool)
    requires SortedBy(s, key, newestFirst)
    ensures SortedBy(Insert(s, x, key, newestFirst), key, newestFirst)
  {
    if s == [] {
    } else if !Before(key, newestFirst, s[0], x) {
      LexTotal(key(s[0]), key(x));
      forall j | 0 <= j < |s| ensures Before(key, newestFirst, x, s[j]) {
        if j > 0 {
          if newestFirst {
            LexTrans(key(s[j]), key(s[0]), key(x));
          } else {
            LexTrans(key(x), key(s[0]), key(s[j]));
          }
        }
      }
    } else {
      var rest := Insert(s[1..], x, key, newestFirst);
      InsertSorted(s[1..], x, key, newestFirst);
      InsertKeeps(s[1..], x, key, newestFirst);
      forall j | 0 <= j < |rest| ensures Before(key, newestFirst, s[0], rest[j]) {
        assert rest[j] in multiset(rest);
        assert rest[j] == x || rest[j] in multiset(s[1..]);
        if rest[j] != x {
          var k :| 0 <= k < |s[1..]| && s[1..][k] == rest[j];
          assert s[k + 1] == rest[j];
        }
      }
    }
  }

  /** The sorted copy is in order and holds exactly the items of the
      input. */
  lemma {:induction false} SortByCorrect<T>(s: seq<T>, key: T -> string, newestFirst: bool)
    ensures SortedBy(SortBy(s, key, newestFirst), key, newestFirst)
    ensures multiset(SortBy(s, key, newestFirst)) == multiset(s)
  {
    if s != [] {
      var init := s[..|s| - 1];
      SortByCorrect(init, key, newestFirst);
      InsertSorted(SortBy(init, key, newestFirst), s[|s| - 1], key, newestFirst);
      InsertKeeps(SortBy(init, key, newestFirst), s[|s| - 1], key, newestFirst);
      assert s == init + [s[|s| - 1]];
    }
  }
}
