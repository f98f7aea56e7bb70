/**
 * Ordering: the comparisons and the sort the core relies on.
 *
 * Python compares strings code point by code point, a proper prefix coming
 * first, and compares tuples (and lists) of strings column by column. Both
 * `list.sort(key=...)` in src/gmprocess/io/report.py and the
 * multi-column `sort_values` in src/gmprocess/bin/gminfo.py arrange records by
 * such a key; they are modelled here by one stable insertion sort, proved to
 * return a sorted permutation of its input.
 */
module Ordering {

  /** Python's `a <= b` on `str`. */
  predicate StrLe(a: string, b: string)
    decreases |a|
  {
    if a == [] then true
    else if b == [] then false
    else if a[0] != b[0] then a[0] < b[0]
    else StrLe(a[1..], b[1..])
  }

  /** Python's `a <= b` on lists of `str`, column by column. */
  predicate KeyLe(a: seq<string>, b: seq<string>)
    decreases |a|
  {
    if a == [] then true
    else if b == [] then false
    else if a[0] != b[0] then StrLe(a[0], b[0])
    else KeyLe(a[1..], b[1..])
  }

  /** Strict order: `a < b`. */
  predicate KeyLt(a: seq<string>, b: seq<string>) {
    !KeyLe(b, a)
  }

  lemma {:induction false} StrLeRefl(a: string)
    ensures StrLe(a, a)
  {
    if a != [] { StrLeRefl(a[1..]); }
  }

  lemma {:induction false} StrLeTotal(a: string, b: string)
    ensures StrLe(a, b) || StrLe(b, a)
  {
    if a != [] && b != [] && a[0] == b[0] { StrLeTotal(a[1..], b[1..]); }
  }

  lemma {:induction false} StrLeAntisym(a: string, b: string)
    requires StrLe(a, b) && StrLe(b, a)
    ensures a == b
  {
    if a != [] && b != [] {
      StrLeAntisym(a[1..], b[1..]);
      assert a == [a[0]] + a[1..] && b == [b[0]] + b[1..];
    }
  }

  lemma {:induction false} StrLeTrans(a: string, b: string, c: string)
    requires StrLe(a, b) && StrLe(b, c)
    ensures StrLe(a, c)
  {
    if a != [] && b != [] && c != [] && a[0] == b[0] && b[0] == c[0] {
      StrLeTrans(a[1..], b[1..], c[1..]);
    }
  }

  lemma {:induction false} KeyLeRefl(a: seq<string>)
    ensures KeyLe(a, a)
  {
    if a != [] { KeyLeRefl(a[1..]); }
  }

  /** Any two keys are comparable: the key order is total. */
  lemma {:induction false} KeyLeTotal(a: seq<string>, b: seq<string>)
    ensures KeyLe(a, b) || KeyLe(b, a)
  {
    if a != [] && b != [] {
      if a[0] == b[0] { KeyLeTotal(a[1..], b[1..]); } else { StrLeTotal(a[0], b[0]); }
    }
  }

  lemma {:induction false} KeyLeTrans(a: seq<string>, b: seq<string>, c: seq<string>)
    requires KeyLe(a, b) && KeyLe(b, c)
    ensures KeyLe(a, c)
  {
    if a != [] && b != [] && c != [] {
      if a[0] == b[0] && b[0] == c[0] {
        KeyLeTrans(a[1..], b[1..], c[1..]);
      } else if a[0] == b[0] {
        assert StrLe(b[0], c[0]);
      } else if b[0] == c[0] {
        assert StrLe(a[0], b[0]);
      } else {
        StrLeTrans(a[0], b[0], c[0]);
        if a[0] == c[0] { StrLeAntisym(a[0], b[0]); }
      }
    }
  }

  /** Every element's key is not greater than the keys after it. */
  predicate SortedBy<T>(s: seq<T>, key: T -> seq<string>) {
    forall i, j :: 0 <= i < j < |s| ==> KeyLe(key(s[i]), key(s[j]))
  }

  /** Inserts `x` after every element whose key is not greater than its own. */
  function InsertBy<T>(x: T, s: seq<T>, key: T -> seq<string>): seq<T> {
    if s == [] then [x]
    else if KeyLt(key(x), key(s[0])) then [x] + s
    else [s[0]] + InsertBy(x, s[1..], key)
  }

  /** A stable sort: elements with equal keys keep their input order. */
  function SortBy<T>(s: seq<T>, key: T -> seq<string>): seq<T> {
    if s == [] then []
    else InsertBy(s[|s| - 1], SortBy(s[..|s| - 1], key), key)
  }

  lemma {:induction false} InsertByPerm<T>(x: T, s: seq<T>, key: T -> seq<string>)
    ensures multiset(InsertBy(x, s, key)) == multiset(s) + multiset{x}
  {
    if s != [] && !KeyLt(key(x), key(s[0])) {
      InsertByPerm(x, s[1..], key);
      assert s == [s[0]] + s[1..];
    }
  }

  lemma {:induction false} InsertBySorted<T>(x: T, s: seq<T>, key: T -> seq<string>)
    requires SortedBy(s, key)
    ensures SortedBy(InsertBy(x, s, key), key)
  {
    if s == [] {
    } else if KeyLt(key(x), key(s[0])) {
      KeyLeTotal(key(x), key(s[0]));
      forall j | 1 <= j < |s| ensures KeyLe(key(x), key(s[j])) {
        KeyLeTrans(key(x), key(s[0]), key(s[j]));
      }
    } else {
      var rest := s[1..];
      InsertBySorted(x, rest, key);
      InsertByPerm(x, rest, key);
      var r := InsertBy(x, rest, key);
      KeyLeTotal(key(x), key(s[0]));
      forall j | 0 <= j < |r| ensures KeyLe(key(s[0]), key(r[j])) {
        assert r[j] in multiset(r);
        assert r[j] in multiset(rest) || r[j] == x;
        if r[j] != x {
          var k :| 0 <= k < |rest| && rest[k] == r[j];
          assert rest[k] == s[k + 1];
        }
      }
    }
  }

  /** The sort returns a permutation of its input, in key order. */
  lemma {:induction false} SortByCorrect<T>(s: seq<T>, key: T -> seq<string>)
    ensures SortedBy(SortBy(s, key), key)
    ensures multiset(SortBy(s, key)) == multiset(s)
  {
    if s != [] {
      var init := s[..|s| - 1];
      SortByCorrect(init, key);
      InsertBySorted(s[|s| - 1], SortBy(init, key), key);
      InsertByPerm(s[|s| - 1], SortBy(init, key), key);
      assert s == init + [s[|s| - 1]];
    }
  }

  lemma {:induction false} SortByLength<T>(s: seq<T>, key: T -> seq<string>)
    ensures |SortBy(s, key)| == |s|
  {
    SortByCorrect(s, key);
    assert |multiset(SortBy(s, key))| == |multiset(s)|;
  }
}
