/** Rust's stable `sort_by`, as a function: insertion sort that places each element before
    the first later one it may precede, so equal elements keep their order. */
module Sorting {

  /** Every adjacent pair is in order. */
  predicate SortedBy<T(!new)>(s: seq<T>, le: (T, T) -> bool) {
    forall i :: 0 <= i < |s| - 1 ==> le(s[i], s[i + 1])
  }

  ghost predicate Total<T(!new)>(le: (T, T) -> bool) {
    forall a, b :: le(a, b) || le(b, a)
  }

  function Insert<T>(x: T, s: seq<T>, le: (T, T) -> bool): (r: seq<T>)
    ensures multiset(r) == multiset(s) + multiset{x}
    ensures |r| == |s| + 1
    ensures r[0] == x || (s != [] && r[0] == s[0])
  {
    if s == [] || le(x, s[0]) then [x] + s
    else
      assert s == [s[0]] + s[1..];
      [s[0]] + Insert(x, s[1..], le)
  }

  function SortBy<T>(s: seq<T>, le: (T, T) -> bool): (r: seq<T>)
    ensures multiset(r) == multiset(s)
    ensures |r| == |s|
  {
    if s == [] then []
    else
      assert s == [s[0]] + s[1..];
      Insert(s[0], SortBy(s[1..], le), le)
  }

  lemma {:induction false} InsertSorted<T(!new)>(x: T, s: seq<T>, le: (T, T) -> bool)
    requires Total(le) && SortedBy(s, le)
    ensures SortedBy(Insert(x, s, le), le)
  {
    if s != [] && !le(x, s[0]) {
      var rest := Insert(x, s[1..], le);
      assert SortedBy(s[1..], le) by {
        forall i | 0 <= i < |s[1..]| - 1 ensures le(s[1..][i], s[1..][i + 1]) {
          assert s[1..][i] == s[i + 1] && s[1..][i + 1] == s[i + 2];
        }
      }
      InsertSorted(x, s[1..], le);
      assert le(s[0], rest[0]) by {
        assert le(s[0], x);
        if rest[0] != x {
          assert rest[0] == s[1];
        }
      }
      var r := [s[0]] + rest;
      forall i | 0 <= i < |r| - 1 ensures le(r[i], r[i + 1]) {
        if i > 0 {
          assert r[i] == rest[i - 1] && r[i + 1] == rest[i];
        }
      }
    }
  }

  /** Under a total order the result is sorted, and (above) a permutation of the input. */
  lemma {:induction false} SortBySorted<T(!new)>(s: seq<T>, le: (T, T) -> bool)
    requires Total(le)
    ensures SortedBy(SortBy(s, le), le)
  {
    if s != [] {
      SortBySorted(s[1..], le);
      InsertSorted(s[0], SortBy(s[1..], le), le);
    }
  }

  // ---------------------------------------------------------------- stability

  /** The elements that `keep` accepts, in order. */
  function Filter<T>(s: seq<T>, keep: T -> bool): (r: seq<T>)
    ensures |r| <= |s|
  {
    if s == [] then []
    else (if keep(s[0]) then [s[0]] else []) + Filter(s[1..], keep)
  }

  /** Inserting `x` adds it to the elements of a group the comparator cannot tell apart
      in front of the group's other elements. */
  lemma {:induction false} InsertFilter<T>(x: T, s: seq<T>, le: (T, T) -> bool, group: T -> bool)
    requires forall a, b :: group(a) && group(b) ==> le(a, b)
    ensures Filter(Insert(x, s, le), group) == (if group(x) then [x] else []) + Filter(s, group)
  {
    if s == [] || le(x, s[0]) {
      FilterCons(x, s, group);
    } else {
      InsertFilter(x, s[1..], le, group);
      assert !(group(x) && group(s[0]));
      PassOver(x, s[0], s[1..], Insert(x, s[1..], le), group);
      assert [s[0]] + s[1..] == s;
    }
  }

  /** Passing over an element of another group leaves the filtered order alone. */
  lemma PassOver<T>(x: T, h: T, rest: seq<T>, inserted: seq<T>, group: T -> bool)
    requires Filter(inserted, group) == (if group(x) then [x] else []) + Filter(rest, group)
    requires !(group(x) && group(h))
    ensures Filter([h] + inserted, group) == (if group(x) then [x] else []) + Filter([h] + rest, group)
  {
    FilterCons(h, inserted, group);
    FilterCons(h, rest, group);
    if group(h) {
      assert Filter([h] + inserted, group) == [h] + Filter(rest, group);
      assert Filter([h] + rest, group) == [h] + Filter(rest, group);
    } else {
      assert Filter([h] + inserted, group) == Filter(inserted, group);
      assert Filter([h] + rest, group) == Filter(rest, group);
    }
  }

  lemma FilterCons<T>(a: T, t: seq<T>, group: T -> bool)
    ensures Filter([a] + t, group) == (if group(a) then [a] else []) + Filter(t, group)
  {
    assert ([a] + t)[1..] == t;
  }

  /** `sort_by` is stable: the elements of a group the comparator ranks alike (each
      before or equal to each) keep their relative order. */
  lemma {:induction false} SortByStable<T>(s: seq<T>, le: (T, T) -> bool, group: T -> bool)
    requires forall a, b :: group(a) && group(b) ==> le(a, b)
    ensures Filter(SortBy(s, le), group) == Filter(s, group)
  {
    if s != [] {
      SortByStable(s[1..], le, group);
      InsertFilter(s[0], SortBy(s[1..], le), le, group);
    }
  }

  // ---------------------------------------------------------------- string order

  /** `Ord for str`: lexicographic by character code, a proper prefix first. */
  predicate StrLe(a: string, b: string) {
    if a == [] then true
    else if b == [] then false
    else if a[0] != b[0] then a[0] < b[0]
    else StrLe(a[1..], b[1..])
  }

  lemma {:induction false} StrLeTotal(a: string, b: string)
    ensures StrLe(a, b) || StrLe(b, a)
  {
    if a != [] && b != [] && a[0] == b[0] {
      StrLeTotal(a[1..], b[1..]);
    }
  }

  lemma {:induction false} StrLeReflexive(a: string)
    ensures StrLe(a, a)
  {
    if a != [] {
      StrLeReflexive(a[1..]);
    }
  }

  lemma {:induction false} StrLeAntisymmetric(a: string, b: string)
    requires StrLe(a, b) && StrLe(b, a)
    ensures a == b
  {
    if a != [] && b != [] {
      StrLeAntisymmetric(a[1..], b[1..]);
      assert a == [a[0]] + a[1..] && b == [b[0]] + b[1..];
    }
  }

  lemma {:induction false} StrLeTransitive(a: string, b: string, c: string)
    requires StrLe(a, b) && StrLe(b, c)
    ensures StrLe(a, c)
  {
    if a != [] && b != [] && c != [] && a[0] == b[0] && b[0] == c[0] {
      StrLeTransitive(a[1..], b[1..], c[1..]);
    }
  }
}
