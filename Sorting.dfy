/** `Array.prototype.sort` with a comparator, as `getCityList` uses it.

    The comparator the source passes is `localeCompare` with base
    sensitivity, which is locale data the model cannot see. The sort is
    therefore generic in a comparator `le` that is only required to be a
    total preorder (`le(a, b)` reads "a sorts no later than b"); ties are
    names the comparator cannot tell apart. The sort is stable, as the
    language has required since ES2019: it is an insertion sort that places
    each element after everything it does not sort before. */
module Sorting {

  ghost predicate TotalPreorder<T(!new)>(le: (T, T) -> bool)
  {
    && (forall a, b :: le(a, b) || le(b, a))
    && (forall a, b, c :: le(a, b) && le(b, c) ==> le(a, c))
  }

  predicate Equivalent<T>(le: (T, T) -> bool, a: T, b: T)
  {
    le(a, b) && le(b, a)
  }

  ghost predicate Sorted<T>(le: (T, T) -> bool, s: seq<T>)
  {
    forall i, j :: 0 <= i < j < |s| ==> le(s[i], s[j])
  }

  ghost predicate NoDuplicates<T>(s: seq<T>)
  {
    forall i, j :: 0 <= i < j < |s| ==> s[i] != s[j]
  }

  /** The position of the first occurrence of `x` in `s`. */
  function FirstIndex<T(==)>(s: seq<T>, x: T): (i: nat)
    requires x in s
    ensures i < |s| && s[i] == x && x !in s[..i]
  {
    if s[0] == x then 0 else 1 + FirstIndex(s[1..], x)
  }

  /** Where an insertion sort puts `x` in `r`: after the longest prefix
      whose elements all sort no later than `x`. */
  function InsertPos<T>(x: T, r: seq<T>, le: (T, T) -> bool): (p: nat)
    ensures p <= |r|
    ensures forall k :: 0 <= k < p ==> le(r[k], x)
    ensures p < |r| ==> !le(r[p], x)
  {
    if r == [] || !le(r[0], x) then 0 else 1 + InsertPos(x, r[1..], le)
  }

  function Insert<T>(x: T, r: seq<T>, le: (T, T) -> bool): seq<T>
  {
    var p := InsertPos(x, r, le);
    r[..p] + [x] + r[p..]
  }

  /** The stable sort: sort all but the last element, then insert the last. */
  function SortBy<T>(s: seq<T>, le: (T, T) -> bool): (r: seq<T>)
    ensures multiset(r) == multiset(s)
  {
    if s == [] then []
    else
      var r0 := SortBy(s[..|s| - 1], le);
      assert s == s[..|s| - 1] + [s[|s| - 1]];
      var p := InsertPos(s[|s| - 1], r0, le);
      assert r0 == r0[..p] + r0[p..];
      Insert(s[|s| - 1], r0, le)
  }

  /** In a sorted sequence, nothing from the insertion point onwards sorts
      no later than the inserted element. */
  lemma InsertPosIsTight<T(!new)>(x: T, r: seq<T>, le: (T, T) -> bool)
    requires TotalPreorder(le) && Sorted(le, r)
    ensures forall k :: InsertPos(x, r, le) <= k < |r| ==> !le(r[k], x) && le(x, r[k])
  {
    var p := InsertPos(x, r, le);
    forall k | p <= k < |r|
      ensures !le(r[k], x) && le(x, r[k])
    {
      if p < k {
        assert le(r[p], r[k]);
      }
    }
  }

  lemma InsertKeepsSorted<T(!new)>(x: T, r: seq<T>, le: (T, T) -> bool)
    requires TotalPreorder(le) && Sorted(le, r)
    ensures Sorted(le, Insert(x, r, le))
  {
    InsertPosIsTight(x, r, le);
  }

  lemma {:induction false} SortBySorted<T(!new)>(s: seq<T>, le: (T, T) -> bool)
    requires TotalPreorder(le)
    ensures Sorted(le, SortBy(s, le))
  {
    if s != [] {
      SortBySorted(s[..|s| - 1], le);
      InsertKeepsSorted(s[|s| - 1], SortBy(s[..|s| - 1], le), le);
    }
  }

  lemma {:induction false} SortByNoDuplicates<T>(s: seq<T>, le: (T, T) -> bool)
    requires NoDuplicates(s)
    ensures NoDuplicates(SortBy(s, le))
  {
    if s != [] {
      var s0, x := s[..|s| - 1], s[|s| - 1];
      SortByNoDuplicates(s0, le);
      var r0 := SortBy(s0, le);
      assert x !in s0;
      assert x !in multiset(r0);
      var p := InsertPos(x, r0, le);
      var r := Insert(x, r0, le);
      forall i, j | 0 <= i < j < |r|
        ensures r[i] != r[j]
      {
        if i != p && j != p {
          var i0 := if i < p then i else i - 1;
          var j0 := if j < p then j else j - 1;
          assert r[i] == r0[i0] && r[j] == r0[j0] && i0 < j0;
        } else if i == p {
          assert r[j] == r0[j - 1];
        } else {
          assert r[i] == r0[i];
        }
      }
    }
  }

  /** The position of an element in `s + [x]` is its position in `s`. */
  lemma {:induction false} FirstIndexOfPrefix<T>(s: seq<T>, x: T, y: T)
    requires y in s
    ensures y in s + [x] && FirstIndex(s + [x], y) == FirstIndex(s, y)
  {
    if s[0] != y {
      assert (s + [x])[1..] == s[1..] + [x];
      FirstIndexOfPrefix(s[1..], x, y);
    }
  }

  /** A value new to `s` stands at the end of `s + [x]`. */
  lemma FirstIndexOfNewLast<T>(s: seq<T>, x: T)
    requires x !in s
    ensures x in s + [x] && FirstIndex(s + [x], x) == |s|
  {
    assert (s + [x])[..|s|] == s;
  }

  /** Stability of `r` against the input `s`: two elements of `r` the
      comparator cannot tell apart stand in the order of their first
      occurrences in `s`. */
  ghost predicate StableWrt<T>(le: (T, T) -> bool, s: seq<T>, r: seq<T>)
  {
    forall i, j :: 0 <= i < j < |r| && Equivalent(le, r[i], r[j]) ==>
      r[i] in s && r[j] in s && FirstIndex(s, r[i]) < FirstIndex(s, r[j])
  }

  lemma InsertAt<T>(x: T, r0: seq<T>, le: (T, T) -> bool)
    ensures var p, r := InsertPos(x, r0, le), Insert(x, r0, le);
      && |r| == |r0| + 1 && r[p] == x
      && (forall k :: 0 <= k < p ==> r[k] == r0[k])
      && (forall k :: p < k < |r| ==> r[k] == r0[k - 1])
  {
  }

  /** Two old elements keep their order relative to each other. */
  lemma OldPairStable<T>(s0: seq<T>, x: T, r0: seq<T>, le: (T, T) -> bool, i0: nat, j0: nat)
    requires multiset(r0) == multiset(s0) && StableWrt(le, s0, r0)
    requires i0 < j0 < |r0| && Equivalent(le, r0[i0], r0[j0])
    ensures r0[i0] in s0 + [x] && r0[j0] in s0 + [x]
    ensures FirstIndex(s0 + [x], r0[i0]) < FirstIndex(s0 + [x], r0[j0])
  {
    FirstIndexOfPrefix(s0, x, r0[i0]);
    FirstIndexOfPrefix(s0, x, r0[j0]);
  }

  /** An old element comes before the new last element of the input. */
  lemma OldBeforeNew<T>(s0: seq<T>, x: T, r0: seq<T>, i0: nat)
    requires multiset(r0) == multiset(s0) && x !in s0 && i0 < |r0|
    ensures r0[i0] in s0 + [x] && x in s0 + [x]
    ensures FirstIndex(s0 + [x], r0[i0]) < FirstIndex(s0 + [x], x)
  {
    assert r0[i0] in multiset(s0);
    FirstIndexOfPrefix(s0, x, r0[i0]);
    FirstIndexOfNewLast(s0, x);
  }

  /** One insertion step keeps the result stable against the input
      extended by the inserted element. */
  lemma InsertStable<T(!new)>(s0: seq<T>, x: T, r0: seq<T>, le: (T, T) -> bool)
    requires TotalPreorder(le) && Sorted(le, r0)
    requires x !in s0 && multiset(r0) == multiset(s0)
    requires StableWrt(le, s0, r0)
    ensures StableWrt(le, s0 + [x], Insert(x, r0, le))
  {
    InsertPosIsTight(x, r0, le);
    InsertAt(x, r0, le);
    var p := InsertPos(x, r0, le);
    var r := Insert(x, r0, le);
    forall i, j | 0 <= i < j < |r| && Equivalent(le, r[i], r[j])
      ensures r[i] in s0 + [x] && r[j] in s0 + [x]
      ensures FirstIndex(s0 + [x], r[i]) < FirstIndex(s0 + [x], r[j])
    {
      if j == p {
        OldBeforeNew(s0, x, r0, i);
      } else if i != p {
        var i0 := if i < p then i else i - 1;
        var j0 := if j < p then j else j - 1;
        OldPairStable(s0, x, r0, le, i0, j0);
      } else {
        assert false;
      }
    }
  }

  /** Stability: names the comparator cannot tell apart keep their input
      order. */
  lemma {:induction false} SortByStable<T(!new)>(s: seq<T>, le: (T, T) -> bool)
    requires TotalPreorder(le) && NoDuplicates(s)
    ensures StableWrt(le, s, SortBy(s, le))
  {
    if s != [] {
      var s0, x := s[..|s| - 1], s[|s| - 1];
      assert s == s0 + [x];
      SortByStable(s0, le);
      SortBySorted(s0, le);
      InsertStable(s0, x, SortBy(s0, le), le);
    }
  }

  // A concrete comparator for the scenarios: names compared letter by
  // letter after folding ASCII upper case to lower case, so that "berlin"
  // and "Berlin" tie and both sort before "Hamburg".

  function FoldChar(c: char): char
  {
    if 'A' <= c <= 'Z' then (c as int + 32) as char else c
  }

  function Fold(s: string): (f: string)
    ensures |f| == |s|
  {
    seq(|s|, i requires 0 <= i < |s| => FoldChar(s[i]))
  }

  /** Lexicographic order on code points; a proper prefix sorts first. */
  predicate LexLe(a: string, b: string)
  {
    if a == [] then true
    else if b == [] then false
    else if a[0] != b[0] then a[0] < b[0]
    else LexLe(a[1..], b[1..])
  }

  predicate CaseInsensitiveLe(a: string, b: string)
  {
    LexLe(Fold(a), Fold(b))
  }

  lemma {:induction false} LexLeTotal(a: string, b: string)
    ensures LexLe(a, b) || LexLe(b, a)
  {
    if a != [] && b != [] && a[0] == b[0] {
      LexLeTotal(a[1..], b[1..]);
    }
  }

  lemma {:induction false} LexLeTransitive(a: string, b: string, c: string)
    requires LexLe(a, b) && LexLe(b, c)
    ensures LexLe(a, c)
  {
    if a != [] && b != [] && c != [] && a[0] == b[0] && b[0] == c[0] {
      LexLeTransitive(a[1..], b[1..], c[1..]);
    }
  }

  lemma CaseInsensitiveLeIsTotalPreorder()
    ensures TotalPreorder(CaseInsensitiveLe)
  {
    forall a, b
      ensures CaseInsensitiveLe(a, b) || CaseInsensitiveLe(b, a)
    {
      LexLeTotal(Fold(a), Fold(b));
    }
    forall a, b, c | CaseInsensitiveLe(a, b) && CaseInsensitiveLe(b, c)
      ensures CaseInsensitiveLe(a, c)
    {
      LexLeTransitive(Fold(a), Fold(b), Fold(c));
    }
  }

  lemma {:induction false} LexLeReflexive(a: string)
    ensures LexLe(a, a)
  {
    if a != [] {
      LexLeReflexive(a[1..]);
    }
  }

  /** Names that differ only in ASCII letter case tie under the comparator. */
  lemma CaseVariantsTie(a: string, b: string)
    requires Fold(a) == Fold(b)
    ensures Equivalent(CaseInsensitiveLe, a, b)
  {
    LexLeReflexive(Fold(a));
  }
}
