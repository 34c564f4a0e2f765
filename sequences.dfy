/** Enumerable.Distinct over value-equal elements. */
module Sequences {

  /** Index of the first occurrence of `x` in `s`. */
  function FirstIndex<T(==)>(s: seq<T>, x: T): (k: nat)
    requires x in s
    ensures k < |s| && s[k] == x
    ensures forall j :: 0 <= j < k ==> s[j] != x
  {
    if s[0] == x then 0 else 1 + FirstIndex(s[1..], x)
  }

  /** No element occurs twice. */
  predicate NoDuplicates<T(==)>(s: seq<T>) {
    forall i, j :: 0 <= i < j < |s| ==> s[i] != s[j]
  }

  /** `r` holds exactly the elements of `s`, each once, in order of first occurrence in `s`. */
  predicate IsDistinctOf<T(==)>(s: seq<T>, r: seq<T>) {
    && (forall i :: 0 <= i < |r| ==> r[i] in s)
    && (forall i :: 0 <= i < |s| ==> s[i] in r)
    && NoDuplicates(r)
    && (forall i, j :: 0 <= i < j < |r| ==> FirstIndex(s, r[i]) < FirstIndex(s, r[j]))
  }

  /** Enumerable.Distinct: the elements of `s`, each once, in order of first occurrence. */
  function Distinct<T(==)>(s: seq<T>): (r: seq<T>)
    ensures IsDistinctOf(s, r)
    ensures |r| <= |s|
  {
    if |s| == 0 then []
    else
      var init := s[..|s| - 1];
      var d := Distinct(init);
      DistinctExtend(s, init, d);
      if s[|s| - 1] in d then d else d + [s[|s| - 1]]
  }

  lemma {:induction false} DistinctExtend<T>(s: seq<T>, init: seq<T>, d: seq<T>)
    requires |s| > 0 && init == s[..|s| - 1]
    requires IsDistinctOf(init, d)
    ensures IsDistinctOf(s, if s[|s| - 1] in d then d else d + [s[|s| - 1]])
  {
    FirstIndexInPrefix(s, init);
    if s[|s| - 1] in d {
      DistinctKeep(s, init, d);
    } else {
      DistinctAppend(s, init, d);
    }
  }

  /** The last element was seen before: the distinct elements stay the same. */
  lemma {:induction false} DistinctKeep<T>(s: seq<T>, init: seq<T>, d: seq<T>)
    requires |s| > 0 && init == s[..|s| - 1]
    requires IsDistinctOf(init, d) && s[|s| - 1] in d
    requires forall x :: x in init ==> FirstIndex(s, x) == FirstIndex(init, x)
    ensures IsDistinctOf(s, d)
  {
    forall i | 0 <= i < |d| ensures d[i] in s {
      var k := FirstIndex(init, d[i]);
      assert s[k] == init[k];
    }
    forall i | 0 <= i < |s| ensures s[i] in d {
      if i < |s| - 1 { assert s[i] == init[i]; }
    }
    forall i, j | 0 <= i < j < |d| ensures FirstIndex(s, d[i]) < FirstIndex(s, d[j]) {
      assert FirstIndex(init, d[i]) < FirstIndex(init, d[j]);
    }
  }

  /** The last element is new: it joins the distinct elements at the end. */
  lemma {:induction false} DistinctAppend<T>(s: seq<T>, init: seq<T>, d: seq<T>)
    requires |s| > 0 && init == s[..|s| - 1]
    requires IsDistinctOf(init, d) && s[|s| - 1] !in d
    requires forall x :: x in init ==> FirstIndex(s, x) == FirstIndex(init, x)
    requires s[|s| - 1] !in init ==> FirstIndex(s, s[|s| - 1]) == |s| - 1
    ensures IsDistinctOf(s, d + [s[|s| - 1]])
  {
    NotInCovered(init, d, s[|s| - 1]);
    var r := d + [s[|s| - 1]];
    AppendedMembers(s, init, d, r);
    AppendedCovers(s, init, d);
    AppendedOrder(s, init, d, r);
    AppendedNoDuplicates(d, s[|s| - 1], r);
  }

  /** What is missing from a cover is missing from what it covers. */
  lemma NotInCovered<T>(init: seq<T>, d: seq<T>, x: T)
    requires forall i :: 0 <= i < |init| ==> init[i] in d
    requires x !in d
    ensures x !in init
  {
  }

  /** A new element appended to a sequence without duplicates keeps it without duplicates. */
  lemma {:induction false} AppendedNoDuplicates<T>(d: seq<T>, x: T, r: seq<T>)
    requires NoDuplicates(d) && x !in d && r == d + [x]
    ensures NoDuplicates(r)
  {
    forall i, j | 0 <= i < j < |r| ensures r[i] != r[j] {
      assert r[i] == d[i];
      if j < |d| { assert r[j] == d[j]; }
    }
  }

  /** Every distinct element, and the new last one, occurs in `s`. */
  lemma {:induction false} AppendedMembers<T>(s: seq<T>, init: seq<T>, d: seq<T>, r: seq<T>)
    requires |s| > 0 && init == s[..|s| - 1] && r == d + [s[|s| - 1]]
    requires forall i :: 0 <= i < |d| ==> d[i] in init
    ensures forall i :: 0 <= i < |r| ==> r[i] in s
  {
    forall i | 0 <= i < |r| ensures r[i] in s {
      if i < |d| {
        var k :| 0 <= k < |init| && init[k] == d[i];
        assert r[i] == s[k];
      }
    }
  }

  /** Every element of `s` is among the distinct ones or is the new last one. */
  lemma {:induction false} AppendedCovers<T>(s: seq<T>, init: seq<T>, d: seq<T>)
    requires |s| > 0 && init == s[..|s| - 1]
    requires forall i :: 0 <= i < |init| ==> init[i] in d
    ensures forall i :: 0 <= i < |s| ==> s[i] in d + [s[|s| - 1]]
  {
    forall i | 0 <= i < |s| ensures s[i] in d + [s[|s| - 1]] {
      if i < |s| - 1 { assert s[i] == init[i]; }
    }
  }

  /** The new last element occurs first after every earlier distinct element. */
  lemma {:induction false} AppendedOrder<T>(s: seq<T>, init: seq<T>, d: seq<T>, r: seq<T>)
    requires |s| > 0 && init == s[..|s| - 1] && s[|s| - 1] !in init && r == d + [s[|s| - 1]]
    requires forall i :: 0 <= i < |d| ==> d[i] in init
    requires forall i, j :: 0 <= i < j < |d| ==> FirstIndex(init, d[i]) < FirstIndex(init, d[j])
    requires forall x :: x in init ==> FirstIndex(s, x) == FirstIndex(init, x)
    requires FirstIndex(s, s[|s| - 1]) == |s| - 1
    ensures forall i, j :: 0 <= i < j < |r| ==> FirstIndex(s, r[i]) < FirstIndex(s, r[j])
  {
    forall i, j | 0 <= i < j < |r| ensures FirstIndex(s, r[i]) < FirstIndex(s, r[j]) {
      assert r[i] == d[i];
      if j < |d| {
        assert r[j] == d[j];
      } else {
        assert FirstIndex(init, d[i]) < |init|;
      }
    }
  }

  /** A first occurrence within a prefix is the first occurrence in the whole sequence. */
  lemma {:induction false} FirstIndexInPrefix<T>(s: seq<T>, init: seq<T>)
    requires |s| > 0 && init == s[..|s| - 1]
    ensures forall x :: x in init ==> FirstIndex(s, x) == FirstIndex(init, x)
    ensures s[|s| - 1] !in init ==> FirstIndex(s, s[|s| - 1]) == |s| - 1
  {
    forall x | x in init ensures FirstIndex(s, x) == FirstIndex(init, x) {
      var k := FirstIndex(init, x);
      assert s[k] == x;
      assert forall j :: 0 <= j < k ==> s[j] == init[j];
    }
    if s[|s| - 1] !in init {
      assert forall j :: 0 <= j < |s| - 1 ==> s[j] == init[j];
    }
  }

  /** Concatenation regroups freely. */
  lemma AppendAssociative<T>(a: seq<T>, b: seq<T>, c: seq<T>)
    ensures a + b + c == a + (b + c)
  {
  }
}
