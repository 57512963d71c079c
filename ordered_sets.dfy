/**
 * A JavaScript `Set` as the chart scripts use it: membership plus insertion order
 * (`Array.from(set)` lists the members in the order they were first added).
 * A set is a sequence without duplicates.
 */
module OrderedSets {

  ghost predicate Distinct<T>(s: seq<T>) {
    forall i, j | 0 <= i < j < |s| :: s[i] != s[j]
  }

  /** `set.add(x)`: a new member goes to the end; an existing one keeps its place. */
  function Add<T(==,!new)>(s: seq<T>, x: T): (r: seq<T>)
    ensures Distinct(s) ==> Distinct(r)
    ensures forall y :: y in r <==> y in s || y == x
    ensures x in s ==> r == s
    ensures x !in s ==> r == s + [x]
  {
    if x in s then s else s + [x]
  }

  /** `set.delete(x)`: every other member keeps its relative order. */
  function Delete<T(==,!new)>(s: seq<T>, x: T): (r: seq<T>)
    ensures Distinct(s) ==> Distinct(r)
    ensures forall y :: y in r <==> y in s && y != x
    ensures |r| <= |s|
  {
    if s == [] then []
    else if s[0] == x then Delete(s[1..], x)
    else
      var rest := Delete(s[1..], x);
      assert Distinct(s) ==> s[0] !in rest by {
        if Distinct(s) {
          assert forall j | 1 <= j < |s| :: s[0] != s[j];
        }
      }
      [s[0]] + rest
  }

  /** `new Set(items)`: the distinct items in order of first appearance. */
  function FromSeq<T(==,!new)>(items: seq<T>): (r: seq<T>)
    ensures Distinct(r)
    ensures forall y :: y in r <==> y in items
  {
    FromSeqAfter([], items)
  }

  function FromSeqAfter<T(==,!new)>(acc: seq<T>, items: seq<T>): (r: seq<T>)
    requires Distinct(acc)
    ensures Distinct(r)
    ensures forall y :: y in r <==> y in acc || y in items
    ensures |acc| <= |r| && r[..|acc|] == acc
    decreases |items|
  {
    if items == [] then acc else FromSeqAfter(Add(acc, items[0]), items[1..])
  }

  /** Deleting a member of a set makes it exactly one smaller. */
  lemma {:induction false} DeleteMemberSize<T(!new)>(s: seq<T>, x: T)
    requires Distinct(s) && x in s
    ensures |Delete(s, x)| == |s| - 1
  {
    if s[0] == x {
      assert x !in s[1..];
      DeleteNonMember(s[1..], x);
    } else {
      DeleteMemberSize(s[1..], x);
    }
  }

  /** Deleting something that is not a member changes nothing. */
  lemma {:induction false} DeleteNonMember<T(!new)>(s: seq<T>, x: T)
    requires x !in s
    ensures Delete(s, x) == s
  {
    if s != [] {
      DeleteNonMember(s[1..], x);
    }
  }

  /** A set whose members are the distinct seq `s` has |s| members. */
  lemma {:induction false} DistinctCardinality<T>(s: seq<T>)
    requires Distinct(s)
    ensures |set y | y in s| == |s|
  {
    if s != [] {
      DistinctCardinality(s[1..]);
      assert (set y | y in s) == (set y | y in s[1..]) + {s[0]};
    }
  }

  /** A set holds each member once. */
  lemma {:induction false} DistinctCount<T>(s: seq<T>, x: T)
    requires Distinct(s)
    ensures multiset(s)[x] <= 1
  {
    if s != [] {
      assert s == [s[0]] + s[1..];
      assert s[0] !in s[1..];
      DistinctCount(s[1..], x);
    }
  }

  /** A rearrangement of a sequence without duplicates has none either. */
  lemma DistinctPermutation<T>(a: seq<T>, b: seq<T>)
    requires Distinct(a) && multiset(a) == multiset(b)
    ensures Distinct(b)
  {
    forall i, j | 0 <= i < j < |b| ensures b[i] != b[j] {
      if b[i] == b[j] {
        assert b == b[..j] + b[j..];
        assert b[i] in b[..j] && b[j] in b[j..];
        assert multiset(b)[b[j]] == multiset(b[..j])[b[j]] + multiset(b[j..])[b[j]];
        DistinctCount(a, b[j]);
        assert false;
      }
    }
  }

  /** Concatenation regroups freely; stated once so callers need not prove it in a larger context. */
  lemma AppendRegroups<T>(x: seq<T>, y: seq<T>, z: seq<T>)
    ensures x + (y + z) == (x + y) + z
  {
  }
}
