/**
  Sequence vocabulary shared by the entities and controllers: duplicate
  freedom, first occurrences, and "each present value once, in order of first
  occurrence", which is how both the course roster and the per-course grouping
  of results are built.
 */
module Seqs {
  import opened Types

  /** No value occurs twice in `s`. */
  predicate NoDuplicates<T(==)>(s: seq<T>) {
    forall i, j :: 0 <= i < j < |s| ==> s[i] != s[j]
  }

  /** The index of the first occurrence of `x` in `s`. */
  function FirstIndex<T(==)>(s: seq<T>, x: T): (k: nat)
    requires x in s
    ensures k < |s| && s[k] == x
    ensures forall j :: 0 <= j < k ==> s[j] != x
  {
    if s[0] == x then 0 else 1 + FirstIndex(s[1..], x)
  }

  /** Cutting off a suffix does not move the first occurrence of a value the prefix still holds. */
  lemma FirstIndexInPrefix<T>(s: seq<T>, m: nat, x: T)
    requires m <= |s| && x in s[..m]
    ensures FirstIndex(s, x) == FirstIndex(s[..m], x) < m
  {
    var a := FirstIndex(s, x);
    var b := FirstIndex(s[..m], x);
    assert s[..m][b] == s[b];
    assert a <= b;
    assert s[..m][a] == s[a];
  }

  /**
    The present values of `s`, each once, in order of first occurrence. The
    definition follows the scanning loop: walk left to right and append a
    present value that has not been collected yet.
   */
  function DistinctPresent<T(==, !new)>(s: seq<Option<T>>): (r: seq<T>)
    ensures NoDuplicates(r)
    ensures forall x :: x in r <==> Some(x) in s
    decreases |s|
  {
    if |s| == 0 then []
    else
      var pre := s[..|s| - 1];
      var prefix := DistinctPresent(pre);
      var last := s[|s| - 1];
      assert s == pre + [last];
      if last.Some? && last.value !in prefix then prefix + [last.value] else prefix
  }

  /** Every value of `r` is present in `s`, and the values of `r` first occur in `s` in the order of `r`. */
  predicate InFirstOccurrenceOrder<T(==)>(s: seq<Option<T>>, r: seq<T>) {
    && (forall x :: x in r ==> Some(x) in s)
    && (forall i, j :: 0 <= i < j < |r| ==> FirstIndex(s, Some(r[i])) < FirstIndex(s, Some(r[j])))
  }

  /** The collected values appear in the order of their first occurrences. */
  lemma {:induction false} DistinctPresentInFirstOccurrenceOrder<T(!new)>(s: seq<Option<T>>)
    ensures InFirstOccurrenceOrder(s, DistinctPresent(s))
    decreases |s|
  {
    if |s| > 0 {
      var pre := s[..|s| - 1];
      var prefix := DistinctPresent(pre);
      var last := s[|s| - 1];
      var r := DistinctPresent(s);
      DistinctPresentInFirstOccurrenceOrder(pre);
      assert s == pre + [last];
      if last.Some? && last.value !in prefix {
        assert r == prefix + [last.value];
        assert FirstIndex(s, last) == |s| - 1 by {
          assert last !in pre;
        }
        forall i, j | 0 <= i < j < |r|
          ensures FirstIndex(s, Some(r[i])) < FirstIndex(s, Some(r[j]))
        {
          assert r[i] == prefix[i] && Some(prefix[i]) in pre;
          FirstIndexInPrefix(s, |s| - 1, Some(prefix[i]));
          if j < |prefix| {
            assert r[j] == prefix[j] && Some(prefix[j]) in pre;
            FirstIndexInPrefix(s, |s| - 1, Some(prefix[j]));
          } else {
            assert Some(r[j]) == last;
          }
        }
      } else {
        assert r == prefix;
        forall i, j | 0 <= i < j < |r|
          ensures FirstIndex(s, Some(r[i])) < FirstIndex(s, Some(r[j]))
        {
          assert Some(prefix[i]) in pre && Some(prefix[j]) in pre;
          FirstIndexInPrefix(s, |s| - 1, Some(prefix[i]));
          FirstIndexInPrefix(s, |s| - 1, Some(prefix[j]));
        }
      }
    }
  }

  /** Dropping one position from a duplicate-free sequence keeps it duplicate-free and loses that value. */
  lemma DropKeepsNoDuplicates<T>(s: seq<T>, k: nat)
    requires k < |s|
    ensures NoDuplicates(s) ==> NoDuplicates(s[..k] + s[k + 1..]) && s[k] !in s[..k] + s[k + 1..]
  {
    var d := s[..k] + s[k + 1..];
    assert forall i :: 0 <= i < |d| ==> d[i] == (if i < k then s[i] else s[i + 1]);
  }

  /** In a duplicate-free sequence every value occurs at most once. */
  lemma {:induction false} NoDuplicatesCountsAtMostOne<T>(s: seq<T>, x: T)
    requires NoDuplicates(s)
    ensures multiset(s)[x] <= 1
  {
    if |s| > 0 {
      assert s == [s[0]] + s[1..];
      assert NoDuplicates(s[1..]) by {
        forall i, j | 0 <= i < j < |s[1..]|
          ensures s[1..][i] != s[1..][j]
        {
          assert s[1..][i] == s[i + 1] && s[1..][j] == s[j + 1];
        }
      }
      NoDuplicatesCountsAtMostOne(s[1..], x);
      if x == s[0] {
        assert x !in s[1..];
      }
    }
  }

  /** A value found at two different positions occurs at least twice. */
  lemma TwoPositionsCountTwice<T>(s: seq<T>, i: nat, j: nat)
    requires i < j < |s| && s[i] == s[j]
    ensures multiset(s)[s[i]] >= 2
  {
    assert s == s[..j] + s[j..];
    assert s[i] in s[..j];
    assert s[j] in s[j..];
  }
}
