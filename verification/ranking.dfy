/**
  Ranked score entries and the descending sort the score service applies to
  them. The order among equal scores is left unspecified: the contracts say
  only that the output is sorted and is a permutation of the input.
 */
module Ranking {
  import opened Types
  import opened Seqs

  /** One line of the ranked list: a student and their rounded percentage. */
  datatype Entry = Entry(student: UserId, score: int)

  /** Scores never increase along the sequence. */
  predicate SortedDesc(s: seq<Entry>) {
    forall i, j :: 0 <= i < j < |s| ==> s[i].score >= s[j].score
  }

  /** Inserts `x` into a descending sequence, before the first entry whose score is not higher. */
  function InsertDesc(x: Entry, s: seq<Entry>): (r: seq<Entry>)
    requires SortedDesc(s)
    ensures SortedDesc(r)
    ensures multiset(r) == multiset(s) + multiset{x}
  {
    if |s| == 0 then [x]
    else if x.score >= s[0].score then [x] + s
    else
      var rest := InsertDesc(x, s[1..]);
      assert s == [s[0]] + s[1..];
      assert forall j :: 0 <= j < |s[1..]| ==> s[0].score >= s[1..][j].score by {
        forall j | 0 <= j < |s[1..]|
          ensures s[0].score >= s[1..][j].score
        {
          assert s[1..][j] == s[j + 1];
        }
      }
      BoundedByMultiset(s[0].score, rest, s[1..], x);
      PrependKeepsSorted(s[0], rest);
      assert multiset([s[0]] + rest) == multiset{s[0]} + multiset(rest);
      assert multiset(s) == multiset{s[0]} + multiset(s[1..]);
      [s[0]] + rest
  }

  /** An entry scoring at least every entry of a descending sequence can lead it. */
  lemma PrependKeepsSorted(h: Entry, t: seq<Entry>)
    requires SortedDesc(t)
    requires forall j :: 0 <= j < |t| ==> h.score >= t[j].score
    ensures SortedDesc([h] + t)
  {
    var r := [h] + t;
    forall i, j | 0 <= i < j < |r|
      ensures r[i].score >= r[j].score
    {
      assert r[j] == t[j - 1];
      if i > 0 {
        assert r[i] == t[i - 1];
      }
    }
  }

  /** A bound on every score of `t` and on `x` bounds every score of a permutation of `t` plus `x`. */
  lemma BoundedByMultiset(b: int, rest: seq<Entry>, t: seq<Entry>, x: Entry)
    requires multiset(rest) == multiset(t) + multiset{x}
    requires b >= x.score
    requires forall j :: 0 <= j < |t| ==> b >= t[j].score
    ensures forall j :: 0 <= j < |rest| ==> b >= rest[j].score
  {
    forall j | 0 <= j < |rest|
      ensures b >= rest[j].score
    {
      var y := rest[j];
      assert y in multiset(rest);
      if y != x {
        assert y in multiset(t);
      }
    }
  }

  /** The descending sort: sorted by score, non-increasing, and a permutation of its input. */
  function SortDesc(s: seq<Entry>): (r: seq<Entry>)
    ensures SortedDesc(r)
    ensures multiset(r) == multiset(s)
  {
    if |s| == 0 then []
    else
      assert s == [s[0]] + s[1..];
      InsertDesc(s[0], SortDesc(s[1..]))
  }

  /** No student has two entries. */
  predicate DistinctStudents(s: seq<Entry>) {
    forall i, j :: 0 <= i < j < |s| ==> s[i].student != s[j].student
  }

  /** Reordering entries cannot give a student a second entry. */
  lemma PermutationKeepsDistinctStudents(s: seq<Entry>, t: seq<Entry>)
    requires DistinctStudents(s) && multiset(s) == multiset(t)
    ensures DistinctStudents(t)
  {
    assert NoDuplicates(s) by {
      forall i, j | 0 <= i < j < |s|
        ensures s[i] != s[j]
      {
        assert s[i].student != s[j].student;
      }
    }
    forall i, j | 0 <= i < j < |t|
      ensures t[i].student != t[j].student
    {
      if t[i] == t[j] {
        TwoPositionsCountTwice(t, i, j);
        NoDuplicatesCountsAtMostOne(s, t[i]);
      } else {
        assert t[i] in multiset(s) && t[j] in multiset(s);
        var p :| 0 <= p < |s| && s[p] == t[i];
        var q :| 0 <= q < |s| && s[q] == t[j];
        assert s[p].student != s[q].student by {
          if p < q {} else {}
        }
      }
    }
  }
}
