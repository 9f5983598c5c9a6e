/** `filter_candidates`: score every candidate, keep those scoring at least
    7, and order them by score, highest first, equal scores in input order. */
module Ranking {
  import opened Wrappers
  import opened Profiles
  import opened Scoring

  /** A kept candidate with its score and the weight it was scaled by. */
  datatype Ranked = Ranked(candidate: Candidate, score: real, maxScore: nat)

  /** The lowest score that is kept. */
  const Cutoff: real := 7.0

  /** The kept candidates in input order, or the first scoring error, which
      aborts the whole ranking. */
  function Qualified(candidates: seq<Candidate>, requirement: Requirement, ratio: Similarity, currentYear: int)
    : Result<seq<Ranked>, ScoreError>
  {
    if candidates == [] then Success([])
    else
      var last := candidates[|candidates| - 1];
      match Qualified(candidates[..|candidates| - 1], requirement, ratio, currentYear)
      case Failure(e) => Failure(e)
      case Success(kept) =>
        match Score(last, requirement, ratio, currentYear)
        case Failure(e) => Failure(e)
        case Success(r) => Success(if r.score >= Cutoff then kept + [Ranked(last, r.score, r.maxScore)] else kept)
  }

  /** An entry is kept exactly when its candidate is one of the input, it
      carries that candidate's own score and weight, and the score is at
      least the cutoff. */
  lemma {:induction false} QualifiedMembership(candidates: seq<Candidate>, requirement: Requirement, ratio: Similarity, currentYear: int, e: Ranked)
    requires Qualified(candidates, requirement, ratio, currentYear).Success?
    ensures e in Qualified(candidates, requirement, ratio, currentYear).value <==>
      && e.candidate in candidates
      && Score(e.candidate, requirement, ratio, currentYear) == Success(ScoreResult(e.score, e.maxScore))
      && e.score >= Cutoff
  {
    if candidates != [] {
      var init, last := candidates[..|candidates| - 1], candidates[|candidates| - 1];
      QualifiedMembership(init, requirement, ratio, currentYear, e);
      assert e.candidate in candidates <==> e.candidate in init || e.candidate == last by {
        if e.candidate in candidates {
          var k :| 0 <= k < |candidates| && candidates[k] == e.candidate;
          if k < |init| { assert init[k] == e.candidate; }
        }
      }
      var kept := Qualified(init, requirement, ratio, currentYear).value;
      var r := Score(last, requirement, ratio, currentYear).value;
      var entry := Ranked(last, r.score, r.maxScore);
      assert Qualified(candidates, requirement, ratio, currentYear).value
          == if r.score >= Cutoff then kept + [entry] else kept;
      assert e in kept + [entry] <==> e in kept || e == entry;
    }
  }

  /** Ranking fails exactly when there is a candidate to score and the
      requirement cannot be scored: an empty batch is never an error. */
  lemma {:induction false} QualifiedFailure(candidates: seq<Candidate>, requirement: Requirement, ratio: Similarity, currentYear: int)
    ensures Qualified(candidates, requirement, ratio, currentYear).Failure? <==>
      candidates != [] && Score(candidates[0], requirement, ratio, currentYear).Failure?
    ensures Qualified(candidates, requirement, ratio, currentYear).Failure? ==>
      Qualified(candidates, requirement, ratio, currentYear).error == Score(candidates[0], requirement, ratio, currentYear).error
  {
    if candidates != [] {
      var init := candidates[..|candidates| - 1];
      QualifiedFailure(init, requirement, ratio, currentYear);
      FailureIgnoresCandidate(candidates[0], candidates[|candidates| - 1], requirement, ratio, currentYear);
      if init != [] {
        assert init[0] == candidates[0];
      }
    }
  }

  // ---------------------------------------------------------------------
  // Ordering

  /** The entries with score exactly `v`, in their order. */
  function OfScore(entries: seq<Ranked>, v: real): seq<Ranked> {
    if entries == [] then []
    else (if entries[0].score == v then [entries[0]] else []) + OfScore(entries[1..], v)
  }

  /** Highest score first. */
  predicate SortedByScore(entries: seq<Ranked>) {
    forall i, j :: 0 <= i < j < |entries| ==> entries[i].score >= entries[j].score
  }

  /** Entries of equal score appear in the same relative order in both. */
  ghost predicate SameTies(a: seq<Ranked>, b: seq<Ranked>) {
    forall v :: OfScore(a, v) == OfScore(b, v)
  }

  lemma {:induction false} OfScoreAppend(a: seq<Ranked>, b: seq<Ranked>, v: real)
    ensures OfScore(a + b, v) == OfScore(a, v) + OfScore(b, v)
  {
    if a != [] {
      assert (a + b)[1..] == a[1..] + b;
      OfScoreAppend(a[1..], b, v);
    } else {
      assert a + b == b;
    }
  }

  lemma {:induction false} OfScoreMembers(entries: seq<Ranked>, v: real, e: Ranked)
    ensures e in OfScore(entries, v) <==> e in entries && e.score == v
  {
    if entries != [] {
      OfScoreMembers(entries[1..], v, e);
      assert entries == [entries[0]] + entries[1..];
    }
  }

  lemma ScoreOfHeadOccurs(entries: seq<Ranked>)
    requires entries != []
    ensures exists v :: OfScore(entries, v) != []
  {
    assert OfScore(entries, entries[0].score) != [];
  }

  /** Descending order and equal-score order pin the output down: any two
      stable descending sorts of the same entries agree. */
  lemma {:induction false} SortedWithSameTiesUnique(a: seq<Ranked>, b: seq<Ranked>)
    requires SortedByScore(a) && SortedByScore(b) && SameTies(a, b)
    ensures a == b
  {
    if a == [] && b == [] {
    } else if a == [] || b == [] {
      ScoreOfHeadOccurs(if a == [] then b else a);
      assert false;
    } else {
      var s := a[0].score;
      assert b[0].score == s by {
        OfScoreMembers(a, s, a[0]);
        OfScoreMembers(b, s, a[0]);
        OfScoreMembers(b, b[0].score, b[0]);
        OfScoreMembers(a, b[0].score, b[0]);
        assert OfScore(a, s) == OfScore(b, s);
        assert OfScore(a, b[0].score) == OfScore(b, b[0].score);
      }
      forall v ensures OfScore(a[1..], v) == OfScore(b[1..], v) {
        assert OfScore(a, v) == OfScore(b, v);
        if v == s {
          assert OfScore(a, v) == [a[0]] + OfScore(a[1..], v);
          assert OfScore(b, v) == [b[0]] + OfScore(b[1..], v);
          assert ([a[0]] + OfScore(a[1..], v))[1..] == OfScore(a[1..], v);
          assert ([b[0]] + OfScore(b[1..], v))[1..] == OfScore(b[1..], v);
        } else {
          assert OfScore(a, v) == OfScore(a[1..], v);
          assert OfScore(b, v) == OfScore(b[1..], v);
        }
      }
      assert a[0] == b[0] by {
        assert OfScore(a, s) == OfScore(b, s);
        assert OfScore(a, s)[0] == a[0];
        assert OfScore(b, s)[0] == b[0];
      }
      SortedWithSameTiesUnique(a[1..], b[1..]);
      assert a == [a[0]] + a[1..] && b == [b[0]] + b[1..];
    }
  }

  /** The position after the leading entries whose score is at least `x`'s. */
  method InsertionPoint(sorted: seq<Ranked>, x: Ranked) returns (p: nat)
    ensures p <= |sorted|
    ensures forall k :: 0 <= k < p ==> sorted[k].score >= x.score
    ensures p < |sorted| ==> sorted[p].score < x.score
  {
    p := 0;
    while p < |sorted| && sorted[p].score >= x.score
      invariant p <= |sorted|
      invariant forall k :: 0 <= k < p ==> sorted[k].score >= x.score
    {
      p := p + 1;
    }
  }

  /** Stable sort by score, highest first: each entry is inserted after every
      entry already placed whose score is at least its own. */
  method SortByScore(entries: seq<Ranked>) returns (sorted: seq<Ranked>)
    ensures SortedByScore(sorted)
    ensures SameTies(sorted, entries)
    ensures multiset(sorted) == multiset(entries)
  {
    sorted := [];
    for i := 0 to |entries|
      invariant SortedByScore(sorted)
      invariant SameTies(sorted, entries[..i])
      invariant multiset(sorted) == multiset(entries[..i])
    {
      var x := entries[i];
      var p := InsertionPoint(sorted, x);
      InsertStep(sorted, p, x, entries[..i]);
      assert entries[..i + 1] == entries[..i] + [x];
      sorted := sorted[..p] + [x] + sorted[p..];
    }
    assert entries[..|entries|] == entries;
  }

  /** One insertion step keeps the order, the ties and the contents. */
  lemma InsertStep(sorted: seq<Ranked>, p: int, x: Ranked, done: seq<Ranked>)
    requires 0 <= p <= |sorted|
    requires SortedByScore(sorted) && SameTies(sorted, done) && multiset(sorted) == multiset(done)
    requires forall k :: 0 <= k < p ==> sorted[k].score >= x.score
    requires p < |sorted| ==> sorted[p].score < x.score
    ensures SortedByScore(sorted[..p] + [x] + sorted[p..])
    ensures SameTies(sorted[..p] + [x] + sorted[p..], done + [x])
    ensures multiset(sorted[..p] + [x] + sorted[p..]) == multiset(done + [x])
  {
    InsertKeepsOrder(sorted, p, x);
    InsertKeepsTies(sorted, p, x, done);
    assert sorted == sorted[..p] + sorted[p..];
  }

  /** Inserting `x` after the entries scoring at least as much keeps the order. */
  lemma InsertKeepsOrder(sorted: seq<Ranked>, p: int, x: Ranked)
    requires 0 <= p <= |sorted|
    requires SortedByScore(sorted)
    requires forall k :: 0 <= k < p ==> sorted[k].score >= x.score
    requires p < |sorted| ==> sorted[p].score < x.score
    ensures SortedByScore(sorted[..p] + [x] + sorted[p..])
  {
    var r := sorted[..p] + [x] + sorted[p..];
    forall i, j | 0 <= i < j < |r| ensures r[i].score >= r[j].score {
      if i < p && j == p {
      } else if i == p && j > p {
        assert r[j] == sorted[j - 1];
      } else if i < p && j > p {
        assert r[j] == sorted[j - 1];
      } else if i > p {
        assert r[i] == sorted[i - 1] && r[j] == sorted[j - 1];
      }
    }
  }

  /** Inserting `x` before the first lower-scoring entry appends it to the
      entries of its own score and leaves the others alone. */
  lemma InsertKeepsTies(sorted: seq<Ranked>, p: int, x: Ranked, done: seq<Ranked>)
    requires 0 <= p <= |sorted|
    requires SortedByScore(sorted) && SameTies(sorted, done)
    requires p < |sorted| ==> sorted[p].score < x.score
    ensures SameTies(sorted[..p] + [x] + sorted[p..], done + [x])
  {
    var before, after := sorted[..p], sorted[p..];
    assert sorted == before + after;
    forall v ensures OfScore(before + [x] + after, v) == OfScore(done + [x], v) {
      OfScoreAppend(before + [x], after, v);
      OfScoreAppend(before, [x], v);
      OfScoreAppend(before, after, v);
      OfScoreAppend(done, [x], v);
      assert OfScore(sorted, v) == OfScore(done, v);
      if v == x.score {
        assert OfScore(after, v) == [] by {
          if OfScore(after, v) != [] {
            var e := OfScore(after, v)[0];
            OfScoreMembers(after, v, e);
          }
        }
      }
    }
  }

  /** Kept scores 8.0, 9.5, 8.0 come out as 9.5 and then the two 8.0 entries
      in their input order, whichever stable sort produced them. */
  lemma TiesKeepInputOrder(first: Candidate, second: Candidate, third: Candidate, sorted: seq<Ranked>)
    requires SortedByScore(sorted)
    requires SameTies(sorted, [Ranked(first, 8.0, 4), Ranked(second, 9.5, 4), Ranked(third, 8.0, 4)])
    ensures sorted == [Ranked(second, 9.5, 4), Ranked(first, 8.0, 4), Ranked(third, 8.0, 4)]
  {
    var kept := [Ranked(first, 8.0, 4), Ranked(second, 9.5, 4), Ranked(third, 8.0, 4)];
    var expected := [Ranked(second, 9.5, 4), Ranked(first, 8.0, 4), Ranked(third, 8.0, 4)];
    forall v ensures OfScore(expected, v) == OfScore(kept, v) {
      OfScoreAppend([expected[0]], expected[1..], v);
      OfScoreAppend([expected[1]], [expected[2]], v);
      OfScoreAppend([kept[0]], kept[1..], v);
      OfScoreAppend([kept[1]], [kept[2]], v);
      assert expected == [expected[0]] + ([expected[1]] + [expected[2]]);
      assert kept == [kept[0]] + ([kept[1]] + [kept[2]]);
    }
    SortedWithSameTiesUnique(sorted, expected);
  }

  /** `filter_candidates`: score each candidate in turn (the first error
      aborts), keep those scoring at least the cutoff, then sort them. */
  method FilterCandidates(candidates: seq<Candidate>, requirement: Requirement, ratio: Similarity, currentYear: int)
    returns (result: Result<seq<Ranked>, ScoreError>)
    ensures match Qualified(candidates, requirement, ratio, currentYear)
      case Failure(e) => result == Failure(e)
      case Success(kept) =>
        && result.Success?
        && SortedByScore(result.value)
        && SameTies(result.value, kept)
        && multiset(result.value) == multiset(kept)
  {
    var qualifiedCandidates: seq<Ranked> := [];
    for i := 0 to |candidates|
      invariant Qualified(candidates[..i], requirement, ratio, currentYear) == Success(qualifiedCandidates)
    {
      assert candidates[..i + 1][..i] == candidates[..i];
      var scored := CalculateScore(candidates[i], requirement, ratio, currentYear);
      if scored.Failure? {
        QualifiedFailure(candidates[..i + 1], requirement, ratio, currentYear);
        QualifiedFailure(candidates, requirement, ratio, currentYear);
        assert candidates[..i + 1][0] == candidates[0];
        FailureIgnoresCandidate(candidates[0], candidates[i], requirement, ratio, currentYear);
        return Failure(scored.error);
      }
      if scored.value.score >= Cutoff {
        qualifiedCandidates := qualifiedCandidates + [Ranked(candidates[i], scored.value.score, scored.value.maxScore)];
      }
    }
    assert candidates[..|candidates|] == candidates;
    var sorted := SortByScore(qualifiedCandidates);
    result := Success(sorted);
  }
}
