/**
 * Deduplication of the gathered listings: a single pass in list order that
 * keeps a job the first time its key is seen and drops it afterwards.
 */
module Dedupe {
  import opened Listings

  /** The keys of all jobs in `jobs`. */
  ghost function KeySet(jobs: seq<Job>): set<string>
  {
    set i | 0 <= i < |jobs| :: Key(jobs[i])
  }

  /** Position `i` holds the earliest job with its key. */
  ghost predicate FirstOccurrence(jobs: seq<Job>, i: int)
  {
    0 <= i < |jobs| && forall j :: 0 <= j < i ==> Key(jobs[j]) != Key(jobs[i])
  }

  /** No two jobs share a key. */
  ghost predicate DistinctKeys(jobs: seq<Job>)
  {
    forall a, b :: 0 <= a < b < |jobs| ==> Key(jobs[a]) != Key(jobs[b])
  }

  /**
   * What the filter returns: the job at the end of the list survives exactly
   * when no earlier job has its key.
   */
  ghost function Dedup(jobs: seq<Job>): (unique: seq<Job>)
    ensures |unique| <= |jobs|
  {
    if jobs == [] then []
    else
      var n := |jobs| - 1;
      if Key(jobs[n]) in KeySet(jobs[..n]) then Dedup(jobs[..n]) else Dedup(jobs[..n]) + [jobs[n]]
  }

  /** The input positions that `Dedup` keeps, in order. */
  ghost function KeptPositions(jobs: seq<Job>): (positions: seq<nat>)
    ensures |positions| == |Dedup(jobs)|
  {
    if jobs == [] then []
    else
      var n := |jobs| - 1;
      if Key(jobs[n]) in KeySet(jobs[..n]) then KeptPositions(jobs[..n]) else KeptPositions(jobs[..n]) + [n]
  }

  /**
   * deduplicateJobs: the `seen` set and the filter loop. Each job's key is
   * looked up in `seen`; a key not yet seen is added and the job is kept.
   */
  method DeduplicateJobs(jobs: seq<Job>) returns (unique: seq<Job>)
    ensures unique == Dedup(jobs)
  {
    var seen: set<string> := {};
    unique := [];
    var i := 0;
    while i < |jobs|
      invariant 0 <= i <= |jobs|
      invariant seen == KeySet(jobs[..i])
      invariant unique == Dedup(jobs[..i])
    {
      var key := Key(jobs[i]);
      assert jobs[..i + 1][..i] == jobs[..i];
      if key !in seen {
        seen := seen + {key};
        unique := unique + [jobs[i]];
      }
      i := i + 1;
    }
    assert jobs[..|jobs|] == jobs;
  }

  /**
   * The output is a subsequence of the input: the job at output position `k`
   * is the input job at the `k`-th kept position, and kept positions increase.
   */
  lemma {:induction false} DedupIsSubsequence(jobs: seq<Job>)
    ensures forall k :: 0 <= k < |KeptPositions(jobs)| ==>
      KeptPositions(jobs)[k] < |jobs| && Dedup(jobs)[k] == jobs[KeptPositions(jobs)[k]]
    ensures forall k, l :: 0 <= k < l < |KeptPositions(jobs)| ==> KeptPositions(jobs)[k] < KeptPositions(jobs)[l]
  {
    if jobs != [] {
      var n := |jobs| - 1;
      var prefix := jobs[..n];
      DedupIsSubsequence(prefix);
      var before, kept := KeptPositions(prefix), KeptPositions(jobs);
      var unique, result := Dedup(prefix), Dedup(jobs);
      if Key(jobs[n]) !in KeySet(prefix) {
        assert kept == before + [n] && result == unique + [jobs[n]];
        forall k | 0 <= k < |kept| ensures kept[k] < |jobs| && result[k] == jobs[kept[k]] {
          if k < |before| {
            assert kept[k] == before[k] && result[k] == unique[k];
          }
        }
      }
    }
  }

  /** Whether a position holds a first occurrence is decided by the jobs up to it. */
  lemma FirstOccurrenceInPrefix(jobs: seq<Job>, n: nat)
    requires n <= |jobs|
    ensures forall i :: 0 <= i < n ==> (FirstOccurrence(jobs, i) <==> FirstOccurrence(jobs[..n], i))
  {
    forall i | 0 <= i < n ensures FirstOccurrence(jobs, i) <==> FirstOccurrence(jobs[..n], i) {
      assert forall j :: 0 <= j <= i ==> jobs[j] == jobs[..n][j];
    }
  }

  /** The positions kept are exactly those holding the first occurrence of a key. */
  lemma {:induction false} DedupKeepsFirstOccurrences(jobs: seq<Job>)
    ensures forall i :: 0 <= i < |jobs| ==> (i in KeptPositions(jobs) <==> FirstOccurrence(jobs, i))
  {
    if jobs != [] {
      var n := |jobs| - 1;
      var prefix := jobs[..n];
      var before, kept := KeptPositions(prefix), KeptPositions(jobs);
      assert forall i :: 0 <= i < n ==> (i in before <==> FirstOccurrence(jobs, i)) by {
        DedupKeepsFirstOccurrences(prefix);
        FirstOccurrenceInPrefix(jobs, n);
      }
      assert n !in before by {
        DedupIsSubsequence(prefix);
      }
      var last := Key(jobs[n]) !in KeySet(prefix);
      assert FirstOccurrence(jobs, n) == last by {
        if last {
          forall j | 0 <= j < n ensures Key(jobs[j]) != Key(jobs[n]) {
            assert jobs[j] == prefix[j];
            assert Key(prefix[j]) in KeySet(prefix);
          }
        } else {
          var j :| 0 <= j < n && Key(prefix[j]) == Key(jobs[n]);
          assert jobs[j] == prefix[j];
        }
      }
      assert kept == if last then before + [n] else before;
      forall i | 0 <= i < |jobs| ensures i in kept <==> FirstOccurrence(jobs, i) {
        if i < n {
          assert i in kept <==> i in before;
        }
      }
    }
  }

  /** No two jobs in the output share a key. */
  lemma DedupDistinctKeys(jobs: seq<Job>)
    ensures DistinctKeys(Dedup(jobs))
  {
    DedupIsSubsequence(jobs);
    DedupKeepsFirstOccurrences(jobs);
    var unique, positions := Dedup(jobs), KeptPositions(jobs);
    forall a, b | 0 <= a < b < |unique| ensures Key(unique[a]) != Key(unique[b]) {
      assert positions[b] in positions;
      assert FirstOccurrence(jobs, positions[b]);
      assert positions[a] < positions[b];
    }
  }

  /** The earliest position at or before `i` whose job has the key of `jobs[i]`. */
  lemma {:induction false} EarliestWithKey(jobs: seq<Job>, i: nat) returns (first: nat)
    requires i < |jobs|
    ensures first <= i && Key(jobs[first]) == Key(jobs[i])
    ensures FirstOccurrence(jobs, first)
    decreases i
  {
    if FirstOccurrence(jobs, i) {
      first := i;
    } else {
      var j :| 0 <= j < i && Key(jobs[j]) == Key(jobs[i]);
      first := EarliestWithKey(jobs, j);
    }
  }

  /**
   * Every key of the input appears in the output exactly once, carried by
   * the earliest input job with that key.
   */
  lemma DedupRepresentative(jobs: seq<Job>, i: nat) returns (k: nat)
    requires i < |jobs|
    ensures k < |Dedup(jobs)| == |KeptPositions(jobs)| && KeptPositions(jobs)[k] <= i
    ensures Dedup(jobs)[k] == jobs[KeptPositions(jobs)[k]] && Key(Dedup(jobs)[k]) == Key(jobs[i])
    ensures forall j :: 0 <= j < KeptPositions(jobs)[k] ==> Key(jobs[j]) != Key(jobs[i])
    ensures forall l :: 0 <= l < |Dedup(jobs)| && l != k ==> Key(Dedup(jobs)[l]) != Key(jobs[i])
  {
    DedupIsSubsequence(jobs);
    DedupKeepsFirstOccurrences(jobs);
    DedupDistinctKeys(jobs);
    var first := EarliestWithKey(jobs, i);
    var positions := KeptPositions(jobs);
    assert first in positions;
    k :| 0 <= k < |positions| && positions[k] == first;
  }

  /** The keys of the output are the keys of the input. */
  lemma DedupKeySet(jobs: seq<Job>)
    ensures KeySet(Dedup(jobs)) == KeySet(jobs)
  {
    forall key | key in KeySet(jobs) ensures key in KeySet(Dedup(jobs)) {
      var i :| 0 <= i < |jobs| && Key(jobs[i]) == key;
      var k := DedupRepresentative(jobs, i);
    }
    DedupIsSubsequence(jobs);
  }

  /** A list whose keys are already distinct passes through unchanged. */
  lemma {:induction false} DedupOfDistinct(jobs: seq<Job>)
    requires DistinctKeys(jobs)
    ensures Dedup(jobs) == jobs
  {
    if jobs != [] {
      var n := |jobs| - 1;
      var prefix := jobs[..n];
      DedupOfDistinct(prefix);
      forall j | 0 <= j < n ensures Key(prefix[j]) != Key(jobs[n]) {
        assert prefix[j] == jobs[j];
      }
      assert Key(jobs[n]) !in KeySet(prefix);
      assert prefix + [jobs[n]] == jobs;
    }
  }

  /** Deduplication leaves a list unchanged exactly when its keys are distinct. */
  lemma DedupFixedPoint(jobs: seq<Job>)
    ensures Dedup(jobs) == jobs <==> DistinctKeys(jobs)
  {
    DedupDistinctKeys(jobs);
    if DistinctKeys(jobs) {
      DedupOfDistinct(jobs);
    }
  }

  /** Deduplicating twice is the same as deduplicating once. */
  lemma DedupIdempotent(jobs: seq<Job>)
    ensures Dedup(Dedup(jobs)) == Dedup(jobs)
  {
    DedupDistinctKeys(jobs);
    DedupOfDistinct(Dedup(jobs));
  }

  /**
   * Which positions survive depends only on the keys: two lists whose keys
   * agree position by position keep the same positions.
   */
  lemma {:induction false} DedupDecidedByKeys(jobs: seq<Job>, others: seq<Job>)
    requires |jobs| == |others|
    requires forall i :: 0 <= i < |jobs| ==> Key(jobs[i]) == Key(others[i])
    ensures KeptPositions(jobs) == KeptPositions(others)
  {
    if jobs != [] {
      var n := |jobs| - 1;
      DedupDecidedByKeys(jobs[..n], others[..n]);
      assert KeySet(jobs[..n]) == KeySet(others[..n]) by {
        forall key | key in KeySet(jobs[..n]) ensures key in KeySet(others[..n]) {
          var i :| 0 <= i < n && Key(jobs[..n][i]) == key;
          assert Key(others[..n][i]) == key;
        }
        forall key | key in KeySet(others[..n]) ensures key in KeySet(jobs[..n]) {
          var i :| 0 <= i < n && Key(others[..n][i]) == key;
          assert Key(jobs[..n][i]) == key;
        }
      }
    }
  }

  /**
   * Jobs whose titles and companies differ but whose joined keys coincide,
   * because of a hyphen inside a field, are collapsed to the first one.
   */
  lemma HyphenatedJobsCollapse(a: string, b: string, c: string, d: string, link1: Field, link2: Field)
    ensures var first := Job(Present(a + "-" + b), Present(c), Present(d), link1);
            var second := Job(Present(a), Present(b + "-" + c), Present(d), link2);
            first != second && Dedup([first, second]) == [first]
  {
    var first := Job(Present(a + "-" + b), Present(c), Present(d), link1);
    var second := Job(Present(a), Present(b + "-" + c), Present(d), link2);
    HyphenShiftKeepsKey(a, b, c, d, link1, link2);
    assert [first, second][..1] == [first];
    assert [first][..0] == [];
  }

  /** A job with no title collapses into an earlier one titled "undefined", and vice versa. */
  lemma MissingTitleCollapses(company: Field, location: Field, link1: Field, link2: Field)
    ensures Dedup([Job(Present("undefined"), company, location, link1), Job(Absent, company, location, link2)])
         == [Job(Present("undefined"), company, location, link1)]
    ensures Dedup([Job(Absent, company, location, link1), Job(Present("undefined"), company, location, link2)])
         == [Job(Absent, company, location, link1)]
  {
    var named := Job(Present("undefined"), company, location, link1);
    var missing := Job(Absent, company, location, link2);
    AbsentMatchesUndefinedText(Absent, company, location, link2, link1);
    assert [named, missing][..1] == [named];
    assert [named][..0] == [];
    var missing1 := Job(Absent, company, location, link1);
    var named2 := Job(Present("undefined"), company, location, link2);
    AbsentMatchesUndefinedText(Absent, company, location, link1, link2);
    assert [missing1, named2][..1] == [missing1];
    assert [missing1][..0] == [];
  }
}
