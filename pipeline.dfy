/**
 * The daily run: scrape each keyword in a fixed order, concatenate the
 * results, deduplicate, keep the first ten, and build the email body.
 * The browser is abstract: for each keyword it either renders a list of
 * cards (already read into jobs) or fails.
 */
module Pipeline {
  import opened Listings
  import opened Dedupe
  import opened Digest

  /** The search keywords, in the order they are scraped. */
  const Keywords: seq<string> := ["Full Stack Developer", "MERN Stack Developer", "Node.js Developer"]

  /** At most this many cards are read from one results page. */
  const PageLimit: nat := 10

  /** At most this many jobs go into the email. */
  const DigestLimit: nat := 10

  /**
   * What loading the search page for a keyword gives: the cards it rendered,
   * in page order, or a failure (navigation, the wait for the cards, the
   * extraction, or closing the browser threw).
   */
  datatype PageOutcome = Rendered(cards: seq<Job>) | Failed

  /** `s.slice(0, n)`: the first `n` elements, or all of them when there are fewer. */
  function Take<T>(s: seq<T>, n: nat): (r: seq<T>)
    ensures |r| == if |s| < n then |s| else n
    ensures r <= s
  {
    if |s| <= n then s else s[..n]
  }

  /**
   * scrapeJobsForKeyword: the first cards of the page for `keyword`, or no
   * jobs at all when the page failed.
   */
  function ScrapeJobsForKeyword(page: string -> PageOutcome, keyword: string): (jobs: seq<Job>)
    ensures |jobs| <= PageLimit
    ensures page(keyword).Failed? ==> jobs == []
    ensures page(keyword).Rendered? ==>
      jobs <= page(keyword).cards && |jobs| == if |page(keyword).cards| < PageLimit then |page(keyword).cards| else PageLimit
  {
    match page(keyword)
    case Rendered(cards) => Take(cards, PageLimit)
    case Failed => []
  }

  /** The jobs of all `keywords`, concatenated in keyword order. */
  ghost function Gathered(keywords: seq<string>, page: string -> PageOutcome): seq<Job>
  {
    if keywords == [] then []
    else
      var n := |keywords| - 1;
      Gathered(keywords[..n], page) + ScrapeJobsForKeyword(page, keywords[n])
  }

  /**
   * main: gather the jobs of every keyword in order, deduplicate, keep the
   * first `DigestLimit`, and build the html of the email that would be sent.
   */
  method RunDailyDigest(page: string -> PageOutcome) returns (top: seq<Job>, html: string)
    ensures top == Take(Dedup(Gathered(Keywords, page)), DigestLimit)
    ensures html == EmailHtml(top)
  {
    var allJobs: seq<Job> := [];
    for i := 0 to |Keywords|
      invariant allJobs == Gathered(Keywords[..i], page)
    {
      var jobs := ScrapeJobsForKeyword(page, Keywords[i]);
      assert Keywords[..i + 1][..i] == Keywords[..i];
      allJobs := allJobs + jobs;
    }
    assert Keywords[..|Keywords|] == Keywords;
    var unique := DeduplicateJobs(allJobs);
    top := Take(unique, DigestLimit);
    html := EmailHtml(top);
  }

  /** Gathering two keyword lists one after the other is gathering their concatenation. */
  lemma {:induction false} GatheredAppend(first: seq<string>, second: seq<string>, page: string -> PageOutcome)
    ensures Gathered(first + second, page) == Gathered(first, page) + Gathered(second, page)
    decreases |second|
  {
    if second == [] {
      assert first + second == first;
    } else {
      var n := |second| - 1;
      var whole := first + second;
      assert whole[..|whole| - 1] == first + second[..n];
      assert whole[|whole| - 1] == second[n];
      GatheredAppend(first, second[..n], page);
      assert Gathered(whole, page) == Gathered(first + second[..n], page) + ScrapeJobsForKeyword(page, second[n]);
    }
  }

  /** Each keyword adds at most `PageLimit` jobs. */
  lemma {:induction false} GatheredBound(keywords: seq<string>, page: string -> PageOutcome)
    ensures |Gathered(keywords, page)| <= PageLimit * |keywords|
  {
    if keywords != [] {
      GatheredBound(keywords[..|keywords| - 1], page);
    }
  }

  /** The gathered list is the three keywords' jobs, in the fixed keyword order. */
  lemma GatheredInKeywordOrder(page: string -> PageOutcome)
    ensures Gathered(Keywords, page)
         == ScrapeJobsForKeyword(page, "Full Stack Developer")
          + ScrapeJobsForKeyword(page, "MERN Stack Developer")
          + ScrapeJobsForKeyword(page, "Node.js Developer")
  {
    var two, one := Keywords[..2], Keywords[..1];
    assert two[..1] == one && one[..0] == [];
    assert Gathered(one, page) == ScrapeJobsForKeyword(page, Keywords[0]);
    assert Gathered(two, page) == Gathered(one, page) + ScrapeJobsForKeyword(page, Keywords[1]);
    assert Gathered(Keywords, page) == Gathered(two, page) + ScrapeJobsForKeyword(page, Keywords[2]);
  }

  /** Gathering reads the page outcome of the listed keywords only. */
  lemma {:induction false} GatheredReadsListedKeywords(keywords: seq<string>, page: string -> PageOutcome, other: string -> PageOutcome)
    requires forall j :: 0 <= j < |keywords| ==> page(keywords[j]) == other(keywords[j])
    ensures Gathered(keywords, page) == Gathered(keywords, other)
  {
    if keywords != [] {
      var n := |keywords| - 1;
      assert forall j :: 0 <= j < n ==> keywords[..n][j] == keywords[j];
      GatheredReadsListedKeywords(keywords[..n], page, other);
    }
  }

  /** A keyword whose page fails adds nothing between the keywords around it. */
  lemma FailedKeywordAddsNothing(keywords: seq<string>, i: nat, page: string -> PageOutcome)
    requires i < |keywords|
    requires page(keywords[i]).Failed?
    ensures Gathered(keywords, page) == Gathered(keywords[..i], page) + Gathered(keywords[i + 1..], page)
  {
    var upTo := keywords[..i + 1];
    assert upTo[..i] == keywords[..i];
    assert Gathered(upTo, page) == Gathered(keywords[..i], page);
    assert keywords == upTo + keywords[i + 1..];
    GatheredAppend(upTo, keywords[i + 1..], page);
  }

  /**
   * A keyword whose page fails contributes nothing, and every other keyword
   * contributes what it would have contributed anyway.
   */
  lemma FailedKeywordIsIsolated(keywords: seq<string>, i: nat, page: string -> PageOutcome, failing: string -> PageOutcome)
    requires i < |keywords|
    requires failing(keywords[i]).Failed?
    requires forall j :: 0 <= j < |keywords| && j != i ==> failing(keywords[j]) == page(keywords[j])
    ensures Gathered(keywords, failing) == Gathered(keywords[..i], page) + Gathered(keywords[i + 1..], page)
  {
    var before, after := keywords[..i], keywords[i + 1..];
    FailedKeywordAddsNothing(keywords, i, failing);
    assert Gathered(before, failing) == Gathered(before, page) by {
      GatheredReadsListedKeywords(before, failing, page);
    }
    assert Gathered(after, failing) == Gathered(after, page) by {
      assert forall j :: 0 <= j < |after| ==> after[j] == keywords[i + 1 + j];
      GatheredReadsListedKeywords(after, failing, page);
    }
  }

  /**
   * The jobs emailed are the first `min(10, n)` of the `n` deduplicated
   * gathered jobs; no two of them share a key, and each is the earliest
   * gathered job with its key.
   */
  lemma DigestIsFirstUniqueJobs(page: string -> PageOutcome)
    ensures var unique := Dedup(Gathered(Keywords, page));
            var top := Take(unique, DigestLimit);
            && |top| == (if |unique| < DigestLimit then |unique| else DigestLimit)
            && top <= unique
            && DistinctKeys(top)
    ensures forall k :: 0 <= k < |Take(Dedup(Gathered(Keywords, page)), DigestLimit)| ==>
      && FirstOccurrence(Gathered(Keywords, page), KeptPositions(Gathered(Keywords, page))[k])
      && Take(Dedup(Gathered(Keywords, page)), DigestLimit)[k] == Gathered(Keywords, page)[KeptPositions(Gathered(Keywords, page))[k]]
  {
    var all := Gathered(Keywords, page);
    var unique := Dedup(all);
    DedupDistinctKeys(all);
    DedupKeepsFirstOccurrences(all);
    DedupIsSubsequence(all);
    var positions := KeptPositions(all);
    forall k | 0 <= k < |Take(unique, DigestLimit)| ensures FirstOccurrence(all, positions[k]) {
      assert positions[k] in positions;
    }
  }
}
