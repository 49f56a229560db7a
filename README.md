# daily-job-bot: deduplication, top-ten cut and email body, in Dafny

`jobNotifier.js` runs three steps each day. It scrapes a LinkedIn job search for
three fixed keywords, concatenates the listings in keyword order, and removes
duplicates. A job counts as a duplicate when its key string
`${title}-${company}-${location}` has been seen before. It then keeps the first
ten jobs and emails them as an HTML digest. This project models that decision
logic and proves its properties:

- `listings.dfy` (module `Listings`): a job is four fields. Each field is either
  the card's text or absent (JavaScript `undefined`, from optional chaining).
  An absent field renders as `"undefined"`. `Key` is the joined string,
  not the field triple, so the model keeps the program's exact identity rule.
  A hyphen inside a field, or a missing field next to the text `"undefined"`,
  can make two different jobs share a key.
- `dedupe.dfy` (module `Dedupe`): `DeduplicateJobs` is the filter loop with its
  mutable `seen` set. It is proved equal to the specification `Dedup`. The
  lemmas say what `Dedup` keeps: a subsequence of the input, exactly the first
  occurrence of each key, distinct keys, every input key still present. They
  also prove idempotence and that only keys decide what is kept.
- `digest.dfy` (module `Digest`): the HTML body as pure functions. Each job
  becomes a block numbered from 1 in list order. The blocks are joined with no
  separator, and an empty join becomes `<p>No jobs found today.</p>`.
- `pipeline.dfy` (module `Pipeline`): the scraper is abstract. For each keyword
  the page either renders cards or fails. The per-page `slice(0, 10)` and the
  empty result on failure are modelled. `RunDailyDigest` is `main`'s loop over
  the keywords, followed by deduplication, `slice(0, 10)`, and the email html.

## Model

| member | source | states |
|---|---|---|
| Listings.HyphenShiftKeepsKey | jobNotifier.js:43 | two jobs with different field triples, `("a-b","c","d")` and `("a","b-c","d")`, have the same key string |
| Listings.AbsentMatchesUndefinedText | jobNotifier.js:43 | for each of title, company and location, a missing field and a field whose text is `"undefined"` give the same key, though the jobs differ |
| Listings.KeyIgnoresLink | jobNotifier.js:43 | the link takes no part in a job's identity |
| Dedupe.DeduplicateJobs | jobNotifier.js:40-48 | the single pass with the `seen` set returns exactly `Dedup(jobs)`; the loop keeps `seen` equal to the keys of the jobs already visited |
| Dedupe.Dedup | jobNotifier.js:40-48 | the deduplicated list is never longer than the input |
| Dedupe.DedupIsSubsequence | jobNotifier.js:42-47 | output element `k` is the input element at the `k`-th kept position, and kept positions strictly increase: order is preserved and nothing is invented |
| Dedupe.DedupKeepsFirstOccurrences | jobNotifier.js:44-46 | an input position is kept if and only if no earlier job has the same key |
| Dedupe.DedupDistinctKeys | jobNotifier.js:43-45 | no two jobs in the output share a key |
| Dedupe.DedupRepresentative | jobNotifier.js:44-46 | for every input job, exactly one output job has its key, and that job is the earliest input job with the key |
| Dedupe.DedupKeySet | jobNotifier.js:42-47 | the output has exactly the keys of the input: no key is lost or added |
| Dedupe.DedupOfDistinct | jobNotifier.js:40-48 | a list whose keys are already distinct comes back unchanged |
| Dedupe.DedupFixedPoint | jobNotifier.js:40-48 | deduplication leaves a list unchanged if and only if its keys are distinct |
| Dedupe.DedupIdempotent | jobNotifier.js:40-48 | deduplicating twice gives the same list as deduplicating once |
| Dedupe.DedupDecidedByKeys | jobNotifier.js:43-44 | two lists whose keys agree position by position keep the same positions: only key-string equality decides duplicates |
| Dedupe.HyphenatedJobsCollapse | jobNotifier.js:43-46 | of two different jobs whose keys coincide because of a hyphen inside a field, only the first is kept |
| Dedupe.MissingTitleCollapses | jobNotifier.js:43-46 | a job with no title and a job titled `"undefined"` (same company and location) collapse to whichever comes first |
| Digest.Decimal | jobNotifier.js:60 | the printed job number is a non-empty string of decimal digits with no leading zero |
| Digest.DecimalRoundTrip | jobNotifier.js:60 | reading back the printed job number gives the number |
| Digest.JobBlockShowsJob | jobNotifier.js:59-65 | a job's block starts with a line break and contains its heading (number then title), its company line, its location line and its link anchor |
| Digest.EmailHtml | jobNotifier.js:71 | the body is `<p>No jobs found today.</p>` if and only if the list is empty; otherwise it is the joined numbered blocks |
| Digest.JoinAppend | jobNotifier.js:65 | joining two lists of blocks is joining each and concatenating the results |
| Digest.JoinAround | jobNotifier.js:65 | a join splits around any one of its parts |
| Digest.EmailHtmlInListOrder | jobNotifier.js:59-65 | the `map` gives one block per job in list order: for every index `k`, the body is the blocks before `k`, then `jobs[k]`'s block numbered `k + 1`, then the blocks after it |
| Pipeline.Take | jobNotifier.js:84 | `slice(0, n)` gives a prefix of length `min(n, length)` |
| Pipeline.ScrapeJobsForKeyword | jobNotifier.js:22-36 | a failed page gives no jobs; a rendered page gives the first `min(10, cards)` cards in page order |
| Pipeline.RunDailyDigest | jobNotifier.js:77-86 | the loop reassigns `allJobs` by concatenation; the jobs emailed are the first 10 of `Dedup` of the keyword results concatenated in keyword order, and the html is the email body for them |
| Pipeline.GatheredAppend | jobNotifier.js:79-82 | gathering one keyword list and then another equals gathering their concatenation |
| Pipeline.GatheredBound | jobNotifier.js:79-82 | the gathered list holds at most 10 jobs per keyword |
| Pipeline.GatheredInKeywordOrder | jobNotifier.js:5-9 | the gathered list is the results for "Full Stack Developer", then "MERN Stack Developer", then "Node.js Developer" |
| Pipeline.GatheredReadsListedKeywords | jobNotifier.js:79-82 | the gathered list depends only on the page outcomes of the listed keywords |
| Pipeline.FailedKeywordAddsNothing | jobNotifier.js:33-36 | a keyword whose page fails adds nothing between the keywords around it |
| Pipeline.FailedKeywordIsIsolated | jobNotifier.js:79-82 | if one keyword's page fails, every other keyword contributes exactly what it would have contributed otherwise |
| Pipeline.DigestIsFirstUniqueJobs | jobNotifier.js:84 | the digest has `min(10, n)` jobs for the `n` deduplicated jobs, is a prefix of them, has distinct keys, and each job in it is the first gathered job with its key |

## Left out

- The browser is not modelled: `puppeteer.launch`, `newPage`, `goto`,
  `waitForSelector`, the DOM queries in `page.evaluate`, `trim` and
  `browser.close` (jobNotifier.js:11-32) are foreign calls against a live page.
  For each keyword the model takes only the resulting `PageOutcome`, either the
  cards read into jobs or a failure.
- A failure of `puppeteer.launch` or `newPage` (jobNotifier.js:12-13) is not
  modelled. Those calls sit outside the `try`, so they reject `main` and no
  email is sent. The same holds when the `browser.close()` inside the `catch`
  (jobNotifier.js:35) throws. The model's `Failed` covers only throws inside
  the `try` that the `catch` turns into `[]`.
- The model does not send mail. The Nodemailer transport, `sendMail`, the
  sender, recipient and subject, and the environment variables
  (jobNotifier.js:51-57, 67-74) are I/O. The model stops at the html that would
  be passed as `html`.
- Console logging (jobNotifier.js:34, 74, 88) has no effect on results.
- The async sequencing and `main().catch` (jobNotifier.js:77-88) are not
  modelled. The pipeline is one sequential method.
- The model does no HTML escaping, and neither does the code: titles, companies,
  locations and links are interpolated as they are.
- Dedupe.DeduplicateJobs takes the input as a sequence value. `filter` never
  mutates the array it walks and returns a new array, so no aliasing is lost.
- Pipeline.RunDailyDigest reads each keyword's page through a function from
  keyword to outcome. Scraping the same keyword twice in one run could give
  different pages, but the keyword list has no repeats, so this does not
  arise.
