/**
 * The HTML body of the daily email: one numbered block per job, joined with
 * no separator, or a fixed notice when there is nothing to report.
 */
module Digest {
  import opened Listings

  /** The body sent when the job list is empty. */
  const NoJobsHtml: string := "<p>No jobs found today.</p>"

  predicate IsDigits(s: string)
  {
    forall i :: 0 <= i < |s| ==> '0' <= s[i] <= '9'
  }

  function DigitChar(d: nat): char
    requires d < 10
  {
    ('0' as int + d) as char
  }

  /** Decimal notation of `n`, as interpolating a JavaScript number prints it. */
  function Decimal(n: nat): (s: string)
    ensures |s| > 0 && IsDigits(s)
    ensures s[0] == '0' ==> n == 0
  {
    if n < 10 then [DigitChar(n)] else Decimal(n / 10) + [DigitChar(n % 10)]
  }

  /** The number a string of decimal digits denotes. */
  function DecimalValue(s: string): nat
    requires IsDigits(s)
  {
    if s == [] then 0
    else DecimalValue(s[..|s| - 1]) * 10 + (s[|s| - 1] as int - '0' as int)
  }

  /** Reading back the printed number gives the number. */
  lemma {:induction false} DecimalRoundTrip(n: nat)
    ensures DecimalValue(Decimal(n)) == n
  {
    if n >= 10 {
      var s := Decimal(n / 10);
      DecimalRoundTrip(n / 10);
      assert (s + [DigitChar(n % 10)])[..|s|] == s;
    }
  }

  /** The heading line of a job's block: its number, then its title. */
  function Heading(job: Job, number: nat): string
  {
    "<h3>" + Decimal(number) + ". " + Render(job.title) + "</h3>"
  }

  function CompanyLine(job: Job): string
  {
    "<strong>Company:</strong> " + Render(job.company) + "</p>"
  }

  function LocationLine(job: Job): string
  {
    "<strong>Location:</strong> " + Render(job.location) + "</p>"
  }

  function LinkAnchor(job: Job): string
  {
    "<a href=\"" + Render(job.link) + "\""
  }

  /** The rest of the block after the link's href attribute. */
  const BlockEnd: string := " target=\"_blank\">Apply Here</a></p>\n    <hr />\n  "

  /** The block for one job, numbered `number`, laid out as the template lays it out. */
  function JobBlock(job: Job, number: nat): string
  {
    "\n    " + Heading(job, number) + "\n    <p>" + CompanyLine(job) + "\n    <p>" + LocationLine(job)
    + "\n    <p>" + LinkAnchor(job) + BlockEnd
  }

  /** `part` occurs somewhere inside `text`. */
  ghost predicate Occurs(part: string, text: string)
  {
    exists i, j :: 0 <= i <= j <= |text| && text[i..j] == part
  }

  lemma OccursInLeft(part: string, left: string, right: string)
    requires Occurs(part, left)
    ensures Occurs(part, left + right)
  {
    var i, j :| 0 <= i <= j <= |left| && left[i..j] == part;
    assert (left + right)[i..j] == part;
  }

  lemma OccursInRight(part: string, left: string, right: string)
    requires Occurs(part, right)
    ensures Occurs(part, left + right)
  {
    var i, j :| 0 <= i <= j <= |right| && right[i..j] == part;
    assert (left + right)[|left| + i..|left| + j] == part;
  }

  lemma OccursItself(part: string)
    ensures Occurs(part, part)
  {
    assert part[0..|part|] == part;
  }

  /**
   * A job's block opens with a line break and contains its heading (its
   * number before its title), its company line, its location line and its
   * link anchor.
   */
  lemma JobBlockShowsJob(job: Job, number: nat)
    ensures JobBlock(job, number)[0] == '\n'
    ensures Occurs(Heading(job, number), JobBlock(job, number))
    ensures Occurs(CompanyLine(job), JobBlock(job, number))
    ensures Occurs(LocationLine(job), JobBlock(job, number))
    ensures Occurs(LinkAnchor(job), JobBlock(job, number))
  {
    var heading, company, location, anchor := Heading(job, number), CompanyLine(job), LocationLine(job), LinkAnchor(job);
    var s1 := "\n    " + heading;
    var s2 := s1 + "\n    <p>";
    var s3 := s2 + company;
    var s4 := s3 + "\n    <p>";
    var s5 := s4 + location;
    var s6 := s5 + "\n    <p>";
    var s7 := s6 + anchor;
    assert JobBlock(job, number) == s7 + BlockEnd;
    OccursItself(heading);
    OccursInRight(heading, "\n    ", heading);
    OccursInLeft(heading, s1, "\n    <p>");
    OccursInLeft(heading, s2, company);
    OccursInLeft(heading, s3, "\n    <p>");
    OccursInLeft(heading, s4, location);
    OccursInLeft(heading, s5, "\n    <p>");
    OccursInLeft(heading, s6, anchor);
    OccursInLeft(heading, s7, BlockEnd);
    OccursItself(company);
    OccursInRight(company, s2, company);
    OccursInLeft(company, s3, "\n    <p>");
    OccursInLeft(company, s4, location);
    OccursInLeft(company, s5, "\n    <p>");
    OccursInLeft(company, s6, anchor);
    OccursInLeft(company, s7, BlockEnd);
    OccursItself(location);
    OccursInRight(location, s4, location);
    OccursInLeft(location, s5, "\n    <p>");
    OccursInLeft(location, s6, anchor);
    OccursInLeft(location, s7, BlockEnd);
    OccursItself(anchor);
    OccursInRight(anchor, s6, anchor);
    OccursInLeft(anchor, s7, BlockEnd);
    assert s1[0] == '\n';
  }

  /** The blocks of a list joined with no separator (`join('')`). */
  function Join(parts: seq<string>): string
  {
    if parts == [] then "" else parts[0] + Join(parts[1..])
  }

  /** `jobs.map((job, i) => ...)`: the job at index `i` gets the block numbered `i + 1`. */
  function NumberedBlocks(jobs: seq<Job>): seq<string>
  {
    seq(|jobs|, i requires 0 <= i < |jobs| => JobBlock(jobs[i], i + 1))
  }

  /**
   * The html of the email: the joined blocks, or the notice when the join is
   * the empty string (`htmlContent || '<p>No jobs found today.</p>'`).
   */
  function EmailHtml(jobs: seq<Job>): (html: string)
    ensures html == NoJobsHtml <==> jobs == []
    ensures jobs != [] ==> html == Join(NumberedBlocks(jobs))
  {
    var content := Join(NumberedBlocks(jobs));
    assert jobs != [] ==> content != "" && content != NoJobsHtml by {
      if jobs != [] {
        var blocks := NumberedBlocks(jobs);
        JobBlockShowsJob(jobs[0], 1);
        assert content == blocks[0] + Join(blocks[1..]);
        assert content[0] == '\n' != NoJobsHtml[0];
      }
    }
    if content == "" then NoJobsHtml else content
  }

  /** Joining two lists of parts is joining each and concatenating. */
  lemma {:induction false} JoinAppend(a: seq<string>, b: seq<string>)
    ensures Join(a + b) == Join(a) + Join(b)
  {
    if a == [] {
      assert a + b == b;
    } else {
      assert (a + b)[1..] == a[1..] + b;
      JoinAppend(a[1..], b);
    }
  }

  /** A join splits around any one of its parts. */
  lemma JoinAround(parts: seq<string>, k: nat)
    requires k < |parts|
    ensures Join(parts) == Join(parts[..k]) + parts[k] + Join(parts[k + 1..])
  {
    assert parts == parts[..k] + parts[k..];
    JoinAppend(parts[..k], parts[k..]);
    assert parts[k..][1..] == parts[k + 1..];
  }

  /**
   * For a non-empty list the body holds, in list order, the blocks of the
   * jobs before index `k`, then the block of `jobs[k]` numbered `k + 1`,
   * then the blocks of the jobs after it.
   */
  lemma EmailHtmlInListOrder(jobs: seq<Job>, k: nat)
    requires k < |jobs|
    ensures EmailHtml(jobs)
         == Join(NumberedBlocks(jobs)[..k]) + JobBlock(jobs[k], k + 1) + Join(NumberedBlocks(jobs)[k + 1..])
  {
    JoinAround(NumberedBlocks(jobs), k);
  }
}
