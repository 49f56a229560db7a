/**
 * A job listing as the scraper hands it over: four fields, each read from a
 * search-result card with optional chaining, so each one is either the
 * trimmed text of an element or `undefined` when the element is missing.
 */
module Listings {

  /** One field of a card: the element's text, or absent (`undefined`). */
  datatype Field = Absent | Present(text: string)

  datatype Job = Job(title: Field, company: Field, location: Field, link: Field)

  /** How a field reads inside a template literal: an absent field prints as "undefined". */
  function Render(f: Field): string
  {
    match f
    case Absent => "undefined"
    case Present(text) => text
  }

  /**
   * The identity of a job for deduplication: title, company and location
   * interpolated into one string and joined by hyphens. The link plays no part.
   */
  function Key(job: Job): string
  {
    Render(job.title) + "-" + Render(job.company) + "-" + Render(job.location)
  }

  /** Two jobs that differ only in their links have the same key. */
  lemma KeyIgnoresLink(job: Job, link: Field)
    ensures Key(job.(link := link)) == Key(job)
  {
  }

  /**
   * Moving a hyphen from the end of the title to the start of the company
   * does not change the key: the key is not injective on field triples.
   */
  lemma {:induction false} HyphenShiftKeepsKey(a: string, b: string, c: string, d: string, link1: Field, link2: Field)
    ensures Job(Present(a + "-" + b), Present(c), Present(d), link1)
         != Job(Present(a), Present(b + "-" + c), Present(d), link2)
    ensures Key(Job(Present(a + "-" + b), Present(c), Present(d), link1))
         == Key(Job(Present(a), Present(b + "-" + c), Present(d), link2))
  {
    assert |a + "-" + b| != |a|;
    assert (a + "-" + b) + "-" + c == a + "-" + (b + "-" + c);
  }

  /**
   * For each of the three key fields, a missing field and a field whose text
   * is "undefined" give the same key, though the jobs differ.
   */
  lemma AbsentMatchesUndefinedText(title: Field, company: Field, location: Field, link1: Field, link2: Field)
    ensures Job(Absent, company, location, link1) != Job(Present("undefined"), company, location, link2)
    ensures Key(Job(Absent, company, location, link1)) == Key(Job(Present("undefined"), company, location, link2))
    ensures Job(title, Absent, location, link1) != Job(title, Present("undefined"), location, link2)
    ensures Key(Job(title, Absent, location, link1)) == Key(Job(title, Present("undefined"), location, link2))
    ensures Job(title, company, Absent, link1) != Job(title, company, Present("undefined"), link2)
    ensures Key(Job(title, company, Absent, link1)) == Key(Job(title, company, Present("undefined"), link2))
  {
  }
}
