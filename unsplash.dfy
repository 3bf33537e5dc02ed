/** The stock-photo search query the AI page builder derives from a business niche and the
    section an image is for. */
module Unsplash {
  import opened Strings

  /** The section types the query builder is called with. */
  datatype SectionType = Hero | About | Features

  /** The words added after the niche for each section type. */
  function Keywords(sectionType: SectionType): string {
    match sectionType
    case Hero => " business professional"
    case About => " team workspace"
    case Features => " technology modern"
  }

  /** `generateSearchQuery`: the lower-cased niche followed by the section's words. */
  function SearchQuery(niche: string, sectionType: SectionType): (q: string)
    ensures StartsWith(q, Lower(niche))
    ensures sectionType == Hero ==> q == Lower(niche) + " business professional"
    ensures sectionType == About ==> q == Lower(niche) + " team workspace"
    ensures sectionType == Features ==> q == Lower(niche) + " technology modern"
  {
    Lower(niche) + Keywords(sectionType)
  }

  /** Lower-casing is idempotent. */
  lemma {:induction false} LowerIdempotent(s: string)
    ensures Lower(Lower(s)) == Lower(s)
  {
    if s != [] {
      LowerIdempotent(s[1..]);
      assert Lower(s)[1..] == Lower(s[1..]);
    }
  }

  /** The niche's letter case does not matter: niches equal up to ASCII case give the same
      query, and so does the already lower-cased niche. */
  lemma NicheCaseIgnored(a: string, b: string, sectionType: SectionType)
    requires Lower(a) == Lower(b)
    ensures SearchQuery(a, sectionType) == SearchQuery(b, sectionType)
    ensures SearchQuery(Lower(a), sectionType) == SearchQuery(a, sectionType)
  {
    LowerIdempotent(a);
  }

  /** Different section types give different queries for the same niche: their added words
      differ even in length. */
  lemma SectionsDiffer(niche: string, s: SectionType, t: SectionType)
    requires s != t
    ensures SearchQuery(niche, s) != SearchQuery(niche, t)
  {
    assert |Keywords(Hero)| == 22 && |Keywords(About)| == 15 && |Keywords(Features)| == 18;
    assert |SearchQuery(niche, s)| == |Lower(niche)| + |Keywords(s)|;
    assert |SearchQuery(niche, t)| == |Lower(niche)| + |Keywords(t)|;
  }
}
