/** The landing page (app/page.tsx): the featured terms and the per-category
    counts of the category cards. That the six counts add up to the number
    of terms is `Glossary.CategoryResultsPartition`. */
module HomePage {
  import opened Wrappers
  import opened Glossary

  /** The slugs of the "Popular Terms" section, in display order. */
  const FeaturedSlugs: seq<string> :=
    ["per", "pbr", "eps", "roe", "dividend", "dividend-yield", "etf", "short-selling"]

  /** `featuredSlugs.map(find).filter(Boolean)`: the same two steps as
      `getRelatedTerms`, so the same result. */
  function FeaturedTerms(): (r: seq<Term>)
    ensures r == GetRelatedTerms(Some(FeaturedSlugs))
  {
    Present(LookupAll(GlossaryTerms, FeaturedSlugs))
  }

  /** Every slug of a list has an entry: resolving it keeps every slug. */
  lemma {:induction false} AllKnown(ts: seq<Term>, slugs: seq<string>)
    requires forall k :: 0 <= k < |slugs| ==> HasSlug(ts, slugs[k])
    ensures KnownSlugs(ts, slugs) == slugs
  {
    if slugs != [] {
      AllKnown(ts, slugs[1..]);
    }
  }

  /** The slug declared at position `i` has an entry. */
  lemma DeclaredHasSlug(i: int)
    requires 0 <= i < |DeclaredSlugs|
    ensures HasSlug(GlossaryTerms, DeclaredSlugs[i])
  {
    DatasetSlugs();
    assert GlossaryTerms[i].slug == DeclaredSlugs[i];
  }

  /** Each featured slug has an entry. */
  lemma FeaturedSlugsExist()
    ensures forall k :: 0 <= k < |FeaturedSlugs| ==> HasSlug(GlossaryTerms, FeaturedSlugs[k])
  {
    DeclaredHasSlug(6);
    DeclaredHasSlug(7);
    DeclaredHasSlug(8);
    DeclaredHasSlug(9);
    DeclaredHasSlug(21);
    DeclaredHasSlug(11);
    DeclaredHasSlug(37);
    DeclaredHasSlug(15);
    assert FeaturedSlugs == [DeclaredSlugs[6], DeclaredSlugs[7], DeclaredSlugs[8], DeclaredSlugs[9],
                             DeclaredSlugs[21], DeclaredSlugs[11], DeclaredSlugs[37], DeclaredSlugs[15]];
  }

  /** All eight featured slugs exist, so all eight cards are shown, in the
      order of `FeaturedSlugs`. */
  lemma FeaturedAllFound()
    ensures |FeaturedTerms()| == 8
    ensures forall k :: 0 <= k < 8 ==> FeaturedTerms()[k].slug == FeaturedSlugs[k]
  {
    FeaturedSlugsExist();
    AllKnown(GlossaryTerms, FeaturedSlugs);
    var r := FeaturedTerms();
    assert SlugsOf(r) == FeaturedSlugs;
  }

  /** A category card's count: `glossaryTerms.filter(t => t.category === key).length`. */
  function CategoryCount(key: string): (n: nat)
    ensures n == |GetTermsByCategory(key)|
  {
    |ByCategory(GlossaryTerms, key)|
  }
}
