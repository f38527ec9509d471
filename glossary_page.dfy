/** The browse page (app/glossary/page.tsx): an optional category filter
    followed by an optional search filter, and the result-count text. */
module GlossaryPage {
  import opened Wrappers
  import opened Text
  import opened Subsequences
  import opened Glossary

  /** Truthiness of the selected category: neither `null` nor `''`. */
  predicate CategorySelected(selected: Option<string>) {
    selected.Some? && selected.value != ""
  }

  /** The two filters as one conjunction: the category check (when a
      category is selected) and the search predicate. */
  predicate Passes(t: Term, search: string, selected: Option<string>) {
    (CategorySelected(selected) ==> t.category == selected.value) && Matches(t, Lower(search))
  }

  /** The entries passing both filters, in one pass, in their order. */
  function Browse(ts: seq<Term>, search: string, selected: Option<string>): (r: seq<Term>)
    ensures IsSubsequence(r, ts)
    ensures forall t :: t in r <==> t in ts && Passes(t, search, selected)
  {
    if ts == [] then []
    else
      var rest := Browse(ts[1..], search, selected);
      assert forall t :: t in ts <==> t == ts[0] || t in ts[1..];
      if Passes(ts[0], search, selected) then [ts[0]] + rest else rest
  }

  /** Counted with multiplicity, the one-pass filter keeps every copy of a
      passing entry and no copy of any other. */
  lemma {:induction false} BrowseCounts(ts: seq<Term>, search: string, selected: Option<string>)
    ensures forall t :: multiset(Browse(ts, search, selected))[t]
                        == if Passes(t, search, selected) then multiset(ts)[t] else 0
  {
    if ts != [] {
      BrowseCounts(ts[1..], search, selected);
      assert ts == [ts[0]] + ts[1..];
    }
  }

  /** Without a category, the one-pass filter is the search filter. */
  lemma {:induction false} BrowseWithoutCategory(ts: seq<Term>, search: string, selected: Option<string>)
    requires !CategorySelected(selected)
    ensures Browse(ts, search, selected) == BySearch(ts, Lower(search))
  {
    if ts != [] {
      BrowseWithoutCategory(ts[1..], search, selected);
    }
  }

  /** With a category, the one-pass filter is the category filter followed
      by the search filter, and also the other way round. */
  lemma {:induction false} BrowseWithCategory(ts: seq<Term>, search: string, selected: Option<string>)
    requires CategorySelected(selected)
    ensures Browse(ts, search, selected) == BySearch(ByCategory(ts, selected.value), Lower(search))
    ensures Browse(ts, search, selected) == ByCategory(BySearch(ts, Lower(search)), selected.value)
  {
    if ts != [] {
      BrowseWithCategory(ts[1..], search, selected);
    }
    FiltersCommute(ts, selected.value, Lower(search));
  }

  /** `filteredTerms`: start from every term, keep the selected category if
      one is selected, then keep the search matches if the search box is
      not empty. */
  method FilteredTerms(search: string, selected: Option<string>) returns (terms: seq<Term>)
    ensures terms == Browse(GlossaryTerms, search, selected)
  {
    terms := GlossaryTerms;
    if CategorySelected(selected) {
      terms := ByCategory(terms, selected.value);
    }
    if search != "" {
      var q := Lower(search);
      terms := BySearch(terms, q);
    }
    if CategorySelected(selected) {
      BrowseWithCategory(GlossaryTerms, search, selected);
    } else {
      BrowseWithoutCategory(GlossaryTerms, search, selected);
    }
    if search == "" {
      SearchEmpty(terms);
    }
  }

  /** No category and an empty search: every term, in declaration order. */
  lemma BrowseEverything()
    ensures Browse(GlossaryTerms, "", None) == GlossaryTerms
  {
    BrowseWithoutCategory(GlossaryTerms, "", None);
    SearchEmpty(GlossaryTerms);
  }

  /** Without a category the page shows exactly `searchTerms(search)`. */
  lemma BrowseIsSearchTerms(search: string, selected: Option<string>)
    requires !CategorySelected(selected)
    ensures Browse(GlossaryTerms, search, selected) == SearchTerms(search)
  {
    BrowseWithoutCategory(GlossaryTerms, search, selected);
  }

  /** With a category the page shows `searchTerms(search)` restricted to
      the category, which is also `getTermsByCategory(category)` restricted
      to the search; every shown term has the selected category. */
  lemma BrowseIsRestriction(search: string, category: string)
    requires category != ""
    ensures Browse(GlossaryTerms, search, Some(category)) == ByCategory(SearchTerms(search), category)
    ensures Browse(GlossaryTerms, search, Some(category)) == BySearch(GetTermsByCategory(category), Lower(search))
    ensures forall t :: t in Browse(GlossaryTerms, search, Some(category)) ==> t.category == category
  {
    BrowseWithCategory(GlossaryTerms, search, Some(category));
  }

  /** The noun in "N term(s) found": plural exactly when the count is not 1. */
  function TermNoun(count: nat): (w: string)
    ensures w == "terms" <==> count != 1
    ensures w == "term" <==> count == 1
  {
    "term" + (if count != 1 then "s" else "")
  }

  /** The "No terms found" message is shown exactly when nothing matched. */
  predicate ShowsEmptyMessage(terms: seq<Term>)
  {
    |terms| == 0
  }
}
