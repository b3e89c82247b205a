/**
  The documentation explorer's search: a case-insensitive substring filter
  over a fixed list of four mock documents, guarded against a blank term.
 */
module DocSearch {
  import opened Common

  /** One search hit. */
  datatype DocResult = DocResult(id: string, title: string, snippet: string, url: string)

  /** The fixed documents every search runs over. */
  const MockResults: seq<DocResult> := [BehaviorPacksDoc, EntityDoc, ScriptingDoc, BlocksDoc]

  const BehaviorPacksDoc := DocResult("1", "Introduction to Behavior Packs",
    "Learn the basics of creating behavior packs for custom entities, items, and more...", "#")
  const EntityDoc := DocResult("2", "Entity JSON Structure",
    "Understand the JSON schema for defining custom entity behaviors and components.", "#")
  const ScriptingDoc := DocResult("3", "Scripting API Overview",
    "Explore the GameTest Framework and other scripting capabilities available for Bedrock Edition.", "#")
  const BlocksDoc := DocResult("4", "Creating Custom Blocks",
    "A guide to defining new blocks with unique properties and appearances.", "#")

  /** The explorer's state: the typed term, the results shown, and whether a search has happened. */
  datatype SearchState = SearchState(term: string, results: seq<DocResult>, hasSearched: bool)

  /** The filter's test, evaluated with the scanning substring search. */
  predicate Matches(doc: DocResult, term: string) {
    Includes(Lower(doc.title), Lower(term)) || Includes(Lower(doc.snippet), Lower(term))
  }

  /** The filter's test as a function value, for `filter`. */
  function MatchesTerm(term: string): DocResult -> bool {
    doc => Matches(doc, term)
  }

  /** `hay` contains `term` when both are lower-cased. */
  ghost predicate ContainsIgnoringCase(hay: string, term: string) {
    exists k: nat :: OccursAt(Lower(hay), Lower(term), k)
  }

  /**
    The search over a list of documents: a term that is empty or whitespace
    only finds nothing; any other term, untrimmed, is matched against each
    document's title and snippet, ignoring case.
   */
  function Search(docs: seq<DocResult>, term: string): (r: seq<DocResult>)
    ensures IsBlank(term) ==> r == []
  {
    if IsBlank(term) then [] else Filter(docs, MatchesTerm(term))
  }

  /**
    The guard is the source's `!searchTerm.trim()`: a term whose trimmed form
    is empty finds nothing, and any other term is filtered over every document.
   */
  lemma SearchGuardIsTrim(docs: seq<DocResult>, term: string)
    ensures Trim(term) == "" ==> Search(docs, term) == []
    ensures Trim(term) != "" ==> Search(docs, term) == Filter(docs, MatchesTerm(term))
  {
    TrimEmptyIffBlank(term);
  }

  /** The filter's test holds exactly when the title or the snippet contains the term ignoring case. */
  lemma MatchesIff(d: DocResult, term: string)
    ensures Matches(d, term) <==> ContainsIgnoringCase(d.title, term) || ContainsIgnoringCase(d.snippet, term)
  {
    IncludesIffOccurs(Lower(d.title), Lower(term));
    IncludesIffOccurs(Lower(d.snippet), Lower(term));
  }

  /** The results are some of the documents, in their original order. */
  lemma SearchOrdered(docs: seq<DocResult>, term: string)
    ensures IsSubsequence(Search(docs, term), docs)
  {
    FilterSpec(docs, MatchesTerm(term));
  }

  /** Every result is one of the documents and contains the term, untrimmed, ignoring case. */
  lemma SearchSound(docs: seq<DocResult>, term: string, d: DocResult)
    requires d in Search(docs, term)
    ensures d in docs
    ensures ContainsIgnoringCase(d.title, term) || ContainsIgnoringCase(d.snippet, term)
  {
    FilterSpec(docs, MatchesTerm(term));
    MatchesIff(d, term);
  }

  /** For a term that is not blank, every document containing it ignoring case is a result. */
  lemma SearchComplete(docs: seq<DocResult>, term: string, d: DocResult)
    requires !IsBlank(term) && d in docs
    ensures d in Search(docs, term) <==> ContainsIgnoringCase(d.title, term) || ContainsIgnoringCase(d.snippet, term)
  {
    FilterSpec(docs, MatchesTerm(term));
    MatchesIff(d, term);
  }

  /** Submitting the search form: the search is marked as done and the results are those of the mock documents. */
  function HandleSearch(st: SearchState): (r: SearchState)
    ensures r.hasSearched && r.term == st.term
    ensures IsBlank(st.term) ==> r.results == []
  {
    st.(hasSearched := true, results := Search(MockResults, st.term))
  }
}
