/**
 The searchable index of documentation pages, from pkg/registry/docs/docs_client.go:
 entries with their tokens, computed once or on demand, and the restriction of an
 index to one product.

 Text is lowercased, split into tokens and normalised by functions of the language's
 library, which a Lexer stands for. A character of a string stands for a byte.
 */
module DocsIndex {
  import opened Strings

  datatype Entry = Entry(title: string, url: string, description: string, section: string, markdownURL: string, lastModified: string)

  datatype QueryTerm = QueryTerm(text: string, stem: string)

  datatype Tokens = Tokens(title: seq<QueryTerm>, description: seq<QueryTerm>, section: seq<QueryTerm>, url: seq<QueryTerm>)

  datatype Lexer = Lexer(lower: string -> string, split: string -> seq<string>, facet: string -> string)

  datatype Index = Index(entries: seq<Entry>, tokens: seq<Tokens>)

  const DOCS_BASE := "https://docs.digitalocean.com"
  const MIN_PREFIX_LEN: nat := 4

  // ------------------------------------------------------------------
  // Tokens
  // ------------------------------------------------------------------

  const STEM_SUFFIXES: seq<string> :=
    ["ization", "ations", "ically", "ation", "ings", "edly", "ing", "ies", "ers", "ors",
     "ed", "es", "ly", "al", "er", "or", "s", "e", "y"]

  /** The token without the first of the suffixes that leaves at least four characters. */
  function Strip(token: string, suffixes: seq<string>): (r: string)
    ensures r == token || (r <= token && |r| >= 4)
  {
    if suffixes == [] then token
    else if HasSuffix(token, suffixes[0]) && |token| - |suffixes[0]| >= 4 then token[..|token| - |suffixes[0]|]
    else Strip(token, suffixes[1..])
  }

  function LightStem(token: string): string {
    if |token| <= 4 then token else Strip(token, STEM_SUFFIXES)
  }

  /** Whether a suffix can be cut from a token, leaving at least four characters. */
  predicate CanCut(token: string, suffix: string) {
    |token| >= |suffix| + 4 && token[|token| - |suffix|..] == suffix
  }

  /** What is cut is the first suffix of the list that can be, if there is one. */
  lemma {:induction false} FirstIsCut(token: string, suffixes: seq<string>, k: nat)
    requires k <= |suffixes| && forall j :: 0 <= j < k ==> !CanCut(token, suffixes[j])
    requires k < |suffixes| ==> CanCut(token, suffixes[k])
    ensures Strip(token, suffixes) == if k == |suffixes| then token else token[..|token| - |suffixes[k]|]
  {
    if k > 0 {
      assert forall j :: 0 <= j < |suffixes| - 1 ==> suffixes[1..][j] == suffixes[j + 1];
      FirstIsCut(token, suffixes[1..], k - 1);
    }
  }

  function TermOf(word: string): QueryTerm {
    QueryTerm(word, LightStem(word))
  }

  /** A word finds itself, and with four characters or more every word that begins with it. */
  lemma WordFinds(word: string, rest: string)
    ensures MatchesToken(TermOf(word), TermOf(word))
    ensures |word| >= 4 ==> MatchesToken(TermOf(word), TermOf(word + rest))
  {
  }

  /** Words of one stem find each other, whichever ending either has. */
  lemma EndingsFindEachOther(stem: string, a: nat, b: nat)
    requires a < |STEM_SUFFIXES| && b < |STEM_SUFFIXES| && |stem| >= 4
    requires forall j :: 0 <= j < a ==> !CanCut(stem + STEM_SUFFIXES[a], STEM_SUFFIXES[j])
    requires forall j :: 0 <= j < b ==> !CanCut(stem + STEM_SUFFIXES[b], STEM_SUFFIXES[j])
    ensures MatchesToken(TermOf(stem + STEM_SUFFIXES[a]), TermOf(stem + STEM_SUFFIXES[b]))
  {
    StemIsFound(stem, a);
    StemIsFound(stem, b);
  }

  lemma StemIsFound(stem: string, a: nat)
    requires a < |STEM_SUFFIXES| && |stem| >= 4
    requires forall j :: 0 <= j < a ==> !CanCut(stem + STEM_SUFFIXES[a], STEM_SUFFIXES[j])
    ensures LightStem(stem + STEM_SUFFIXES[a]) == stem
  {
    var word := stem + STEM_SUFFIXES[a];
    SuffixesAreLong(a);
    assert CanCut(word, STEM_SUFFIXES[a]);
    FirstIsCut(word, STEM_SUFFIXES, a);
    assert word[..|word| - |STEM_SUFFIXES[a]|] == stem;
  }

  lemma SuffixesAreLong(a: nat)
    requires a < |STEM_SUFFIXES|
    ensures |STEM_SUFFIXES[a]| > 0
  {
  }

  function Terms(raw: seq<string>): seq<QueryTerm> {
    if raw == [] then []
    else (if raw[0] == "" then [] else [QueryTerm(raw[0], LightStem(raw[0]))]) + Terms(raw[1..])
  }

  function FieldTerms(lex: Lexer, field: string): seq<QueryTerm> {
    Terms(lex.split(field))
  }

  function UrlPathLower(lex: Lexer, url: string): string {
    lex.lower(if DOCS_BASE <= url then url[|DOCS_BASE|..] else url)
  }

  function TokenizeEntry(lex: Lexer, e: Entry): Tokens {
    Tokens(FieldTerms(lex, lex.lower(e.title)), FieldTerms(lex, lex.lower(e.description)),
           FieldTerms(lex, lex.lower(e.section)), FieldTerms(lex, UrlPathLower(lex, e.url)))
  }

  // ------------------------------------------------------------------
  // Matching
  // ------------------------------------------------------------------

  predicate MatchesToken(q: QueryTerm, token: QueryTerm) {
    token.text == q.text || token.stem == q.stem || (|q.text| >= MIN_PREFIX_LEN && q.text <= token.text)
  }

  predicate MatchesTokens(q: QueryTerm, tokens: seq<QueryTerm>) {
    exists i :: 0 <= i < |tokens| && MatchesToken(q, tokens[i])
  }

  predicate MatchesExactly(q: QueryTerm, tokens: seq<QueryTerm>) {
    exists i :: 0 <= i < |tokens| && tokens[i].text == q.text
  }

  // ------------------------------------------------------------------
  // Building and restricting an index
  // ------------------------------------------------------------------

  /** The tokens of an entry, from the index if it has them. */
  function TokensAt(lex: Lexer, index: Index, i: nat): Tokens
    requires i < |index.entries|
  {
    if i < |index.tokens| then index.tokens[i] else TokenizeEntry(lex, index.entries[i])
  }

  /** The tokens an index has are those of its entries. */
  ghost predicate Consistent(lex: Lexer, index: Index) {
    && |index.tokens| <= |index.entries|
    && forall i :: 0 <= i < |index.tokens| ==> index.tokens[i] == TokenizeEntry(lex, index.entries[i])
  }

  method NewDocsIndex(lex: Lexer, entries: seq<Entry>) returns (index: Index)
    ensures index.entries == entries && |index.tokens| == |entries| && Consistent(lex, index)
  {
    var tokens: seq<Tokens> := [];
    for i := 0 to |entries|
      invariant |tokens| == i
      invariant forall j :: 0 <= j < i ==> tokens[j] == TokenizeEntry(lex, entries[j])
    {
      tokens := tokens + [TokenizeEntry(lex, entries[i])];
    }
    return Index(entries, tokens);
  }

  /** A product as the filter sees it: its normalised name, that of the service it is
      an alias of, the service's path segment, and the name's tokens. */
  datatype Product = Product(want: string, alias: string, slug: string, terms: seq<QueryTerm>)

  predicate IsExact(lex: Lexer, p: Product, e: Entry) {
    lex.facet(e.section) == p.want || lex.facet(e.section) == p.alias || Contains(UrlPathLower(lex, e.url), p.slug)
  }

  predicate HasExact(lex: Lexer, p: Product, index: Index) {
    exists i :: 0 <= i < |index.entries| && IsExact(lex, p, index.entries[i])
  }

  predicate MatchesAll(terms: seq<QueryTerm>, tokens: seq<QueryTerm>) {
    forall t :: 0 <= t < |terms| ==> MatchesTokens(terms[t], tokens)
  }

  /** An entry is kept for an exact identity, or for its section's tokens where no
      entry has one. */
  predicate Kept(lex: Lexer, p: Product, index: Index, i: nat)
    requires i < |index.entries|
  {
    if HasExact(lex, p, index) then IsExact(lex, p, index.entries[i])
    else MatchesAll(p.terms, TokensAt(lex, index, i).section)
  }

  /** The positions below n of the entries that are kept, in order. */
  function KeptBelow(lex: Lexer, p: Product, index: Index, n: nat): (r: seq<nat>)
    requires n <= |index.entries|
    ensures forall j :: 0 <= j < |r| ==> r[j] < n && Kept(lex, p, index, r[j])
    ensures forall i :: 0 <= i < n && Kept(lex, p, index, i) ==> i in r
    ensures forall j, k :: 0 <= j < k < |r| ==> r[j] < r[k]
  {
    if n == 0 then []
    else KeptBelow(lex, p, index, n - 1) + (if Kept(lex, p, index, n - 1) then [n - 1] else [])
  }

  /** The index of the entries at given positions, all with their tokens. */
  ghost predicate IsRestriction(lex: Lexer, index: Index, positions: seq<nat>, r: Index) {
    && |r.entries| == |r.tokens| == |positions|
    && forall j :: 0 <= j < |positions| && positions[j] < |index.entries| ==>
         r.entries[j] == index.entries[positions[j]] && r.tokens[j] == TokensAt(lex, index, positions[j])
  }

  lemma RestrictionGrows(lex: Lexer, index: Index, positions: seq<nat>, r: Index, i: nat)
    requires i < |index.entries| && IsRestriction(lex, index, positions, r)
    ensures IsRestriction(lex, index, positions + [i],
              Index(r.entries + [index.entries[i]], r.tokens + [TokensAt(lex, index, i)]))
  {
  }

  method MarkExact(lex: Lexer, index: Index, p: Product) returns (exact: seq<bool>, hasExact: bool)
    ensures |exact| == |index.entries|
    ensures forall j :: 0 <= j < |exact| ==> exact[j] == IsExact(lex, p, index.entries[j])
    ensures hasExact == HasExact(lex, p, index)
  {
    exact := [];
    hasExact := false;
    for i := 0 to |index.entries|
      invariant |exact| == i
      invariant forall j :: 0 <= j < i ==> exact[j] == IsExact(lex, p, index.entries[j])
      invariant hasExact <==> exists j :: 0 <= j < i && IsExact(lex, p, index.entries[j])
    {
      exact := exact + [IsExact(lex, p, index.entries[i])];
      hasExact := hasExact || exact[i];
    }
  }

  method FindAll(terms: seq<QueryTerm>, tokens: seq<QueryTerm>) returns (matches: bool)
    ensures matches == MatchesAll(terms, tokens)
  {
    matches := true;
    var t := 0;
    while t < |terms| && matches
      invariant t <= |terms|
      invariant matches <==> forall u :: 0 <= u < t ==> MatchesTokens(terms[u], tokens)
    {
      matches := MatchesTokens(terms[t], tokens);
      t := t + 1;
    }
  }

  method FilterByProduct(lex: Lexer, index: Index, p: Product) returns (r: Index)
    ensures p.want == "" ==> r == index
    ensures p.want != "" ==> IsRestriction(lex, index, KeptBelow(lex, p, index, |index.entries|), r)
    ensures Consistent(lex, index) ==> Consistent(lex, r)
  {
    if p.want == "" {
      return index;
    }
    var exact, hasExact := MarkExact(lex, index, p);
    r := Index([], []);
    for i := 0 to |index.entries|
      invariant IsRestriction(lex, index, KeptBelow(lex, p, index, i), r)
    {
      var matches := exact[i];
      if !hasExact {
        matches := FindAll(p.terms, TokensAt(lex, index, i).section);
      }
      if matches {
        RestrictionGrows(lex, index, KeptBelow(lex, p, index, i), r, i);
        r := Index(r.entries + [index.entries[i]], r.tokens + [TokensAt(lex, index, i)]);
      }
    }
    RestrictionIsConsistent(lex, index, KeptBelow(lex, p, index, |index.entries|), r);
  }

  lemma RestrictionIsConsistent(lex: Lexer, index: Index, positions: seq<nat>, r: Index)
    requires IsRestriction(lex, index, positions, r)
    requires forall j :: 0 <= j < |positions| ==> positions[j] < |index.entries|
    ensures Consistent(lex, index) ==> Consistent(lex, r)
  {
    if Consistent(lex, index) {
      forall j | 0 <= j < |r.tokens|
        ensures r.tokens[j] == TokenizeEntry(lex, r.entries[j])
      {
        assert positions[j] < |index.entries|;
      }
    }
  }

  /** A restriction keeps the order of the entries and leaves out nothing that is kept. */
  lemma RestrictionIsSubsequence(lex: Lexer, index: Index, p: Product, r: Index)
    requires IsRestriction(lex, index, KeptBelow(lex, p, index, |index.entries|), r)
    ensures exists f: seq<nat> ::
              |f| == |r.entries|
              && (forall j :: 0 <= j < |f| ==> f[j] < |index.entries| && r.entries[j] == index.entries[f[j]])
              && (forall j, k :: 0 <= j < k < |f| ==> f[j] < f[k])
    ensures forall i :: 0 <= i < |index.entries| && Kept(lex, p, index, i) ==> index.entries[i] in r.entries
  {
    var f := KeptBelow(lex, p, index, |index.entries|);
    forall i | 0 <= i < |index.entries| && Kept(lex, p, index, i) ensures index.entries[i] in r.entries {
      var j :| 0 <= j < |f| && f[j] == i;
      assert r.entries[j] == index.entries[i];
    }
  }

  /** An entry is the product's own if its section is the product's name or that of its service, or
      the service's segment occurs in its path. */
  ghost predicate IsOwn(lex: Lexer, p: Product, e: Entry) {
    || lex.facet(e.section) == p.want || lex.facet(e.section) == p.alias
    || exists i: nat :: OccursAt(UrlPathLower(lex, e.url), p.slug, i)
  }

  /** Whether each of the product's tokens is found in the section. */
  predicate SectionHasAll(lex: Lexer, p: Product, e: Entry) {
    forall t :: 0 <= t < |p.terms| ==> MatchesTokens(p.terms[t], Terms(lex.split(lex.lower(e.section))))
  }

  lemma OwnIff(lex: Lexer, p: Product, e: Entry)
    ensures IsOwn(lex, p, e) <==> IsExact(lex, p, e)
  {
    ContainsIff(UrlPathLower(lex, e.url), p.slug);
  }

  ghost predicate HasOwn(lex: Lexer, p: Product, index: Index) {
    exists e :: e in index.entries && IsOwn(lex, p, e)
  }

  lemma HasOwnIff(lex: Lexer, p: Product, index: Index)
    ensures HasOwn(lex, p, index) <==> HasExact(lex, p, index)
  {
    if HasOwn(lex, p, index) {
      var e :| e in index.entries && IsOwn(lex, p, e);
      OwnIff(lex, p, e);
    }
    if HasExact(lex, p, index) {
      var i :| 0 <= i < |index.entries| && IsExact(lex, p, index.entries[i]);
      OwnIff(lex, p, index.entries[i]);
    }
  }

  lemma KeptIff(lex: Lexer, p: Product, index: Index, i: nat)
    requires Consistent(lex, index) && i < |index.entries|
    ensures Kept(lex, p, index, i) <==>
            if HasOwn(lex, p, index) then IsOwn(lex, p, index.entries[i]) else SectionHasAll(lex, p, index.entries[i])
  {
    HasOwnIff(lex, p, index);
    OwnIff(lex, p, index.entries[i]);
    assert TokensAt(lex, index, i) == TokenizeEntry(lex, index.entries[i]);
  }

  /** Filtering keeps exactly the product's own entries, or where there are none those that have
      all of its tokens in their section. */
  lemma FilterKeeps(lex: Lexer, index: Index, p: Product, r: Index, e: Entry)
    requires Consistent(lex, index) && IsRestriction(lex, index, KeptBelow(lex, p, index, |index.entries|), r)
    ensures e in r.entries <==>
            e in index.entries && if HasOwn(lex, p, index) then IsOwn(lex, p, e) else SectionHasAll(lex, p, e)
  {
    var f := KeptBelow(lex, p, index, |index.entries|);
    if e in r.entries {
      var j :| 0 <= j < |r.entries| && r.entries[j] == e;
      KeptIff(lex, p, index, f[j]);
    }
    if e in index.entries {
      var i :| 0 <= i < |index.entries| && index.entries[i] == e;
      KeptIff(lex, p, index, i);
      RestrictionIsSubsequence(lex, index, p, r);
    }
  }
}
