/**
 What the ranking of pkg/registry/docs/docs_client.go means for the order of results: which
 fields count how much, in terms of the entries' own text.
 */
module ResultOrder {
  import opened DocsIndex
  import opened Ranking
  import opened Sequences

  // ------------------------------------------------------------------
  // The fields that a term is found in
  // ------------------------------------------------------------------

  datatype Field = Title | Description | Section | Url

  function TextOf(lex: Lexer, e: Entry, f: Field): string {
    match f
    case Title => lex.lower(e.title)
    case Description => lex.lower(e.description)
    case Section => lex.lower(e.section)
    case Url => UrlPathLower(lex, e.url)
  }

  predicate FoundIn(lex: Lexer, q: QueryTerm, e: Entry, f: Field) {
    MatchesTokens(q, Terms(lex.split(TextOf(lex, e, f))))
  }

  /** The term itself, and not only a word with its stem or its beginning, is in the title. */
  predicate IsTitleWord(lex: Lexer, q: QueryTerm, e: Entry) {
    MatchesExactly(q, Terms(lex.split(TextOf(lex, e, Title))))
  }

  predicate FoundAnywhere(lex: Lexer, q: QueryTerm, e: Entry) {
    FoundIn(lex, q, e, Title) || FoundIn(lex, q, e, Description) || FoundIn(lex, q, e, Section) || FoundIn(lex, q, e, Url)
  }

  lemma MatchesByField(lex: Lexer, q: QueryTerm, e: Entry)
    ensures
      MatchOf(q, TokenizeEntry(lex, e))
      == FieldMatch(FoundIn(lex, q, e, Title), IsTitleWord(lex, q, e), FoundIn(lex, q, e, Description),
                    FoundIn(lex, q, e, Section), FoundIn(lex, q, e, Url))
    ensures IsTitleWord(lex, q, e) ==> FoundIn(lex, q, e, Title)
  {
    ExactIsMatch(q, TokenizeEntry(lex, e).title);
  }

  // ------------------------------------------------------------------
  // The score of one term
  // ------------------------------------------------------------------

  function ScoreOf(c: Option<Scored>): nat {
    if c.Some? then c.value.score else 0
  }

  /** What an entry scores in a search for one term. */
  function OneTermScore(lex: Lexer, index: Index, q: QueryTerm, i: nat): nat
    requires i < |index.entries|
  {
    ScoreOf(CandidateAt(lex, index, [q], false, i))
  }

  /** The entries among the first n that a term is found in. */
  function Finders(lex: Lexer, index: Index, q: QueryTerm, n: nat): set<nat>
    requires n <= |index.entries|
  {
    set i: nat | i < n && FoundAnywhere(lex, q, index.entries[i])
  }

  /** A rare term is found somewhere, but at most in one entry of every two hundred. */
  predicate IsRareTerm(lex: Lexer, index: Index, q: QueryTerm) {
    var found := |Finders(lex, index, q, |index.entries|)|;
    0 < found && 200 * found <= |index.entries|
  }

  lemma FoundIsAny(lex: Lexer, index: Index, q: QueryTerm, i: nat)
    requires Consistent(lex, index) && i < |index.entries|
    ensures MatchOf(q, TokensAt(lex, index, i)).Any() <==> FoundAnywhere(lex, q, index.entries[i])
  {
    MatchesByField(lex, q, index.entries[i]);
    assert TokensAt(lex, index, i) == TokenizeEntry(lex, index.entries[i]);
  }

  lemma FindersNext(lex: Lexer, index: Index, q: QueryTerm, n: nat, found: bool)
    requires 0 < n <= |index.entries| && found == FoundAnywhere(lex, q, index.entries[n - 1])
    ensures |Finders(lex, index, q, n)| == |Finders(lex, index, q, n - 1)| + (if found then 1 else 0)
  {
    var before := Finders(lex, index, q, n - 1);
    assert Finders(lex, index, q, n) == if found then before + {n - 1} else before;
  }

  lemma DocFreqNext(lex: Lexer, index: Index, q: QueryTerm, n: nat, found: bool)
    requires 0 < n <= |index.entries| && found == MatchOf(q, TokensAt(lex, index, n - 1)).Any()
    ensures DocFreq(lex, index, q, n) == DocFreq(lex, index, q, n - 1) + (if found then 1 else 0)
  {
  }

  lemma CountsAgree(lex: Lexer, index: Index, q: QueryTerm, n: nat)
    requires Consistent(lex, index) && 0 < n <= |index.entries|
    ensures DocFreq(lex, index, q, n) - DocFreq(lex, index, q, n - 1)
            == |Finders(lex, index, q, n)| - |Finders(lex, index, q, n - 1)|
  {
    FoundIsAny(lex, index, q, n - 1);
    var found := FoundAnywhere(lex, q, index.entries[n - 1]);
    FindersNext(lex, index, q, n, found);
    DocFreqNext(lex, index, q, n, found);
  }

  lemma NoneBelow(lex: Lexer, index: Index, q: QueryTerm)
    ensures |Finders(lex, index, q, 0)| == 0 && DocFreq(lex, index, q, 0) == 0
  {
    assert Finders(lex, index, q, 0) == {};
  }

  ghost predicate CountsTo(lex: Lexer, index: Index, q: QueryTerm, n: nat)
    requires n <= |index.entries|
  {
    DocFreq(lex, index, q, n) == |Finders(lex, index, q, n)|
  }

  lemma CountsOn(lex: Lexer, index: Index, q: QueryTerm, n: nat)
    requires Consistent(lex, index) && 0 < n <= |index.entries| && CountsTo(lex, index, q, n - 1)
    ensures CountsTo(lex, index, q, n)
  {
    CountsAgree(lex, index, q, n);
  }

  lemma {:induction false} DocFreqCounts(lex: Lexer, index: Index, q: QueryTerm, n: nat)
    requires Consistent(lex, index) && n <= |index.entries|
    ensures CountsTo(lex, index, q, n)
    decreases n
  {
    if n == 0 {
      NoneBelow(lex, index, q);
    } else {
      DocFreqCounts(lex, index, q, n - 1);
      CountsOn(lex, index, q, n);
    }
  }

  lemma WeightIs(lex: Lexer, index: Index, q: QueryTerm)
    requires Consistent(lex, index)
    ensures WeightOf(lex, index, q) == if IsRareTerm(lex, index, q) then 2 else 1
  {
    DocFreqCounts(lex, index, q, |index.entries|);
  }

  function Points(found: bool, points: nat): nat {
    if found then points else 0
  }

  /** What the fields of an entry count for a term. */
  function FieldPoints(lex: Lexer, q: QueryTerm, e: Entry): nat {
    Points(FoundIn(lex, q, e, Title), 10) + Points(IsTitleWord(lex, q, e), 5) + Points(FoundIn(lex, q, e, Description), 3)
    + Points(FoundIn(lex, q, e, Section), 2) + Points(FoundIn(lex, q, e, Url), 4)
  }

  lemma SingleRow(m: FieldMatch, weight: nat)
    ensures RowScore([m], [weight], 1) == TermScore(m) * weight
    ensures MatchedTerms([m], 1) == if m.Any() then 1 else 0
  {
    assert RowScore([m], [weight], 0) == 0;
    assert MatchedTerms([m], 0) == 0;
  }

  lemma SingleDecides(lex: Lexer, index: Index, q: QueryTerm, i: nat)
    requires i < |index.entries|
    ensures
      var m, weight := MatchOf(q, TokensAt(lex, index, i)), WeightOf(lex, index, q);
      CandidateAt(lex, index, [q], false, i)
      == if TermScore(m) * weight > 0 then Some(Scored(index.entries[i], TermScore(m) * weight)) else None
  {
    var m := MatchOf(q, TokensAt(lex, index, i));
    assert Row([q], TokensAt(lex, index, i)) == [m];
    assert Weights(lex, index, [q]) == [WeightOf(lex, index, q)];
    SingleRow(m, WeightOf(lex, index, q));
  }

  /** A term counts by the fields it is found in, and double if it is rare. */
  lemma OneTermScoreIs(lex: Lexer, index: Index, q: QueryTerm, i: nat)
    requires Consistent(lex, index) && i < |index.entries|
    ensures OneTermScore(lex, index, q, i)
            == (if IsRareTerm(lex, index, q) then 2 else 1) * FieldPoints(lex, q, index.entries[i])
    ensures CandidateAt(lex, index, [q], false, i).Some? <==> FoundAnywhere(lex, q, index.entries[i])
  {
    SingleDecides(lex, index, q, i);
    WeightIs(lex, index, q);
    MatchesByField(lex, q, index.entries[i]);
    assert TokensAt(lex, index, i) == TokenizeEntry(lex, index.entries[i]);
  }

  // ------------------------------------------------------------------
  // The score of several terms
  // ------------------------------------------------------------------

  function Sum(scores: seq<nat>, n: nat): nat
    requires n <= |scores|
  {
    if n == 0 then 0 else Sum(scores, n - 1) + scores[n - 1]
  }

  /** What each of the terms scores alone. */
  function ScoresAlone(lex: Lexer, index: Index, terms: seq<QueryTerm>, i: nat): (r: seq<nat>)
    requires i < |index.entries|
    ensures |r| == |terms| && forall t :: 0 <= t < |r| ==> r[t] == OneTermScore(lex, index, terms[t], i)
  {
    seq(|terms|, t requires 0 <= t < |terms| => OneTermScore(lex, index, terms[t], i))
  }

  function SumOfScores(lex: Lexer, index: Index, terms: seq<QueryTerm>, i: nat): nat
    requires i < |index.entries|
  {
    Sum(ScoresAlone(lex, index, terms, i), |terms|)
  }

  lemma {:induction false} RowScoreSums(row: seq<FieldMatch>, weights: seq<nat>, scores: seq<nat>, n: nat)
    requires n <= |row| == |weights| == |scores|
    requires forall t :: 0 <= t < |row| ==> scores[t] == TermScore(row[t]) * weights[t]
    ensures RowScore(row, weights, n) == Sum(scores, n)
  {
    if n > 0 { RowScoreSums(row, weights, scores, n - 1); }
  }

  lemma AloneAt(lex: Lexer, index: Index, terms: seq<QueryTerm>, i: nat, t: nat)
    requires i < |index.entries| && t < |terms|
    ensures ScoresAlone(lex, index, terms, i)[t]
            == TermScore(Row(terms, TokensAt(lex, index, i))[t]) * Weights(lex, index, terms)[t]
  {
    SingleDecides(lex, index, terms[t], i);
  }

  lemma RowScoreIsSum(lex: Lexer, index: Index, terms: seq<QueryTerm>, i: nat)
    requires i < |index.entries|
    ensures RowScore(Row(terms, TokensAt(lex, index, i)), Weights(lex, index, terms), |terms|) == SumOfScores(lex, index, terms, i)
  {
    forall t | 0 <= t < |terms|
      ensures ScoresAlone(lex, index, terms, i)[t]
              == TermScore(Row(terms, TokensAt(lex, index, i))[t]) * Weights(lex, index, terms)[t]
    {
      AloneAt(lex, index, terms, i, t);
    }
    RowScoreSums(Row(terms, TokensAt(lex, index, i)), Weights(lex, index, terms), ScoresAlone(lex, index, terms, i), |terms|);
  }

  lemma {:induction false} AllMatchedIff(row: seq<FieldMatch>, n: nat)
    requires n <= |row|
    ensures MatchedTerms(row, n) == n <==> forall t :: 0 <= t < n ==> row[t].Any()
  {
    if n > 0 { AllMatchedIff(row, n - 1); }
  }

  predicate AllFound(lex: Lexer, terms: seq<QueryTerm>, e: Entry) {
    forall t :: 0 <= t < |terms| ==> FoundAnywhere(lex, terms[t], e)
  }

  lemma AllFoundIff(lex: Lexer, index: Index, terms: seq<QueryTerm>, i: nat)
    requires Consistent(lex, index) && i < |index.entries|
    ensures MatchedTerms(Row(terms, TokensAt(lex, index, i)), |terms|) == |terms| <==> AllFound(lex, terms, index.entries[i])
  {
    var row := Row(terms, TokensAt(lex, index, i));
    AllMatchedIff(row, |terms|);
    forall t | 0 <= t < |terms|
      ensures row[t].Any() <==> FoundAnywhere(lex, terms[t], index.entries[i])
    {
      FoundIsAny(lex, index, terms[t], i);
    }
  }

  lemma {:induction false} SumIsPositive(scores: seq<nat>, n: nat)
    requires 0 < n <= |scores| && scores[n - 1] > 0
    ensures Sum(scores, n) > 0
  {
  }

  lemma AllSumIsPositive(lex: Lexer, index: Index, terms: seq<QueryTerm>, i: nat)
    requires Consistent(lex, index) && i < |index.entries| && terms != []
    ensures AllFound(lex, terms, index.entries[i]) ==> SumOfScores(lex, index, terms, i) > 0
  {
    if AllFound(lex, terms, index.entries[i]) {
      OneTermScoreIs(lex, index, terms[|terms| - 1], i);
      SumIsPositive(ScoresAlone(lex, index, terms, i), |terms|);
    }
  }

  /** What a candidate is, given the sum of the scores and whether all terms were found. */
  function Combined(e: Entry, sum: nat, all: bool, several: bool, requireAll: bool): Option<Scored> {
    if sum == 0 || (requireAll && !all) then None else Some(Scored(e, sum + (if several && all then 15 else 0)))
  }

  ghost predicate RowSums(row: seq<FieldMatch>, weights: seq<nat>, sum: nat, all: bool) {
    && |row| == |weights| && RowScore(row, weights, |row|) == sum
    && (MatchedTerms(row, |row|) == |row| <==> all) && (all && row != [] ==> sum > 0)
  }

  lemma DecideBySum(entry: Entry, row: seq<FieldMatch>, weights: seq<nat>, requireAll: bool, sum: nat, all: bool)
    requires |row| == |weights| && RowSums(row, weights, sum, all)
    ensures Decide(entry, row, weights, requireAll) == Combined(entry, sum, all, |row| > 1, requireAll)
  {
  }

  lemma RowOfTerms(lex: Lexer, index: Index, terms: seq<QueryTerm>, i: nat, row: seq<FieldMatch>, weights: seq<nat>)
    requires Consistent(lex, index) && i < |index.entries| && terms != []
    requires row == Row(terms, TokensAt(lex, index, i)) && weights == Weights(lex, index, terms)
    ensures RowSums(row, weights, SumOfScores(lex, index, terms, i), AllFound(lex, terms, index.entries[i]))
  {
    RowScoreIsSum(lex, index, terms, i);
    AllFoundIff(lex, index, terms, i);
    AllSumIsPositive(lex, index, terms, i);
  }

  /** Several terms score the sum of what each does alone, and 15 more if all of them are found;
      an entry that none is found in is no result, nor, if all are required, one that lacks any. */
  lemma ScoreIsSum(lex: Lexer, index: Index, terms: seq<QueryTerm>, requireAll: bool, i: nat)
    requires Consistent(lex, index) && i < |index.entries| && terms != []
    ensures
      CandidateAt(lex, index, terms, requireAll, i)
      == Combined(index.entries[i], SumOfScores(lex, index, terms, i), AllFound(lex, terms, index.entries[i]), |terms| > 1, requireAll)
  {
    var row, weights := Row(terms, TokensAt(lex, index, i)), Weights(lex, index, terms);
    RowOfTerms(lex, index, terms, i, row, weights);
    DecideBySum(index.entries[i], row, weights, requireAll, SumOfScores(lex, index, terms, i), AllFound(lex, terms, index.entries[i]));
  }

  // ------------------------------------------------------------------
  // The order of results
  // ------------------------------------------------------------------

  function FieldCount(lex: Lexer, q: QueryTerm, e: Entry): nat {
    Points(FoundIn(lex, q, e, Description), 1) + Points(FoundIn(lex, q, e, Section), 1) + Points(FoundIn(lex, q, e, Url), 1)
  }

  /** Apart from the title, more fields beat fewer; of as many, the URL's path counts most,
      and then the description. */
  predicate FieldsBeat(lex: Lexer, q: QueryTerm, a: Entry, b: Entry) {
    var urlA, urlB := FoundIn(lex, q, a, Url), FoundIn(lex, q, b, Url);
    var count, other := FieldCount(lex, q, a), FieldCount(lex, q, b);
    || count > other
    || (count == other && ((urlA && !urlB)
                           || (urlA == urlB && FoundIn(lex, q, a, Description) && !FoundIn(lex, q, b, Description))))
  }

  predicate SameFields(lex: Lexer, q: QueryTerm, a: Entry, b: Entry) {
    && FoundIn(lex, q, a, Description) == FoundIn(lex, q, b, Description)
    && FoundIn(lex, q, a, Section) == FoundIn(lex, q, b, Section)
    && FoundIn(lex, q, a, Url) == FoundIn(lex, q, b, Url)
  }

  /** Which of two entries is the better result for one term: the one with it in the title; of two
      that have it there, or not, the one whose other fields beat the other's; and with the
      same fields the one that has the very word in its title. */
  predicate Better(lex: Lexer, q: QueryTerm, a: Entry, b: Entry) {
    var titleA, titleB := FoundIn(lex, q, a, Title), FoundIn(lex, q, b, Title);
    var wordA, wordB := IsTitleWord(lex, q, a), IsTitleWord(lex, q, b);
    || (titleA && !titleB)
    || (titleA == titleB && wordA == wordB && FieldsBeat(lex, q, a, b))
    || (titleA && titleB && wordA && !wordB && (SameFields(lex, q, a, b) || FieldsBeat(lex, q, a, b)))
  }

  lemma BetterHasMorePoints(lex: Lexer, q: QueryTerm, a: Entry, b: Entry)
    requires Better(lex, q, a, b)
    ensures FieldPoints(lex, q, a) > FieldPoints(lex, q, b)
  {
    MatchesByField(lex, q, a);
    MatchesByField(lex, q, b);
  }

  lemma {:induction false} GatherMember(c: seq<Option<Scored>>, n: nat, x: Scored) returns (i: nat)
    requires n <= |c| && x in Gather(c, n)
    ensures i < n && c[i] == Some(x)
  {
    if x in Gather(c, n - 1) { i := GatherMember(c, n - 1, x); } else { i := n - 1; }
  }

  lemma {:induction false} EntriesAt(s: seq<Scored>, i: nat)
    requires i < |s|
    ensures EntriesOf(s)[i] == s[i].entry
  {
  }

  /** What is at a place of the results of one term. */
  lemma ResultAt(lex: Lexer, index: Index, q: QueryTerm, i: nat) returns (x: Scored)
    requires Consistent(lex, index) && i < |Search(lex, index, [q], false)|
    ensures i < |Ranked(Results(lex, index, [q], false))| && x == Ranked(Results(lex, index, [q], false))[i]
    ensures Search(lex, index, [q], false)[i] == x.entry
    ensures x.score == (if IsRareTerm(lex, index, q) then 2 else 1) * FieldPoints(lex, q, x.entry)
  {
    var results := Results(lex, index, [q], false);
    RankedIsSorted(results);
    x := Ranked(results)[i];
    assert x in multiset(results);
    var c := Candidates(lex, index, [q], false);
    var k := GatherMember(c, |index.entries|, x);
    OneTermScoreIs(lex, index, q, k);
    assert c[k] == CandidateAt(lex, index, [q], false, k);
  }

  /** No result of a search for one term comes before a better one, and results that are found in
      the same way come in the order of their URLs. */
  lemma ResultsAreInOrder(lex: Lexer, index: Index, q: QueryTerm, i: nat, j: nat)
    requires Consistent(lex, index) && i < j < |Search(lex, index, [q], false)|
    ensures
      var a, b := Search(lex, index, [q], false)[i], Search(lex, index, [q], false)[j];
      && !Better(lex, q, b, a)
      && (FieldPoints(lex, q, a) == FieldPoints(lex, q, b) ==> !StringLess(b.url, a.url))
  {
    var x := ResultAt(lex, index, q, i);
    var y := ResultAt(lex, index, q, j);
    RankedIsSorted(Results(lex, index, [q], false));
    assert !Before(y, x);
    if Better(lex, q, y.entry, x.entry) { BetterHasMorePoints(lex, q, y.entry, x.entry); }
  }
}
