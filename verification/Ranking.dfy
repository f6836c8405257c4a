/**
 Matching query terms against an index and ranking its entries, from
 pkg/registry/docs/docs_client.go.
 */
module Ranking {
  import opened DocsIndex
  import opened Sequences

  const ALL_TERMS_BOOST: nat := 15
  const RARE_TERM_WEIGHT: nat := 2

  datatype FieldMatch = FieldMatch(title: bool, titleWord: bool, description: bool, section: bool, url: bool) {
    predicate Any() {
      title || description || section || url
    }
  }

  // ------------------------------------------------------------------
  // Matching
  // ------------------------------------------------------------------

  function MatchOf(q: QueryTerm, tokens: Tokens): FieldMatch {
    FieldMatch(MatchesTokens(q, tokens.title), MatchesExactly(q, tokens.title),
               MatchesTokens(q, tokens.description), MatchesTokens(q, tokens.section), MatchesTokens(q, tokens.url))
  }

  function Row(terms: seq<QueryTerm>, tokens: Tokens): (r: seq<FieldMatch>)
    ensures |r| == |terms|
    ensures forall t :: 0 <= t < |r| ==> r[t] == MatchOf(terms[t], tokens)
  {
    seq(|terms|, t requires 0 <= t < |terms| => MatchOf(terms[t], tokens))
  }

  /** How many of the first n entries a term matches. */
  function DocFreq(lex: Lexer, index: Index, q: QueryTerm, n: nat): (r: nat)
    requires n <= |index.entries|
    ensures r <= n
  {
    if n == 0 then 0
    else DocFreq(lex, index, q, n - 1) + (if MatchOf(q, TokensAt(lex, index, n - 1)).Any() then 1 else 0)
  }

  /** At most one entry in two hundred. */
  predicate IsRare(docFreq: nat, entries: nat) {
    0 < docFreq <= entries * 5 / 1000
  }

  function WeightOf(lex: Lexer, index: Index, q: QueryTerm): (w: nat)
    ensures w > 0
  {
    if IsRare(DocFreq(lex, index, q, |index.entries|), |index.entries|) then RARE_TERM_WEIGHT else 1
  }

  /** Where row i of a table of rows of a given width begins. */
  function RowStart(i: nat, width: nat): nat {
    if i == 0 then 0 else RowStart(i - 1, width) + width
  }

  lemma {:induction false} RowStartIsProduct(i: nat, width: nat)
    ensures RowStart(i, width) == i * width
  {
    if i > 0 { RowStartIsProduct(i - 1, width); }
  }

  lemma {:induction false} RowsApart(i: nat, j: nat, width: nat)
    requires i < j
    ensures RowStart(i, width) + width <= RowStart(j, width)
  {
    if i < j - 1 { RowsApart(i, j - 1, width); }
  }

  /** The cells of the rows before i, and in row i those before t, have been filled. */
  ghost predicate Filled(lex: Lexer, index: Index, terms: seq<QueryTerm>, table: seq<FieldMatch>, i: nat, t: nat) {
    forall j, u :: 0 <= j < |index.entries| && 0 <= u < |terms| && (j < i || (j == i && u < t)) ==>
      CellIs(lex, index, terms, table, j, u)
  }

  ghost predicate CellIs(lex: Lexer, index: Index, terms: seq<QueryTerm>, table: seq<FieldMatch>, j: nat, u: nat)
    requires j < |index.entries| && u < |terms|
  {
    RowStart(j, |terms|) + u < |table| && table[RowStart(j, |terms|) + u] == MatchOf(terms[u], TokensAt(lex, index, j))
  }

  lemma FillCell(lex: Lexer, index: Index, terms: seq<QueryTerm>, table: seq<FieldMatch>, i: nat, t: nat)
    requires |table| == RowStart(|index.entries|, |terms|) && i < |index.entries| && t < |terms|
    requires Filled(lex, index, terms, table, i, t)
    ensures RowStart(i, |terms|) + t < |table|
    ensures Filled(lex, index, terms, table[RowStart(i, |terms|) + t := MatchOf(terms[t], TokensAt(lex, index, i))], i, t + 1)
  {
    RowsApart(i, |index.entries|, |terms|);
    var next := table[RowStart(i, |terms|) + t := MatchOf(terms[t], TokensAt(lex, index, i))];
    forall j, u | 0 <= j < |index.entries| && 0 <= u < |terms| && (j < i || (j == i && u < t + 1))
      ensures CellIs(lex, index, terms, next, j, u)
    {
      if j != i || u != t {
        assert CellIs(lex, index, terms, table, j, u);
        if j < i { RowsApart(j, i, |terms|); }
      }
    }
  }

  /** Row i of the filled table is the entry's row. */
  lemma RowOfTable(lex: Lexer, index: Index, terms: seq<QueryTerm>, table: seq<FieldMatch>, i: nat)
    requires |table| == RowStart(|index.entries|, |terms|) && i < |index.entries|
    requires Filled(lex, index, terms, table, |index.entries|, 0)
    ensures RowStart(i, |terms|) + |terms| <= |table|
    ensures table[RowStart(i, |terms|)..RowStart(i, |terms|) + |terms|] == Row(terms, TokensAt(lex, index, i))
  {
    RowsApart(i, |index.entries|, |terms|);
    var row := table[RowStart(i, |terms|)..RowStart(i, |terms|) + |terms|];
    forall t | 0 <= t < |terms| ensures row[t] == MatchOf(terms[t], TokensAt(lex, index, i)) {
      assert CellIs(lex, index, terms, table, i, t);
    }
  }

  /** docFreq[u] is up to date with row i for the terms before t, and with the rows
      before it for the others. */
  ghost predicate Counted(lex: Lexer, index: Index, terms: seq<QueryTerm>, docFreq: seq<nat>, i: nat, t: nat)
    requires t <= |terms| && (i < |index.entries| || (i == |index.entries| && t == 0))
  {
    && |docFreq| == |terms|
    && (forall u :: 0 <= u < t ==> docFreq[u] == DocFreq(lex, index, terms[u], i + 1))
    && (forall u :: t <= u < |terms| ==> docFreq[u] == DocFreq(lex, index, terms[u], i))
  }

  method FillRow(lex: Lexer, index: Index, terms: seq<QueryTerm>, i: nat, backing: array<FieldMatch>, counts: seq<nat>)
    returns (docFreq: seq<nat>)
    requires i < |index.entries| && backing.Length == RowStart(|index.entries|, |terms|)
    requires Filled(lex, index, terms, backing[..], i, 0) && Counted(lex, index, terms, counts, i, 0)
    modifies backing
    ensures Filled(lex, index, terms, backing[..], i + 1, 0)
    ensures Counted(lex, index, terms, docFreq, i + 1, 0)
  {
    docFreq := counts;
    var tokens := TokensAt(lex, index, i);
    for t := 0 to |terms|
      invariant Counted(lex, index, terms, docFreq, i, t)
      invariant Filled(lex, index, terms, backing[..], i, t)
    {
      FillCell(lex, index, terms, backing[..], i, t);
      var m := MatchOf(terms[t], tokens);
      ghost var filled := backing[..][RowStart(i, |terms|) + t := m];
      backing[RowStart(i, |terms|) + t] := m;
      assert backing[..] == filled;
      if m.Any() {
        docFreq := docFreq[t := docFreq[t] + 1];
      }
    }
  }

  /** Every term is matched against every entry once, into one table whose rows are
      handed out. */
  method MatchTerms(lex: Lexer, index: Index, terms: seq<QueryTerm>) returns (matches: seq<seq<FieldMatch>>, weights: seq<nat>)
    ensures |matches| == |index.entries| && |weights| == |terms|
    ensures forall i :: 0 <= i < |matches| ==> matches[i] == Row(terms, TokensAt(lex, index, i))
    ensures forall t :: 0 <= t < |terms| ==> weights[t] == WeightOf(lex, index, terms[t])
  {
    var n, k := |index.entries|, |terms|;
    var backing := new FieldMatch[RowStart(n, k)](_ => FieldMatch(false, false, false, false, false));
    var docFreq: seq<nat> := seq(k, _ => 0);
    for i := 0 to n
      invariant Counted(lex, index, terms, docFreq, i, 0)
      invariant Filled(lex, index, terms, backing[..], i, 0)
    {
      docFreq := FillRow(lex, index, terms, i, backing, docFreq);
    }
    matches := HandOut(lex, index, terms, backing);
    var rareLimit := n * 5 / 1000;
    weights := [];
    for t := 0 to k
      invariant |weights| == t
      invariant forall u :: 0 <= u < t ==> weights[u] == WeightOf(lex, index, terms[u])
    {
      weights := weights + [if 0 < docFreq[t] && docFreq[t] <= rareLimit then RARE_TERM_WEIGHT else 1];
    }
  }

  method HandOut(lex: Lexer, index: Index, terms: seq<QueryTerm>, backing: array<FieldMatch>) returns (matches: seq<seq<FieldMatch>>)
    requires backing.Length == RowStart(|index.entries|, |terms|)
    requires Filled(lex, index, terms, backing[..], |index.entries|, 0)
    ensures |matches| == |index.entries|
    ensures forall i :: 0 <= i < |matches| ==> matches[i] == Row(terms, TokensAt(lex, index, i))
  {
    matches := [];
    for i := 0 to |index.entries|
      invariant |matches| == i
      invariant forall j :: 0 <= j < i ==> matches[j] == Row(terms, TokensAt(lex, index, j))
    {
      RowOfTable(lex, index, terms, backing[..], i);
      var row := backing[..][RowStart(i, |terms|)..RowStart(i, |terms|) + |terms|];
      matches := matches + [row];
    }
  }

  // ------------------------------------------------------------------
  // Scoring
  // ------------------------------------------------------------------

  function TermScore(m: FieldMatch): nat {
    (if m.title then 10 else 0) + (if m.titleWord then 5 else 0) + (if m.description then 3 else 0)
    + (if m.section then 2 else 0) + (if m.url then 4 else 0)
  }

  /** The weighted score of the first n terms of a row. */
  function RowScore(row: seq<FieldMatch>, weights: seq<nat>, n: nat): nat
    requires n <= |row| == |weights|
  {
    if n == 0 then 0 else RowScore(row, weights, n - 1) + TermScore(row[n - 1]) * weights[n - 1]
  }

  function MatchedTerms(row: seq<FieldMatch>, n: nat): (r: nat)
    requires n <= |row|
    ensures r <= n
  {
    if n == 0 then 0 else MatchedTerms(row, n - 1) + (if row[n - 1].Any() then 1 else 0)
  }

  function Score(row: seq<FieldMatch>, weights: seq<nat>): nat
    requires |row| == |weights|
  {
    RowScore(row, weights, |row|) + (if |row| > 1 && MatchedTerms(row, |row|) == |row| then ALL_TERMS_BOOST else 0)
  }

  datatype Scored = Scored(entry: Entry, score: nat)

  function Weights(lex: Lexer, index: Index, terms: seq<QueryTerm>): (r: seq<nat>)
    ensures |r| == |terms|
    ensures forall t :: 0 <= t < |r| ==> r[t] == WeightOf(lex, index, terms[t])
  {
    seq(|terms|, t requires 0 <= t < |terms| => WeightOf(lex, index, terms[t]))
  }

  /** Whether an entry with such a row is a result, and with what score. */
  function Decide(entry: Entry, row: seq<FieldMatch>, weights: seq<nat>, requireAll: bool): Option<Scored>
    requires |row| == |weights|
  {
    var matched := MatchedTerms(row, |row|);
    var score := Score(row, weights);
    if score > 0 && (requireAll ==> matched == |row|) then Some(Scored(entry, score)) else None
  }

  function CandidateAt(lex: Lexer, index: Index, terms: seq<QueryTerm>, requireAll: bool, i: nat): Option<Scored>
    requires i < |index.entries|
  {
    Decide(index.entries[i], Row(terms, TokensAt(lex, index, i)), Weights(lex, index, terms), requireAll)
  }

  function Candidates(lex: Lexer, index: Index, terms: seq<QueryTerm>, requireAll: bool): (r: seq<Option<Scored>>)
    ensures |r| == |index.entries|
    ensures forall i :: 0 <= i < |r| ==> r[i] == CandidateAt(lex, index, terms, requireAll, i)
  {
    seq(|index.entries|, i requires 0 <= i < |index.entries| => CandidateAt(lex, index, terms, requireAll, i))
  }

  /** The results among the first n candidates. */
  function Gather(c: seq<Option<Scored>>, n: nat): seq<Scored>
    requires n <= |c|
  {
    if n == 0 then [] else Gather(c, n - 1) + (if c[n - 1].Some? then [c[n - 1].value] else [])
  }

  /** The results before they are ranked. */
  function Results(lex: Lexer, index: Index, terms: seq<QueryTerm>, requireAll: bool): seq<Scored> {
    Gather(Candidates(lex, index, terms, requireAll), |index.entries|)
  }

  // ------------------------------------------------------------------
  // Ranking: a stable sort
  // ------------------------------------------------------------------

  /** The order of strings by their characters. */
  predicate StringLess(a: string, b: string) {
    b != [] && (a == [] || a[0] < b[0] || (a[0] == b[0] && StringLess(a[1..], b[1..])))
  }

  /** Whether a is to be ranked before b. */
  predicate Before(a: Scored, b: Scored) {
    if a.score != b.score then a.score > b.score else StringLess(a.entry.url, b.entry.url)
  }

  /** Into a ranked sequence, after everything that x is not to be ranked before. */
  function Insert(ranked: seq<Scored>, x: Scored): seq<Scored> {
    if ranked == [] || Before(x, ranked[0]) then [x] + ranked else [ranked[0]] + Insert(ranked[1..], x)
  }

  /** The stable sort of a sequence. */
  function Ranked(s: seq<Scored>): seq<Scored> {
    if s == [] then [] else Insert(Ranked(s[..|s| - 1]), s[|s| - 1])
  }

  function EntriesOf(s: seq<Scored>): (r: seq<Entry>)
    ensures |r| == |s|
    ensures forall i :: 0 <= i < |r| ==> r[i] == s[i].entry
  {
    seq(|s|, i requires 0 <= i < |s| => s[i].entry)
  }

  function Search(lex: Lexer, index: Index, terms: seq<QueryTerm>, requireAll: bool): seq<Entry> {
    if terms == [] then [] else EntriesOf(Ranked(Results(lex, index, terms, requireAll)))
  }

  method ScoreRow(row: seq<FieldMatch>, weights: seq<nat>) returns (score: nat, matchedTerms: nat)
    requires |row| == |weights|
    ensures score == RowScore(row, weights, |row|) && matchedTerms == MatchedTerms(row, |row|)
  {
    score, matchedTerms := 0, 0;
    for t := 0 to |row|
      invariant score == RowScore(row, weights, t) && matchedTerms == MatchedTerms(row, t)
    {
      var m := row[t];
      var termScore := 0;
      if m.title { termScore := termScore + 10; }
      if m.titleWord { termScore := termScore + 5; }
      if m.description { termScore := termScore + 3; }
      if m.section { termScore := termScore + 2; }
      if m.url { termScore := termScore + 4; }
      score := score + termScore * weights[t];
      if m.Any() { matchedTerms := matchedTerms + 1; }
    }
  }

  method ScoreEntry(entry: Entry, row: seq<FieldMatch>, weights: seq<nat>, requireAll: bool) returns (r: Option<Scored>)
    requires |row| == |weights|
    ensures r == Decide(entry, row, weights, requireAll)
  {
    var score, matchedTerms := ScoreRow(row, weights);
    if requireAll && matchedTerms < |row| {
      return None;
    }
    if |row| > 1 && matchedTerms == |row| {
      score := score + ALL_TERMS_BOOST;
    }
    r := if score > 0 then Some(Scored(entry, score)) else None;
  }

  lemma RowDecides(lex: Lexer, index: Index, terms: seq<QueryTerm>, requireAll: bool, i: nat,
                   row: seq<FieldMatch>, weights: seq<nat>)
    requires i < |index.entries| && row == Row(terms, TokensAt(lex, index, i)) && weights == Weights(lex, index, terms)
    ensures |row| == |weights|
    ensures Candidates(lex, index, terms, requireAll)[i] == Decide(index.entries[i], row, weights, requireAll)
  {
  }

  method CandidateFor(lex: Lexer, index: Index, terms: seq<QueryTerm>, requireAll: bool, i: nat,
                      row: seq<FieldMatch>, weights: seq<nat>)
    returns (r: Option<Scored>)
    requires i < |index.entries| && row == Row(terms, TokensAt(lex, index, i)) && weights == Weights(lex, index, terms)
    ensures r == Candidates(lex, index, terms, requireAll)[i]
  {
    RowDecides(lex, index, terms, requireAll, i, row, weights);
    r := ScoreEntry(index.entries[i], row, weights, requireAll);
  }

  method SearchIndex(lex: Lexer, index: Index, terms: seq<QueryTerm>, requireAll: bool) returns (entries: seq<Entry>)
    ensures entries == Search(lex, index, terms, requireAll)
  {
    if |terms| == 0 {
      return [];
    }
    var matches, weights := MatchTerms(lex, index, terms);
    assert weights == Weights(lex, index, terms);
    ghost var candidates := Candidates(lex, index, terms, requireAll);
    var results: seq<Scored> := [];
    for i := 0 to |index.entries|
      invariant results == Gather(candidates, i)
    {
      var candidate := CandidateFor(lex, index, terms, requireAll, i, matches[i], weights);
      if candidate.Some? {
        results := results + [candidate.value];
      }
    }
    return EntriesOf(Ranked(results));
  }

  // ------------------------------------------------------------------
  // The ranked order
  // ------------------------------------------------------------------

  ghost predicate InRankOrder(s: seq<Scored>) {
    forall i, j :: 0 <= i < j < |s| ==> !Before(s[j], s[i])
  }

  lemma {:induction false} StringLessTransitive(a: string, b: string, c: string)
    ensures StringLess(a, b) && !StringLess(c, b) ==> StringLess(a, c)
    ensures !StringLess(b, a) && !StringLess(c, b) ==> !StringLess(c, a)
  {
    if a != [] && b != [] && c != [] {
      StringLessTransitive(a[1..], b[1..], c[1..]);
    }
  }

  lemma {:induction false} StringLessAntisymmetric(a: string, b: string)
    ensures !(StringLess(a, b) && StringLess(b, a))
    ensures StringLess(a, b) || StringLess(b, a) || a == b
  {
    if a != [] && b != [] {
      StringLessAntisymmetric(a[1..], b[1..]);
    }
  }

  lemma BeforeTransitive(a: Scored, b: Scored, c: Scored)
    ensures Before(a, b) && !Before(c, b) ==> Before(a, c)
    ensures !Before(b, a) && !Before(c, b) ==> !Before(c, a)
    ensures Before(a, b) ==> !Before(b, a)
  {
    StringLessTransitive(a.entry.url, b.entry.url, c.entry.url);
    StringLessAntisymmetric(a.entry.url, b.entry.url);
  }

  lemma {:induction false} InsertRanks(s: seq<Scored>, x: Scored)
    requires InRankOrder(s)
    ensures InRankOrder(Insert(s, x)) && multiset(Insert(s, x)) == multiset(s) + multiset{x}
  {
    if s == [] {
    } else if Before(x, s[0]) {
      forall j | 0 <= j < |s| ensures !Before(s[j], x) {
        BeforeTransitive(x, s[0], s[j]);
        BeforeTransitive(x, s[j], x);
      }
    } else {
      InsertRanks(s[1..], x);
      var rest := Insert(s[1..], x);
      assert s == [s[0]] + s[1..];
      forall j | 0 <= j < |rest| ensures !Before(rest[j], s[0]) {
        assert rest[j] in multiset(rest);
        assert rest[j] in multiset(s[1..]) + multiset{x};
        assert rest[j] in s[1..] || rest[j] == x;
      }
    }
  }

  /** Ranking puts the higher scores first, and equal scores by URL; it loses nothing
      and adds nothing. */
  lemma {:induction false} RankedIsSorted(s: seq<Scored>)
    ensures InRankOrder(Ranked(s)) && multiset(Ranked(s)) == multiset(s)
  {
    if s != [] {
      var front := s[..|s| - 1];
      RankedIsSorted(front);
      InsertRanks(Ranked(front), s[|s| - 1]);
      assert s == front + [s[|s| - 1]];
    }
  }

  /** Neither is to be ranked before the other. */
  predicate SameRank(a: Scored, b: Scored) {
    !Before(a, b) && !Before(b, a)
  }

  /** The results of x's rank, in order. */
  function OfRank(s: seq<Scored>, x: Scored): seq<Scored> {
    if s == [] then [] else (if SameRank(s[0], x) then [s[0]] else []) + OfRank(s[1..], x)
  }

  /** r has the results of s, and those of one rank in the order in which s has them. */
  ghost predicate IsStable(r: seq<Scored>, s: seq<Scored>) {
    forall x :: OfRank(r, x) == OfRank(s, x)
  }

  lemma {:induction false} OfRankConcat(a: seq<Scored>, b: seq<Scored>, x: Scored)
    ensures OfRank(a + b, x) == OfRank(a, x) + OfRank(b, x)
  {
    if a == [] {
      assert a + b == b;
    } else {
      assert (a + b)[1..] == a[1..] + b;
      OfRankConcat(a[1..], b, x);
    }
  }

  lemma {:induction false} OfRankMember(s: seq<Scored>, x: Scored, y: Scored)
    ensures y in OfRank(s, x) <==> y in s && SameRank(y, x)
  {
    if s != [] { OfRankMember(s[1..], x, y); }
  }

  /** A result goes behind all others of its rank. */
  lemma {:induction false} InsertIsStable(s: seq<Scored>, y: Scored, x: Scored)
    requires InRankOrder(s)
    ensures OfRank(Insert(s, y), x) == OfRank(s, x) + OfRank([y], x)
  {
    if s == [] {
    } else if Before(y, s[0]) {
      if SameRank(y, x) {
        NoneOfRank(s, y, x);
      }
      assert ([y] + s)[1..] == s;
    } else {
      InsertIsStable(s[1..], y, x);
      assert ([s[0]] + Insert(s[1..], y))[1..] == Insert(s[1..], y);
    }
  }

  lemma NoneOfRank(s: seq<Scored>, y: Scored, x: Scored)
    requires InRankOrder(s) && s != [] && Before(y, s[0]) && SameRank(y, x)
    ensures OfRank(s, x) == []
  {
    if OfRank(s, x) != [] {
      var z := OfRank(s, x)[0];
      OfRankMember(s, x, z);
      var i :| 0 <= i < |s| && s[i] == z;
      BeforeTransitive(y, s[0], z);
      SameRankAlike(z, x, y);
    }
  }

  lemma SameRankAlike(a: Scored, b: Scored, c: Scored)
    ensures SameRank(a, b) && SameRank(c, b) ==> SameRank(a, c)
  {
    BeforeTransitive(a, b, c);
    BeforeTransitive(c, b, a);
  }

  lemma {:induction false} RankedIsStable(s: seq<Scored>)
    ensures IsStable(Ranked(s), s)
  {
    if s != [] {
      var front, last := s[..|s| - 1], s[|s| - 1];
      RankedIsStable(front);
      RankedIsSorted(front);
      assert s == front + [last];
      forall x ensures OfRank(Ranked(s), x) == OfRank(s, x) {
        InsertIsStable(Ranked(front), last, x);
        OfRankConcat(front, [last], x);
      }
    }
  }

  /** The first results of two ranked sequences with the same results of each rank. */
  lemma FirstsAgree(r: seq<Scored>, s: seq<Scored>)
    requires InRankOrder(r) && InRankOrder(s) && IsStable(r, s) && r != []
    ensures s != [] && r[0] == s[0]
  {
    var x := r[0];
    assert SameRank(x, x) by { BeforeTransitive(x, x, x); }
    assert OfRank(r, x)[0] == x && OfRank(s, x) == OfRank(r, x);
    OfRankMember(s, x, x);
    var i :| 0 <= i < |s| && s[i] == x;
    var y := s[0];
    assert SameRank(y, y) by { BeforeTransitive(y, y, y); }
    assert OfRank(s, y)[0] == y && OfRank(r, y) == OfRank(s, y);
    OfRankMember(r, y, y);
    var j :| 0 <= j < |r| && r[j] == y;
    assert i > 0 ==> !Before(x, y);
    assert j > 0 ==> !Before(y, x);
    assert SameRank(y, x);
  }

  lemma StableTails(r: seq<Scored>, s: seq<Scored>)
    requires r != [] && s != [] && r[0] == s[0] && IsStable(r, s)
    ensures IsStable(r[1..], s[1..])
  {
    forall x ensures OfRank(r[1..], x) == OfRank(s[1..], x) {
      assert OfRank(r, x) == OfRank(s, x);
      var head := if SameRank(r[0], x) then [r[0]] else [];
      assert OfRank(r[1..], x) == OfRank(r, x)[|head|..];
      assert OfRank(s[1..], x) == OfRank(s, x)[|head|..];
    }
  }

  lemma {:induction false} RankedIsUnique(r: seq<Scored>, s: seq<Scored>)
    requires InRankOrder(r) && InRankOrder(s) && IsStable(r, s)
    ensures r == s
    decreases |r|
  {
    if r != [] {
      FirstsAgree(r, s);
      StableTails(r, s);
      RankedIsUnique(r[1..], s[1..]);
      assert r == [r[0]] + r[1..] && s == [s[0]] + s[1..];
    } else if s != [] {
      assert IsStable(s, r);
      FirstsAgree(s, r);
    }
  }

  /** Every stable sort by rank gives this result, whatever its method. */
  lemma StableSortIsRanked(r: seq<Scored>, s: seq<Scored>)
    ensures InRankOrder(r) && IsStable(r, s) <==> r == Ranked(s)
  {
    RankedIsSorted(s);
    RankedIsStable(s);
    if InRankOrder(r) && IsStable(r, s) {
      forall x ensures OfRank(r, x) == OfRank(Ranked(s), x) {
        assert OfRank(r, x) == OfRank(s, x) == OfRank(Ranked(s), x);
      }
      RankedIsUnique(r, Ranked(s));
    }
  }

  // ------------------------------------------------------------------
  // Restricting commutes with ranking
  // ------------------------------------------------------------------

  /** The results whose entries satisfy a predicate. */
  function Keep(p: Entry -> bool, s: seq<Scored>): seq<Scored> {
    if s == [] then []
    else if p(s[0].entry) then [s[0]] + Keep(p, s[1..])
    else Keep(p, s[1..])
  }

  function KeepEntries(p: Entry -> bool, s: seq<Entry>): seq<Entry> {
    if s == [] then []
    else if p(s[0]) then [s[0]] + KeepEntries(p, s[1..])
    else KeepEntries(p, s[1..])
  }

  lemma {:induction false} KeepAppend(p: Entry -> bool, s: seq<Scored>, x: Scored)
    ensures Keep(p, s + [x]) == if p(x.entry) then Keep(p, s) + [x] else Keep(p, s)
  {
    if s != [] {
      assert (s + [x])[1..] == s[1..] + [x];
      KeepAppend(p, s[1..], x);
    }
  }

  lemma {:induction false} KeptIsIn(p: Entry -> bool, s: seq<Scored>, x: Scored)
    requires x in Keep(p, s)
    ensures x in s
  {
    if x in Keep(p, s[1..]) { KeptIsIn(p, s[1..], x); }
  }

  lemma KeepPrepend(p: Entry -> bool, x: Scored, s: seq<Scored>)
    ensures Keep(p, [x] + s) == if p(x.entry) then [x] + Keep(p, s) else Keep(p, s)
  {
    assert ([x] + s)[1..] == s;
  }

  lemma InsertPrepend(y: Scored, s: seq<Scored>, x: Scored)
    ensures Insert([y] + s, x) == if Before(x, y) then [x] + ([y] + s) else [y] + Insert(s, x)
  {
    assert ([y] + s)[1..] == s;
  }

  /** What is to be ranked before the head of a ranked sequence is so before any of it. */
  lemma InsertAtHead(p: Entry -> bool, s: seq<Scored>, x: Scored)
    requires InRankOrder(s) && s != [] && Before(x, s[0])
    ensures Insert(Keep(p, s), x) == [x] + Keep(p, s)
  {
    var kept := Keep(p, s);
    if kept != [] {
      KeptIsIn(p, s, kept[0]);
      var j :| 0 <= j < |s| && s[j] == kept[0];
      BeforeTransitive(x, s[0], s[j]);
    }
  }

  /** Inserting and restricting can be done in either order. */
  lemma {:induction false} InsertCommutes(p: Entry -> bool, s: seq<Scored>, x: Scored)
    requires InRankOrder(s)
    ensures Keep(p, Insert(s, x)) == if p(x.entry) then Insert(Keep(p, s), x) else Keep(p, s)
  {
    if s == [] {
      KeepPrepend(p, x, []);
    } else if Before(x, s[0]) {
      KeepPrepend(p, x, s);
      InsertAtHead(p, s, x);
    } else {
      InsertCommutes(p, s[1..], x);
      KeepPrepend(p, s[0], Insert(s[1..], x));
      InsertPrepend(s[0], Keep(p, s[1..]), x);
    }
  }

  lemma RankedAppend(s: seq<Scored>, x: Scored)
    ensures Ranked(s + [x]) == Insert(Ranked(s), x)
  {
    assert (s + [x])[..|s|] == s;
  }

  lemma {:induction false} RankedCommutes(p: Entry -> bool, s: seq<Scored>)
    ensures Keep(p, Ranked(s)) == Ranked(Keep(p, s))
  {
    if s != [] {
      var front, last := s[..|s| - 1], s[|s| - 1];
      assert s == front + [last];
      RankedCommutes(p, front);
      RankedIsSorted(front);
      InsertCommutes(p, Ranked(front), last);
      KeepAppend(p, front, last);
      RankedAppend(Keep(p, front), last);
    }
  }

  /** Whether an entry, by its own text, matches every term. */
  predicate MatchesEvery(lex: Lexer, terms: seq<QueryTerm>, e: Entry) {
    MatchedTerms(Row(terms, TokenizeEntry(lex, e)), |terms|) == |terms|
  }

  function Every(lex: Lexer, terms: seq<QueryTerm>): Entry -> bool {
    (e: Entry) => MatchesEvery(lex, terms, e)
  }

  /** The candidates that satisfy p. */
  ghost predicate Narrowed(p: Entry -> bool, all: seq<Option<Scored>>, some: seq<Option<Scored>>) {
    && |some| == |all|
    && forall i :: 0 <= i < |all| ==> some[i] == if all[i].Some? && p(all[i].value.entry) then all[i] else None
  }

  lemma {:induction false} GatherNarrowed(p: Entry -> bool, all: seq<Option<Scored>>, some: seq<Option<Scored>>, n: nat)
    requires Narrowed(p, all, some) && n <= |all|
    ensures Gather(some, n) == Keep(p, Gather(all, n))
  {
    if n > 0 {
      GatherNarrowed(p, all, some, n - 1);
      if all[n - 1].Some? { KeepAppend(p, Gather(all, n - 1), all[n - 1].value); }
      assert Gather(some, n - 1) + [] == Gather(some, n - 1) && Gather(all, n - 1) + [] == Gather(all, n - 1);
    }
  }

  lemma EveryNarrows(lex: Lexer, index: Index, terms: seq<QueryTerm>)
    requires Consistent(lex, index)
    ensures Narrowed(Every(lex, terms), Candidates(lex, index, terms, false), Candidates(lex, index, terms, true))
  {
    forall i | 0 <= i < |index.entries|
      ensures CandidateAt(lex, index, terms, true, i)
              == var c := CandidateAt(lex, index, terms, false, i);
                 if c.Some? && Every(lex, terms)(c.value.entry) then c else None
    {
      assert TokensAt(lex, index, i) == TokenizeEntry(lex, index.entries[i]);
    }
  }

  lemma {:induction false} EntriesRestrict(p: Entry -> bool, s: seq<Scored>)
    ensures EntriesOf(Keep(p, s)) == KeepEntries(p, EntriesOf(s))
  {
    if s != [] {
      EntriesRestrict(p, s[1..]);
      assert EntriesOf(s)[1..] == EntriesOf(s[1..]);
    }
  }

  /** Requiring all terms gives exactly the entries of the unrestricted result that
      match them all, in the same order. */
  lemma RequiringAllRestricts(lex: Lexer, index: Index, terms: seq<QueryTerm>)
    requires Consistent(lex, index)
    ensures Search(lex, index, terms, true)
            == KeepEntries(Every(lex, terms), Search(lex, index, terms, false))
  {
    var all := Results(lex, index, terms, false);
    EveryNarrows(lex, index, terms);
    GatherNarrowed(Every(lex, terms), Candidates(lex, index, terms, false), Candidates(lex, index, terms, true), |index.entries|);
    RankedCommutes(Every(lex, terms), all);
    EntriesRestrict(Every(lex, terms), Ranked(all));
  }

  // ------------------------------------------------------------------
  // What is found
  // ------------------------------------------------------------------

  /** Whether an entry, by its own text, matches some term in some field. */
  predicate MatchesSome(lex: Lexer, terms: seq<QueryTerm>, e: Entry) {
    exists t :: 0 <= t < |terms| && MatchOf(terms[t], TokenizeEntry(lex, e)).Any()
  }

  ghost predicate SomeIn(row: seq<FieldMatch>, n: nat)
    requires n <= |row|
  {
    exists t :: 0 <= t < n && row[t].Any()
  }

  lemma {:induction false} PositiveRow(row: seq<FieldMatch>, weights: seq<nat>, n: nat)
    requires n <= |row| == |weights| && forall t :: 0 <= t < n ==> weights[t] > 0
    requires forall t :: 0 <= t < n && row[t].titleWord ==> row[t].title
    ensures RowScore(row, weights, n) > 0 <==> SomeIn(row, n)
    ensures MatchedTerms(row, n) > 0 <==> SomeIn(row, n)
  {
    if n > 0 {
      PositiveRow(row, weights, n - 1);
      var m := row[n - 1];
      assert SomeIn(row, n) <==> SomeIn(row, n - 1) || m.Any();
      assert TermScore(m) > 0 <==> m.Any();
      PositiveProduct(TermScore(m), weights[n - 1]);
    }
  }

  lemma ExactIsMatch(q: QueryTerm, tokens: seq<QueryTerm>)
    ensures MatchesExactly(q, tokens) ==> MatchesTokens(q, tokens)
  {
    if MatchesExactly(q, tokens) {
      var i :| 0 <= i < |tokens| && tokens[i].text == q.text;
      assert MatchesToken(q, tokens[i]);
    }
  }

  lemma PositiveProduct(a: nat, b: nat)
    requires b > 0
    ensures a * b > 0 <==> a > 0
  {
  }

  function Matching(lex: Lexer, terms: seq<QueryTerm>): Entry -> bool {
    (e: Entry) => MatchesSome(lex, terms, e)
  }

  /** The candidates are the entries that satisfy p. */
  ghost predicate Selects(p: Entry -> bool, entries: seq<Entry>, c: seq<Option<Scored>>) {
    && |c| == |entries|
    && forall i :: 0 <= i < |c| ==> (c[i].Some? <==> p(entries[i])) && (c[i].Some? ==> c[i].value.entry == entries[i])
  }

  lemma {:induction false} GatherSelected(p: Entry -> bool, entries: seq<Entry>, c: seq<Option<Scored>>, n: nat)
    requires Selects(p, entries, c) && n <= |c|
    ensures EntriesOf(Gather(c, n)) == KeepEntries(p, entries[..n])
  {
    if n > 0 {
      GatherSelected(p, entries, c, n - 1);
      KeepEntriesAppend(p, entries[..n - 1], entries[n - 1]);
      assert entries[..n - 1] + [entries[n - 1]] == entries[..n];
      if c[n - 1].Some? { EntriesAppend(Gather(c, n - 1), c[n - 1].value); }
    }
  }

  lemma {:induction false} KeepEntriesAppend(p: Entry -> bool, s: seq<Entry>, x: Entry)
    ensures KeepEntries(p, s + [x]) == if p(x) then KeepEntries(p, s) + [x] else KeepEntries(p, s)
  {
    if s != [] {
      assert (s + [x])[1..] == s[1..] + [x];
      KeepEntriesAppend(p, s[1..], x);
    }
  }

  lemma SomeSelects(lex: Lexer, index: Index, terms: seq<QueryTerm>)
    requires Consistent(lex, index)
    ensures Selects(Matching(lex, terms), index.entries, Candidates(lex, index, terms, false))
  {
    forall i | 0 <= i < |index.entries|
      ensures CandidateAt(lex, index, terms, false, i).Some? <==> Matching(lex, terms)(index.entries[i])
    {
      PositiveAt(lex, index, terms, i);
    }
  }

  lemma EntriesAppend(s: seq<Scored>, x: Scored)
    ensures EntriesOf(s + [x]) == EntriesOf(s) + [x.entry]
    ensures s + [] == s && EntriesOf(s) + [] == EntriesOf(s)
  {
  }

  lemma PositiveAt(lex: Lexer, index: Index, terms: seq<QueryTerm>, i: nat)
    requires Consistent(lex, index) && i < |index.entries|
    ensures CandidateAt(lex, index, terms, false, i).Some? <==> MatchesSome(lex, terms, index.entries[i])
  {
    var tokens := TokensAt(lex, index, i);
    var row := Row(terms, tokens);
    forall t | 0 <= t < |row|
      ensures row[t].titleWord ==> row[t].title
    {
      ExactIsMatch(terms[t], tokens.title);
    }
    PositiveRow(row, Weights(lex, index, terms), |row|);
    assert SomeIn(row, |row|) <==> MatchesSome(lex, terms, index.entries[i]);
  }

  lemma {:induction false} InsertKeepsEntries(s: seq<Scored>, x: Scored)
    ensures multiset(EntriesOf(Insert(s, x))) == multiset(EntriesOf(s)) + multiset{x.entry}
  {
    if s == [] || Before(x, s[0]) {
      assert EntriesOf([x] + s) == [x.entry] + EntriesOf(s);
    } else {
      InsertKeepsEntries(s[1..], x);
      assert EntriesOf([s[0]] + Insert(s[1..], x)) == [s[0].entry] + EntriesOf(Insert(s[1..], x));
      assert EntriesOf(s) == [s[0].entry] + EntriesOf(s[1..]);
    }
  }

  lemma {:induction false} RankedKeepsEntries(s: seq<Scored>)
    ensures multiset(EntriesOf(Ranked(s))) == multiset(EntriesOf(s))
  {
    if s != [] {
      var front, last := s[..|s| - 1], s[|s| - 1];
      RankedKeepsEntries(front);
      InsertKeepsEntries(Ranked(front), last);
      assert EntriesOf(s) == EntriesOf(front) + [last.entry];
    }
  }

  /** A search finds exactly the entries that match at least one term, each as often
      as the index has it. */
  lemma SearchFindsMatching(lex: Lexer, index: Index, terms: seq<QueryTerm>)
    requires Consistent(lex, index)
    ensures multiset(Search(lex, index, terms, false)) == multiset(KeepEntries(Matching(lex, terms), index.entries))
  {
    var candidates := Candidates(lex, index, terms, false);
    SomeSelects(lex, index, terms);
    GatherSelected(Matching(lex, terms), index.entries, candidates, |index.entries|);
    assert index.entries[..|index.entries|] == index.entries;
    RankedKeepsEntries(Results(lex, index, terms, false));
    if terms == [] { NothingMatchesNoTerms(lex, index.entries); }
  }

  lemma {:induction false} NothingMatchesNoTerms(lex: Lexer, entries: seq<Entry>)
    ensures KeepEntries(Matching(lex, []), entries) == []
  {
    if entries != [] { NothingMatchesNoTerms(lex, entries[1..]); }
  }

  // ------------------------------------------------------------------
  // Precomputed tokens make no difference
  // ------------------------------------------------------------------

  lemma {:induction false} DocFreqWithoutTokens(lex: Lexer, index: Index, q: QueryTerm, n: nat)
    requires Consistent(lex, index) && n <= |index.entries|
    ensures DocFreq(lex, index, q, n) == DocFreq(lex, index.(tokens := []), q, n)
  {
    if n > 0 { DocFreqWithoutTokens(lex, index, q, n - 1); }
  }

  lemma CandidatesWithoutTokens(lex: Lexer, index: Index, terms: seq<QueryTerm>, requireAll: bool)
    requires Consistent(lex, index)
    requires Weights(lex, index, terms) == Weights(lex, index.(tokens := []), terms)
    ensures Candidates(lex, index, terms, requireAll) == Candidates(lex, index.(tokens := []), terms, requireAll)
  {
    var plain := index.(tokens := []);
    forall i | 0 <= i < |index.entries|
      ensures CandidateAt(lex, index, terms, requireAll, i) == CandidateAt(lex, plain, terms, requireAll, i)
    {
      assert TokensAt(lex, index, i) == TokensAt(lex, plain, i);
    }
  }

  /** A search over an index with precomputed tokens answers as one that tokenizes
      every entry as it goes. */
  lemma TokensAreTransparent(lex: Lexer, index: Index, terms: seq<QueryTerm>, requireAll: bool)
    requires Consistent(lex, index)
    ensures Search(lex, index, terms, requireAll) == Search(lex, index.(tokens := []), terms, requireAll)
  {
    forall t | 0 <= t < |terms|
      ensures WeightOf(lex, index, terms[t]) == WeightOf(lex, index.(tokens := []), terms[t])
    {
      DocFreqWithoutTokens(lex, index, terms[t], |index.entries|);
    }
    assert Weights(lex, index, terms) == Weights(lex, index.(tokens := []), terms);
    CandidatesWithoutTokens(lex, index, terms, requireAll);
  }
}
