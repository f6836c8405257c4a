/**
 Query-focused excerpts, from pkg/registry/docs/docs_corpus.go: the window taken
 around one hit, the choice among the windows of all hits, and the text made of
 the chosen window.
 */
module Excerpt {
  import opened Utf8
  import opened Sequences
  import Bits

  const EXCERPT_LENGTH: nat := 300
  const EXCERPT_LEAD: nat := 40
  const MAX_HITS_PER_TERM: nat := 8
  const MAX_QUERY_TERMS: nat := 16

  // ------------------------------------------------------------------
  // Runes
  // ------------------------------------------------------------------

  /** How far a range over a string moves on from the head of s. */
  function Width(s: Bytes): (n: nat)
    requires s != []
    ensures 0 < n <= |s|
  {
    if CharLen(s) > 0 then CharLen(s) else 1
  }

  function NextRune(s: Bytes, i: nat): (j: nat)
    requires i < |s|
    ensures i < j <= |s|
  {
    i + Width(s[i..])
  }

  /** The code point at the head of s; malformed bytes read as U+FFFD. */
  function Rune(s: Bytes): int
    requires s != []
  {
    match CharLen(s)
    case 1 => s[0] as int
    case 2 => (s[0] as int - 0xC0) * 0x40 + (s[1] as int - 0x80)
    case 3 => (s[0] as int - 0xE0) * 0x1000 + (s[1] as int - 0x80) * 0x40 + (s[2] as int - 0x80)
    case 4 => (s[0] as int - 0xF0) * 0x40000 + (s[1] as int - 0x80) * 0x1000 + (s[2] as int - 0x80) * 0x40 + (s[3] as int - 0x80)
    case _ => 0xFFFD
  }

  predicate SpaceAt(s: Bytes, i: nat)
    requires i < |s|
  {
    IsSpace(Rune(s[i..]))
  }

  // ------------------------------------------------------------------
  // The window around one anchor
  // ------------------------------------------------------------------

  /** The offset behind the first space in s from i on; i0 if there is none. */
  function AfterFirstSpace(s: Bytes, i: nat, otherwise: nat): (r: nat)
    requires i <= |s|
    ensures r == otherwise || i < r <= |s|
    decreases |s| - i
  {
    if i == |s| then otherwise
    else if SpaceAt(s, i) then NextRune(s, i)
    else AfterFirstSpace(s, NextRune(s, i), otherwise)
  }

  /** The offset of the last space in s from i on; otherwise if there is none. */
  function LastSpace(s: Bytes, i: nat, otherwise: nat): (r: nat)
    requires i <= |s|
    ensures r == otherwise || i <= r < |s|
    decreases |s| - i
  {
    if i == |s| then otherwise
    else LastSpace(s, NextRune(s, i), if SpaceAt(s, i) then i else otherwise)
  }

  function WindowStart(content: Bytes, anchorStart: nat): (r: nat)
    requires anchorStart <= |content|
    ensures r <= anchorStart
  {
    var lead := if anchorStart < EXCERPT_LEAD then 0 else anchorStart - EXCERPT_LEAD;
    var start := Forward(content, lead, anchorStart);
    if start == 0 then 0 else start + AfterFirstSpace(content[start..anchorStart], 0, 0)
  }

  /** As far as the length allows, on a boundary. */
  function WindowReach(content: Bytes, start: nat): (r: nat)
    requires start <= |content|
    ensures start <= r <= |content| && r - start <= EXCERPT_LENGTH
  {
    Back(content, start, if |content| - start < EXCERPT_LENGTH then |content| else start + EXCERPT_LENGTH)
  }

  /** Back to the last space behind the anchor, unless the text ends there. */
  function WindowEnd(content: Bytes, anchorEnd: nat, reach: nat): (r: nat)
    requires anchorEnd <= reach <= |content|
    ensures anchorEnd <= r <= reach
  {
    if reach == |content| then reach
    else anchorEnd + LastSpace(content[anchorEnd..reach], 0, reach - anchorEnd)
  }

  datatype Span = Span(start: nat, end: nat)

  function Window(content: Bytes, anchor: Span): (w: Span)
    requires anchor.start <= anchor.end <= |content|
    ensures w.start <= w.end <= |content|
  {
    var start := WindowStart(content, anchor.start);
    var end := WindowReach(content, start);
    if end < anchor.end then Span(0, 0)
    else Span(start, WindowEnd(content, anchor.end, end))
  }

  method SkipToSpace(s: Bytes) returns (r: nat)
    ensures r == AfterFirstSpace(s, 0, 0)
  {
    var offset := 0;
    while offset < |s|
      invariant offset <= |s|
      invariant AfterFirstSpace(s, offset, 0) == AfterFirstSpace(s, 0, 0)
    {
      if SpaceAt(s, offset) {
        return NextRune(s, offset);
      }
      offset := NextRune(s, offset);
    }
    return 0;
  }

  method FindLastSpace(s: Bytes) returns (last: nat)
    ensures last == LastSpace(s, 0, |s|)
  {
    last := |s|;
    var offset: nat := 0;
    while offset < |s|
      invariant offset <= |s|
      invariant LastSpace(s, offset, last) == LastSpace(s, 0, |s|)
    {
      if SpaceAt(s, offset) {
        last := offset;
      }
      offset := NextRune(s, offset);
    }
  }

  method BoundsStart(content: Bytes, anchorStart: nat) returns (start: nat)
    requires anchorStart <= |content|
    ensures start == WindowStart(content, anchorStart)
  {
    start := if anchorStart < EXCERPT_LEAD then 0 else anchorStart - EXCERPT_LEAD;
    ghost var lead := start;
    while start < anchorStart && !RuneStart(content[start])
      invariant start <= anchorStart
      invariant Forward(content, start, anchorStart) == Forward(content, lead, anchorStart)
    {
      start := start + 1;
    }
    if start > 0 {
      var offset := SkipToSpace(content[start..anchorStart]);
      start := start + offset;
    }
  }

  method BoundsReach(content: Bytes, start: nat) returns (end: nat)
    requires start <= |content|
    ensures end == WindowReach(content, start)
  {
    end := start + (if EXCERPT_LENGTH < |content| - start then EXCERPT_LENGTH else |content| - start);
    ghost var most := end;
    while end < |content| && end > start && !RuneStart(content[end])
      invariant start <= end <= |content|
      invariant Back(content, start, end) == Back(content, start, most)
      decreases end
    {
      end := end - 1;
    }
  }

  method WindowBounds(content: Bytes, anchorStart: nat, anchorEnd: nat) returns (start: nat, end: nat)
    requires anchorStart <= anchorEnd <= |content|
    ensures Span(start, end) == Window(content, Span(anchorStart, anchorEnd))
  {
    start := BoundsStart(content, anchorStart);
    end := BoundsReach(content, start);
    if end < anchorEnd {
      return 0, 0;
    }
    if end < |content| {
      var last := FindLastSpace(content[anchorEnd..end]);
      end := anchorEnd + last;
    }
  }

  lemma NextBoundary(s: Bytes, i: nat)
    requires Valid(s) && i < |s| && Boundary(s, i)
    ensures NextRune(s, i) <= |s| && Boundary(s, NextRune(s, i))
  {
    CharEndsBy(s, i, |s|);
  }

  lemma {:induction false} AfterFirstSpaceBoundary(s: Bytes, i: nat)
    requires Valid(s) && i <= |s| && Boundary(s, i)
    ensures AfterFirstSpace(s, i, 0) <= |s| && Boundary(s, AfterFirstSpace(s, i, 0))
    decreases |s| - i
  {
    if i < |s| {
      NextBoundary(s, i);
      AfterFirstSpaceBoundary(s, NextRune(s, i));
    } else {
      BoundarySplits(s, 0);
      assert s[0..] == s;
    }
  }

  lemma {:induction false} LastSpaceBoundary(s: Bytes, i: nat, otherwise: nat)
    requires Valid(s) && i <= |s| && Boundary(s, i)
    requires otherwise <= |s| && Boundary(s, otherwise)
    ensures LastSpace(s, i, otherwise) <= |s| && Boundary(s, LastSpace(s, i, otherwise))
    decreases |s| - i
  {
    if i < |s| {
      NextBoundary(s, i);
      LastSpaceBoundary(s, NextRune(s, i), if SpaceAt(s, i) then i else otherwise);
    }
  }

  /** Boundaries of a part that ends on one are boundaries of the text. */
  lemma PartBoundary(s: Bytes, i: nat, j: nat, k: nat)
    requires i <= j <= |s| && Boundary(s, j)
    requires k <= j - i && Boundary(s[i..j], k)
    ensures Boundary(s, i + k)
  {
  }

  lemma WindowStartBoundary(content: Bytes, anchorStart: nat)
    requires Valid(content) && anchorStart <= |content| && Boundary(content, anchorStart)
    ensures Boundary(content, WindowStart(content, anchorStart))
    ensures WindowStart(content, anchorStart) + EXCERPT_LEAD >= anchorStart
  {
    var lead := if anchorStart < EXCERPT_LEAD then 0 else anchorStart - EXCERPT_LEAD;
    var start := Forward(content, lead, anchorStart);
    ValidBetween(content, start, anchorStart);
    AfterSpaceIsBoundary(content, start, anchorStart);
  }

  lemma AfterSpaceIsBoundary(content: Bytes, start: nat, end: nat)
    requires start <= end <= |content| && Valid(content[start..end]) && Boundary(content, end)
    ensures Boundary(content, start + AfterFirstSpace(content[start..end], 0, 0))
  {
    AfterSpaceInside(content[start..end]);
    PartBoundary(content, start, end, AfterFirstSpace(content[start..end], 0, 0));
  }

  lemma LastSpaceInside(s: Bytes)
    requires Valid(s)
    ensures LastSpace(s, 0, |s|) <= |s| && Boundary(s, LastSpace(s, 0, |s|))
  {
    StartIsBoundary(s);
    LastSpaceBoundary(s, 0, |s|);
  }

  lemma AfterSpaceInside(s: Bytes)
    requires Valid(s)
    ensures AfterFirstSpace(s, 0, 0) <= |s| && Boundary(s, AfterFirstSpace(s, 0, 0))
  {
    StartIsBoundary(s);
    AfterFirstSpaceBoundary(s, 0);
  }

  lemma StartIsBoundary(s: Bytes)
    requires Valid(s)
    ensures Boundary(s, 0)
  {
  }

  lemma WindowReachBoundary(content: Bytes, start: nat)
    requires Valid(content) && start <= |content| && Boundary(content, start)
    ensures Boundary(content, WindowReach(content, start))
    ensures WindowReach(content, start) == |content| || WindowReach(content, start) >= start + EXCERPT_LENGTH - 3
  {
    if |content| - start >= EXCERPT_LENGTH {
      BoundaryNear(content, start + EXCERPT_LENGTH);
    }
  }

  /** A window is empty at 0, or it contains the whole anchor in at most 300 bytes
      of whole characters; and an anchor of at most 257 bytes always gets one,
      while none of more than 300 bytes does. */
  lemma WindowHoldsAnchor(content: Bytes, anchor: Span)
    requires Valid(content) && anchor.start <= anchor.end <= |content|
    requires Boundary(content, anchor.start) && Boundary(content, anchor.end)
    ensures
      var w := Window(content, anchor);
      && (w == Span(0, 0) || w.start <= anchor.start <= anchor.end <= w.end)
      && w.end - w.start <= EXCERPT_LENGTH
      && Boundary(content, w.start) && Boundary(content, w.end) && Valid(content[w.start..w.end])
      && (anchor.end - anchor.start <= 257 ==> w.start <= anchor.start && anchor.end <= w.end)
      && (anchor.end - anchor.start > EXCERPT_LENGTH ==> w == Span(0, 0))
  {
    var start := WindowStart(content, anchor.start);
    var reach := WindowReach(content, start);
    WindowStartBoundary(content, anchor.start);
    WindowReachBoundary(content, start);
    StartIsBoundary(content);
    if anchor.end <= reach {
      WindowEndBoundary(content, anchor.end, reach);
    }
    var w := Window(content, anchor);
    ValidBetween(content, w.start, w.end);
  }

  lemma WindowEndBoundary(content: Bytes, anchorEnd: nat, reach: nat)
    requires Valid(content) && anchorEnd <= reach <= |content|
    requires Boundary(content, anchorEnd) && Boundary(content, reach)
    ensures Boundary(content, WindowEnd(content, anchorEnd, reach))
  {
    ValidBetween(content, anchorEnd, reach);
    LastSpaceIsBoundary(content, anchorEnd, reach);
  }

  lemma LastSpaceIsBoundary(content: Bytes, start: nat, end: nat)
    requires start <= end <= |content| && Valid(content[start..end]) && Boundary(content, end)
    ensures Boundary(content, start + LastSpace(content[start..end], 0, end - start))
  {
    LastSpaceInside(content[start..end]);
    PartBoundary(content, start, end, LastSpace(content[start..end], 0, end - start));
  }

  // ------------------------------------------------------------------
  // Where the window is cut
  // ------------------------------------------------------------------

  /** A character of white space starts at i. */
  predicate SpaceStarts(s: Bytes, i: nat) {
    i < |s| && Boundary(s, i) && SpaceAt(s, i)
  }

  /** r is behind the first white space of s, or 0 if there is none. */
  ghost predicate BehindFirstSpace(s: Bytes, r: nat) {
    || (exists i: nat :: SpaceStarts(s, i) && r == i + CharLen(s[i..]) && forall j: nat :: j < i ==> !SpaceStarts(s, j))
    || (r == 0 && forall j: nat :: !SpaceStarts(s, j))
  }

  /** r is at the last white space of s before i, or at the end of s if there is none. */
  ghost predicate LastSpaceBefore(s: Bytes, i: nat, r: nat) {
    || (SpaceStarts(s, r) && r < i && forall j: nat :: r < j < i ==> !SpaceStarts(s, j))
    || (r == |s| && forall j: nat :: j < i ==> !SpaceStarts(s, j))
  }

  ghost predicate AtLastSpace(s: Bytes, r: nat) {
    LastSpaceBefore(s, |s|, r)
  }

  lemma NoBoundaryWithin(s: Bytes, i: nat)
    requires Valid(s) && i < |s| && Boundary(s, i)
    ensures CharLen(s[i..]) > 0 && NextRune(s, i) == i + CharLen(s[i..])
    ensures forall j: nat :: i < j < NextRune(s, i) ==> !Boundary(s, j)
  {
    CharEndsBy(s, i, |s|);
    forall j: nat | i < j < NextRune(s, i)
      ensures !Boundary(s, j)
    {
      assert s[i..][j - i] == s[j];
    }
  }

  lemma {:induction false} FirstSpaceFrom(s: Bytes, i: nat)
    requires Valid(s) && i <= |s| && Boundary(s, i)
    requires forall j: nat :: j < i ==> !SpaceStarts(s, j)
    ensures BehindFirstSpace(s, AfterFirstSpace(s, i, 0))
    decreases |s| - i
  {
    if i < |s| {
      NoBoundaryWithin(s, i);
      NextBoundary(s, i);
      if SpaceAt(s, i) {
        assert SpaceStarts(s, i);
      } else {
        FirstSpaceFrom(s, NextRune(s, i));
      }
    }
  }

  lemma LastSpaceNext(s: Bytes, i: nat, otherwise: nat)
    requires Valid(s) && i < |s| && Boundary(s, i) && LastSpaceBefore(s, i, otherwise)
    ensures Boundary(s, NextRune(s, i)) && LastSpaceBefore(s, NextRune(s, i), if SpaceAt(s, i) then i else otherwise)
  {
    NoBoundaryWithin(s, i);
    NextBoundary(s, i);
    LastSpaceStep(s, i, NextRune(s, i), otherwise);
  }

  lemma LastSpaceStep(s: Bytes, i: nat, next: nat, otherwise: nat)
    requires i < next <= |s| && LastSpaceBefore(s, i, otherwise)
    requires forall j: nat :: i < j < next ==> !Boundary(s, j)
    ensures LastSpaceBefore(s, next, if SpaceStarts(s, i) then i else otherwise)
  {
    forall j: nat | i < j < next
      ensures !SpaceStarts(s, j)
    {
      assert !Boundary(s, j);
    }
    if !SpaceStarts(s, i) {
      forall j: nat | j < next && (otherwise < j || otherwise == |s|)
        ensures !SpaceStarts(s, j)
      {
        assert j < i || j == i || i < j;
      }
    }
  }

  lemma {:induction false} LastSpaceFrom(s: Bytes, i: nat, otherwise: nat)
    requires Valid(s) && i <= |s| && Boundary(s, i)
    requires LastSpaceBefore(s, i, otherwise)
    ensures AtLastSpace(s, LastSpace(s, i, otherwise))
    decreases |s| - i
  {
    if i < |s| {
      LastSpaceNext(s, i, otherwise);
      LastSpaceFrom(s, NextRune(s, i), if SpaceAt(s, i) then i else otherwise);
    }
  }

  /** The first boundary from i on, up to the end of a part. */
  ghost predicate FirstBoundary(s: Bytes, i: nat, high: nat, r: nat) {
    && i <= r <= high <= |s| && (r == high || Boundary(s, r))
    && forall j: nat :: i <= j < r ==> !Boundary(s, j)
  }

  ghost predicate LastBoundary(s: Bytes, low: nat, i: nat, r: nat) {
    && low <= r <= i <= |s| && (r == low || Boundary(s, r))
    && forall j: nat :: r < j <= i ==> !Boundary(s, j)
  }

  /** Where the window around an anchor starts: as far before it as the lead, at a character, and
      there behind the first white space, unless that is the start of the text. */
  ghost predicate StartsWell(content: Bytes, anchor: Span, start: nat) {
    exists from: nat :: StartsBehind(content, anchor, start, from)
  }

  ghost predicate StartsBehind(content: Bytes, anchor: Span, start: nat, from: nat) {
    && FirstBoundary(content, if anchor.start < 40 then 0 else anchor.start - 40, anchor.start, from)
    && from <= start <= anchor.start
    && if from == 0 then start == 0 else BehindFirstSpace(content[from..anchor.start], start - from)
  }

  /** Where it ends: as far from its start as an excerpt is long, at a character, and there at the
      last white space behind the anchor, unless that is the end of the text. */
  ghost predicate EndsWell(content: Bytes, anchor: Span, start: nat, end: nat) {
    exists to: nat :: EndsBefore(content, anchor, start, end, to)
  }

  ghost predicate EndsBefore(content: Bytes, anchor: Span, start: nat, end: nat, to: nat) {
    && start <= |content|
    && LastBoundary(content, start, if |content| - start < 300 then |content| else start + 300, to)
    && anchor.end <= end <= to
    && if to == |content| then end == to else AtLastSpace(content[anchor.end..to], end - anchor.end)
  }

  lemma StartIsWell(content: Bytes, anchor: Span)
    requires Valid(content) && anchor.start <= anchor.end <= |content| && Boundary(content, anchor.start)
    ensures StartsWell(content, anchor, WindowStart(content, anchor.start))
  {
    var lead := if anchor.start < 40 then 0 else anchor.start - 40;
    var from := Forward(content, lead, anchor.start);
    if from > 0 {
      ValidBetween(content, from, anchor.start);
      FirstSpaceInside(content[from..anchor.start]);
    }
    assert StartsBehind(content, anchor, WindowStart(content, anchor.start), from);
  }

  lemma FirstSpaceInside(s: Bytes)
    requires Valid(s)
    ensures BehindFirstSpace(s, AfterFirstSpace(s, 0, 0))
  {
    StartIsBoundary(s);
    FirstSpaceFrom(s, 0);
  }

  lemma LastSpaceIsLast(s: Bytes)
    requires Valid(s)
    ensures AtLastSpace(s, LastSpace(s, 0, |s|))
  {
    StartIsBoundary(s);
    LastSpaceFrom(s, 0, |s|);
  }

  lemma ReachIsLast(content: Bytes, start: nat)
    requires Valid(content) && start <= |content| && Boundary(content, start)
    ensures LastBoundary(content, start, if |content| - start < 300 then |content| else start + 300, WindowReach(content, start))
  {
  }

  lemma BehindAnchor(content: Bytes, anchorEnd: nat, to: nat)
    requires Valid(content) && anchorEnd <= to < |content|
    requires Boundary(content, anchorEnd) && Boundary(content, to)
    ensures anchorEnd <= WindowEnd(content, anchorEnd, to)
    ensures AtLastSpace(content[anchorEnd..to], WindowEnd(content, anchorEnd, to) - anchorEnd)
  {
    ValidBetween(content, anchorEnd, to);
    EndIsLast(content[anchorEnd..to], to - anchorEnd);
  }

  lemma EndIsLast(s: Bytes, n: nat)
    requires Valid(s) && n == |s|
    ensures AtLastSpace(s, LastSpace(s, 0, n))
  {
    LastSpaceIsLast(s);
  }

  lemma EndsThere(content: Bytes, anchor: Span, start: nat, end: nat, to: nat)
    requires EndsBefore(content, anchor, start, end, to)
    ensures EndsWell(content, anchor, start, end)
  {
  }

  lemma EndIsWell(content: Bytes, anchor: Span, start: nat, to: nat)
    requires Valid(content) && start <= anchor.start <= anchor.end <= to <= |content|
    requires Boundary(content, start) && Boundary(content, anchor.end) && to == WindowReach(content, start)
    ensures EndsWell(content, anchor, start, WindowEnd(content, anchor.end, to))
  {
    ReachIsLast(content, start);
    WindowReachBoundary(content, start);
    if to < |content| { BehindAnchor(content, anchor.end, to); }
    EndsThere(content, anchor, start, WindowEnd(content, anchor.end, to), to);
  }

  /** A window that is not empty starts and ends where the nearest white space allows. */
  lemma WindowCutsAtSpaces(content: Bytes, anchor: Span)
    requires Valid(content) && anchor.start <= anchor.end <= |content|
    requires Boundary(content, anchor.start) && Boundary(content, anchor.end)
    ensures
      var w := Window(content, anchor);
      w == Span(0, 0) || (StartsWell(content, anchor, w.start) && EndsWell(content, anchor, w.start, w.end))
  {
    var start := WindowStart(content, anchor.start);
    StartIsWell(content, anchor);
    WindowStartBoundary(content, anchor.start);
    if anchor.end <= WindowReach(content, start) {
      EndIsWell(content, anchor, start, WindowReach(content, start));
    }
  }

  // ------------------------------------------------------------------
  // Hits: the first occurrences of each query term
  // ------------------------------------------------------------------

  /** A body, the spans of its word tokens, and which query terms match a token. */
  datatype Scan = Scan(content: Bytes, spans: seq<Span>, matches: (Bytes, nat) -> bool, terms: nat)

  ghost predicate SpansIn(q: Scan) {
    forall i :: 0 <= i < |q.spans| ==> q.spans[i].start <= q.spans[i].end <= |q.content|
  }

  ghost predicate WellFormed(q: Scan) {
    q.terms <= MAX_QUERY_TERMS && SpansIn(q)
  }

  predicate MatchesAt(q: Scan, i: nat, t: nat)
    requires i < |q.spans| && q.spans[i].start <= q.spans[i].end <= |q.content|
  {
    q.matches(q.content[q.spans[i].start..q.spans[i].end], t)
  }

  /** How many of the first n tokens the term matches. */
  function Occurrences(q: Scan, t: nat, n: nat): (r: nat)
    requires WellFormed(q) && n <= |q.spans|
  {
    if n == 0 then 0 else Occurrences(q, t, n - 1) + if MatchesAt(q, n - 1, t) then 1 else 0
  }

  datatype Hit = Hit(span: Span, term: nat)

  /** A match is recorded while its term has fewer earlier ones than the limit. */
  predicate Recorded(q: Scan, i: nat, t: nat)
    requires WellFormed(q) && i < |q.spans|
  {
    MatchesAt(q, i, t) && Occurrences(q, t, i) < MAX_HITS_PER_TERM
  }

  /** The hits of the tokens before i, and of token i the terms before t. */
  function HitsBefore(q: Scan, i: nat, t: nat): seq<Hit>
    requires WellFormed(q) && t <= q.terms && (i < |q.spans| || (i == |q.spans| && t == 0))
    decreases i, t
  {
    if t > 0 then HitsBefore(q, i, t - 1) + (if Recorded(q, i, t - 1) then [Hit(q.spans[i], t - 1)] else [])
    else if i > 0 then HitsBefore(q, i - 1, q.terms)
    else []
  }

  function Capped(n: nat): nat {
    if n < MAX_HITS_PER_TERM then n else MAX_HITS_PER_TERM
  }

  /** counts[u] is the number of hits of term u: for the terms before t those among
      the tokens up to i, for the others those before it. */
  ghost predicate Counted(q: Scan, i: nat, t: nat, counts: seq<nat>)
    requires WellFormed(q) && t <= q.terms && (i < |q.spans| || (i == |q.spans| && t == 0))
  {
    && |counts| == q.terms
    && (forall u :: 0 <= u < t ==> counts[u] == Capped(Occurrences(q, u, i + 1)))
    && (forall u :: t <= u < q.terms ==> counts[u] == Capped(Occurrences(q, u, i)))
  }

  method CollectHits(q: Scan) returns (hits: seq<Hit>)
    requires WellFormed(q)
    ensures hits == HitsBefore(q, |q.spans|, 0)
  {
    hits := [];
    var counts: seq<nat> := seq(q.terms, _ => 0);
    for i := 0 to |q.spans|
      invariant hits == HitsBefore(q, i, 0) && Counted(q, i, 0, counts)
    {
      for t := 0 to q.terms
        invariant hits == HitsBefore(q, i, t) && Counted(q, i, t, counts)
      {
        if counts[t] < MAX_HITS_PER_TERM && MatchesAt(q, i, t) {
          hits := hits + [Hit(q.spans[i], t)];
          counts := counts[t := counts[t] + 1];
        }
      }
    }
  }

  /** Exactly the first occurrences of each term are hits. */
  lemma {:induction false} HitsAreFirstOccurrences(q: Scan, i: nat, t: nat, h: Hit)
    requires WellFormed(q) && t <= q.terms && (i < |q.spans| || (i == |q.spans| && t == 0))
    ensures h in HitsBefore(q, i, t) <==>
            h.term < q.terms && exists k :: 0 <= k < |q.spans| && (k < i || (k == i && h.term < t))
                                            && q.spans[k] == h.span && Recorded(q, k, h.term)
    decreases i, t
  {
    if t > 0 {
      HitsAreFirstOccurrences(q, i, t - 1, h);
      if h == Hit(q.spans[i], t - 1) && Recorded(q, i, t - 1) {
        assert q.spans[i] == h.span && Recorded(q, i, h.term);
      }
    } else if i > 0 {
      HitsAreFirstOccurrences(q, i - 1, q.terms, h);
    }
  }

  // ------------------------------------------------------------------
  // The best window
  // ------------------------------------------------------------------

  predicate Inside(h: Hit, w: Span) {
    w.start <= h.span.start && h.span.end <= w.end
  }

  /** The distinct terms with a hit inside the window. */
  function Covered(hits: seq<Hit>, w: Span): set<nat> {
    set h | h in hits && Inside(h, w) :: h.term
  }

  datatype Choice = Choice(window: Span, count: nat)

  ghost predicate HitsIn(hits: seq<Hit>, content: Bytes) {
    forall i :: 0 <= i < |hits| ==>
      hits[i].span.start <= hits[i].span.end <= |content| && hits[i].term < MAX_QUERY_TERMS
  }

  /** How many distinct terms the window around hit k covers. */
  function Coverage(content: Bytes, hits: seq<Hit>, k: nat): nat
    requires HitsIn(hits, content) && k < |hits|
  {
    |Covered(hits, Window(content, hits[k].span))|
  }

  /** The window around each hit, with its coverage. */
  function Candidates(content: Bytes, hits: seq<Hit>): (r: seq<Choice>)
    requires HitsIn(hits, content)
    ensures |r| == |hits|
    ensures forall k :: 0 <= k < |r| ==> r[k] == Choice(Window(content, hits[k].span), Coverage(content, hits, k))
  {
    seq(|hits|, k requires 0 <= k < |hits| => Choice(Window(content, hits[k].span), Coverage(content, hits, k)))
  }

  /** The first of the candidates with the greatest count, if that is positive. */
  function Best(candidates: seq<Choice>): Choice {
    if candidates == [] then Choice(Span(0, 0), 0)
    else
      var last := |candidates| - 1;
      var best := Best(candidates[..last]);
      if candidates[last].count > best.count then candidates[last] else best
  }

  lemma {:induction false} BestIsMaximum(candidates: seq<Choice>, k: nat)
    requires k < |candidates|
    ensures candidates[k].count <= Best(candidates).count
  {
    if k < |candidates| - 1 {
      BestIsMaximum(candidates[..|candidates| - 1], k);
    }
  }

  lemma {:induction false} BestIsFirst(candidates: seq<Choice>) returns (k: nat)
    requires Best(candidates).count > 0
    ensures k < |candidates| && candidates[k] == Best(candidates)
    ensures forall j :: 0 <= j < k ==> candidates[j].count < candidates[k].count
  {
    var before := candidates[..|candidates| - 1];
    if candidates[|candidates| - 1].count > Best(before).count {
      k := |candidates| - 1;
      forall j | 0 <= j < k ensures candidates[j].count < candidates[k].count {
        BestIsMaximum(before, j);
        assert before[j] == candidates[j];
      }
    } else {
      k := BestIsFirst(before);
    }
  }

  method CountCovered(hits: seq<Hit>, w: Span) returns (count: nat)
    requires forall i :: 0 <= i < |hits| ==> hits[i].term < MAX_QUERY_TERMS
    ensures count == |Covered(hits, w)|
  {
    var covered: nat := 0;
    Bits.ShiftedBelow(0, MAX_QUERY_TERMS);
    for j := 0 to |hits|
      invariant Bits.Members(covered) == Covered(hits[..j], w)
      invariant covered < Bits.Shifted(MAX_QUERY_TERMS)
    {
      CoveredNext(hits, j, w);
      if Inside(hits[j], w) {
        Bits.SetBit(covered, hits[j].term);
        Bits.ShiftedBelow(hits[j].term, MAX_QUERY_TERMS);
        Bits.OrFits(covered, Bits.Shifted(hits[j].term), MAX_QUERY_TERMS);
        covered := Bits.Or(covered, Bits.Shifted(hits[j].term));
      }
    }
    assert hits[..|hits|] == hits;
    count := Bits.Popcount(covered);
  }

  lemma CoveredNext(hits: seq<Hit>, j: nat, w: Span)
    requires j < |hits|
    ensures Covered(hits[..j + 1], w) == Covered(hits[..j], w) + if Inside(hits[j], w) then {hits[j].term} else {}
  {
    var next := hits[..j + 1];
    assert next == hits[..j] + [hits[j]];
    forall h | h in next && Inside(h, w)
      ensures h.term in Covered(hits[..j], w) + if Inside(hits[j], w) then {hits[j].term} else {}
    {
      assert h in hits[..j] || h == hits[j];
    }
    forall t | t in Covered(hits[..j], w) ensures t in Covered(next, w) {
      var h :| h in hits[..j] && Inside(h, w) && h.term == t;
      assert h in next;
    }
    if Inside(hits[j], w) { assert hits[j] in next; }
  }

  method ChooseWindow(content: Bytes, hits: seq<Hit>) returns (best: Choice)
    requires HitsIn(hits, content)
    ensures best == Best(Candidates(content, hits))
  {
    ghost var candidates := Candidates(content, hits);
    best := Choice(Span(0, 0), 0);
    for k := 0 to |hits|
      invariant best == Best(candidates[..k])
    {
      var start, end := WindowBounds(content, hits[k].span.start, hits[k].span.end);
      var count := CountCovered(hits, Span(start, end));
      assert candidates[k] == Choice(Span(start, end), count);
      assert candidates[..k + 1][..k] == candidates[..k];
      if count > best.count {
        best := Choice(Span(start, end), count);
      }
    }
    assert candidates[..|hits|] == candidates;
  }

  // ------------------------------------------------------------------
  // The text of an excerpt
  // ------------------------------------------------------------------

  const ELLIPSIS: Bytes := [0x2E, 0x2E, 0x2E]

  /** A text as its characters, each a sequence of bytes. */
  type Text = seq<Bytes>

  function Chars(s: Bytes): Text {
    if s == [] then [] else [s[..Width(s)]] + Chars(s[Width(s)..])
  }

  function Flatten(t: Text): Bytes {
    if t == [] then [] else t[0] + Flatten(t[1..])
  }

  predicate IsSpaceChar(c: Bytes) {
    c != [] && IsSpace(Rune(c))
  }

  /** The space-separated fields of partial + t, where partial has no space. */
  function Fields(partial: Text, t: Text): seq<Text>
    decreases |t|
  {
    if t == [] then (if partial == [] then [] else [partial])
    else if !IsSpaceChar(t[0]) then Fields(partial + [t[0]], t[1..])
    else if partial == [] then Fields([], t[1..])
    else [partial] + Fields([], t[1..])
  }

  function Join(fields: seq<Text>): Text {
    if fields == [] then []
    else if |fields| == 1 then fields[0]
    else fields[0] + [[0x20]] + Join(fields[1..])
  }

  /** The text with its white space collapsed. */
  function Collapsed(s: Bytes): Text {
    Join(Fields([], Chars(s)))
  }

  function Dots(cut: bool): Bytes {
    if cut then ELLIPSIS else []
  }

  function Render(content: Bytes, w: Span): Bytes
    requires w.start <= w.end <= |content|
  {
    Dots(w.start > 0) + Flatten(Collapsed(content[w.start..w.end])) + Dots(w.end < |content|)
  }

  function ExcerptOf(content: Bytes, best: Choice): Bytes
    requires best.window.start <= best.window.end <= |content|
  {
    if best.count == 0 then [] else Render(content, best.window)
  }

  /** The hits of a query, of whose terms only the first 16 count. */
  function Hits(q: Scan): (hits: seq<Hit>)
    requires SpansIn(q)
    ensures HitsIn(hits, q.content)
  {
    var capped := q.(terms := if q.terms < MAX_QUERY_TERMS then q.terms else MAX_QUERY_TERMS);
    HitsLieIn(capped, |q.spans|, 0);
    HitsBefore(capped, |q.spans|, 0)
  }

  lemma {:induction false} BestInside(content: Bytes, candidates: seq<Choice>)
    requires forall k :: 0 <= k < |candidates| ==> candidates[k].window.start <= candidates[k].window.end <= |content|
    ensures Best(candidates).window.start <= Best(candidates).window.end <= |content|
  {
    if Best(candidates).count > 0 {
      var k := BestIsFirst(candidates);
    } else if candidates != [] {
      BestInside(content, candidates[..|candidates| - 1]);
    }
  }

  function BestWindow(q: Scan): (best: Choice)
    requires SpansIn(q)
    ensures best.window.start <= best.window.end <= |q.content|
  {
    BestInside(q.content, Candidates(q.content, Hits(q)));
    Best(Candidates(q.content, Hits(q)))
  }

  method Quote(content: Bytes, w: Span) returns (text: Bytes)
    requires w.start <= w.end <= |content|
    ensures text == Render(content, w)
  {
    text := Flatten(Collapsed(content[w.start..w.end]));
    if w.start > 0 {
      text := ELLIPSIS + text;
    }
    if w.end < |content| {
      text := text + ELLIPSIS;
    }
  }

  method Excerpt(q: Scan) returns (text: Bytes)
    requires SpansIn(q)
    ensures text == ExcerptOf(q.content, BestWindow(q))
  {
    var hits := CollectHits(q.(terms := if q.terms < MAX_QUERY_TERMS then q.terms else MAX_QUERY_TERMS));
    assert hits == Hits(q);
    if hits == [] {
      return [];
    }
    var best := ChooseWindow(q.content, hits);
    assert best == BestWindow(q);
    if best.count == 0 {
      return [];
    }
    text := Quote(q.content, best.window);
  }

  lemma {:induction false} HitsLieIn(q: Scan, i: nat, t: nat)
    requires WellFormed(q) && t <= q.terms && (i < |q.spans| || (i == |q.spans| && t == 0))
    ensures HitsIn(HitsBefore(q, i, t), q.content)
    decreases i, t
  {
    if t > 0 {
      HitsLieIn(q, i, t - 1);
    } else if i > 0 {
      HitsLieIn(q, i - 1, q.terms);
    }
  }

  /** The characters of t that are not white space, in order. */
  function NonSpace(t: Text): Text {
    if t == [] then [] else (if IsSpaceChar(t[0]) then [] else [t[0]]) + NonSpace(t[1..])
  }

  ghost predicate IsChar(c: Bytes) {
    c != [] && CharLen(c) == |c|
  }

  ghost predicate AllChars(t: Text) {
    forall i :: 0 <= i < |t| ==> IsChar(t[i])
  }

  lemma AllCharsConcat(a: Text, b: Text)
    requires AllChars(a) && AllChars(b)
    ensures AllChars(a + b)
  {
  }

  lemma JoinPrepend(field: Text, fields: seq<Text>)
    ensures Join([field] + fields) == if fields == [] then field else field + [[0x20]] + Join(fields)
  {
    assert ([field] + fields)[1..] == fields;
  }

  lemma {:induction false} FlattenConcat(a: Text, b: Text)
    ensures Flatten(a + b) == Flatten(a) + Flatten(b)
  {
    if a == [] {
      assert a + b == b;
    } else {
      assert (a + b)[1..] == a[1..] + b;
      FlattenConcat(a[1..], b);
    }
  }

  lemma {:induction false} NonSpaceConcat(a: Text, b: Text)
    ensures NonSpace(a + b) == NonSpace(a) + NonSpace(b)
  {
    if a == [] {
      assert a + b == b;
    } else {
      assert (a + b)[1..] == a[1..] + b;
      NonSpaceConcat(a[1..], b);
    }
  }

  /** Collapsing white space never makes a text longer. */
  lemma {:induction false} JoinIsShort(partial: Text, t: Text)
    requires forall i :: 0 <= i < |t| ==> t[i] != []
    ensures |Flatten(Join(Fields(partial, t)))| <= |Flatten(partial)| + |Flatten(t)|
    decreases |t|
  {
    if t == [] {
      assert Join([partial]) == partial;
    } else if !IsSpaceChar(t[0]) {
      FlattenConcat(partial, [t[0]]);
      JoinIsShort(partial + [t[0]], t[1..]);
    } else {
      var rest := Fields([], t[1..]);
      JoinIsShort([], t[1..]);
      if partial != [] {
        JoinPrepend(partial, rest);
        FlattenConcat(partial, [[0x20]]);
        FlattenConcat(partial + [[0x20]], Join(rest));
      }
    }
  }

  lemma NonSpaceMoved(partial: Text, t: Text)
    requires t != []
    ensures NonSpace(partial + [t[0]]) + NonSpace(t[1..]) == NonSpace(partial) + NonSpace(t)
  {
    NonSpaceConcat(partial, [t[0]]);
    NonSpaceConcat([t[0]], t[1..]);
    HeadAndTail(t);
    Associates(NonSpace(partial), NonSpace([t[0]]), NonSpace(t[1..]));
  }

  lemma HeadAndTail(t: Text)
    requires t != []
    ensures [t[0]] + t[1..] == t
  {
  }

  /** Collapsing white space keeps every other character, in order. */
  lemma {:induction false} JoinKeepsText(partial: Text, t: Text)
    ensures NonSpace(Join(Fields(partial, t))) == NonSpace(partial) + NonSpace(t)
    decreases |t|
  {
    if t == [] {
      assert Join([partial]) == partial;
    } else if !IsSpaceChar(t[0]) {
      JoinKeepsText(partial + [t[0]], t[1..]);
      NonSpaceMoved(partial, t);
    } else {
      JoinKeepsText([], t[1..]);
      if partial != [] { NonSpaceJoined(partial, Fields([], t[1..])); }
    }
  }

  lemma NonSpaceJoined(field: Text, fields: seq<Text>)
    ensures NonSpace(Join([field] + fields)) == NonSpace(field) + NonSpace(Join(fields))
  {
    JoinPrepend(field, fields);
    if fields != [] {
      var space: Text := [[0x20]];
      assert NonSpace(space) == [];
      NonSpaceConcat(field, space);
      NonSpaceConcat(field + space, Join(fields));
    }
  }

  /** It adds only characters. */
  lemma {:induction false} JoinAddsChars(partial: Text, t: Text)
    requires AllChars(partial) && AllChars(t)
    ensures AllChars(Join(Fields(partial, t)))
    decreases |t|
  {
    if t == [] {
      assert Join([partial]) == partial;
    } else if !IsSpaceChar(t[0]) {
      AllCharsConcat(partial, [t[0]]);
      JoinAddsChars(partial + [t[0]], t[1..]);
    } else {
      var rest := Fields([], t[1..]);
      JoinAddsChars([], t[1..]);
      if partial != [] {
        JoinPrepend(partial, rest);
        assert IsChar([0x20]);
        AllCharsConcat(partial, [[0x20]]);
        AllCharsConcat(partial + [[0x20]], Join(rest));
      }
    }
  }

  lemma {:induction false} CharsFlatten(s: Bytes)
    ensures Flatten(Chars(s)) == s
    ensures forall i :: 0 <= i < |Chars(s)| ==> Chars(s)[i] != []
    ensures Valid(s) ==> AllChars(Chars(s))
    decreases |s|
  {
    if s != [] {
      CharsFlatten(s[Width(s)..]);
      if Valid(s) { CharLenPrefix(s, Width(s)); }
    }
  }

  lemma {:induction false} CharsAreValid(t: Text)
    requires AllChars(t)
    ensures Valid(Flatten(t))
  {
    if t != [] {
      CharsAreValid(t[1..]);
      CharIsValid(t[0]);
      ValidConcat(t[0], Flatten(t[1..]));
    }
  }

  lemma CharIsValid(c: Bytes)
    requires IsChar(c)
    ensures Valid(c)
  {
    assert c[|c|..] == [];
  }

  /** What collapsing does to a valid window. */
  lemma CollapseKeepsText(s: Bytes)
    requires Valid(s)
    ensures |Flatten(Collapsed(s))| <= |s| && Valid(Flatten(Collapsed(s)))
    ensures NonSpace(Collapsed(s)) == NonSpace(Chars(s))
  {
    CharsFlatten(s);
    JoinIsShort([], Chars(s));
    JoinKeepsText([], Chars(s));
    JoinAddsChars([], Chars(s));
    CharsAreValid(Collapsed(s));
  }

  function Tidy(t: Text): Text {
    Join(Fields([], t))
  }

  ghost predicate IsWord(t: Text) {
    t != [] && forall i :: 0 <= i < |t| ==> !IsSpaceChar(t[i])
  }

  lemma {:induction false} FieldsSplit(partial: Text, a: Text, space: Bytes, b: Text)
    requires IsSpaceChar(space)
    ensures Fields(partial, a + [space] + b) == Fields(partial, a) + Fields([], b)
    decreases |a|
  {
    var t := a + [space] + b;
    if a == [] {
      assert t[1..] == b;
    } else {
      assert t[1..] == a[1..] + [space] + b;
      FieldsSplit(if IsSpaceChar(a[0]) then [] else partial + [a[0]], a[1..], space, b);
    }
  }

  lemma {:induction false} FieldsOfWord(partial: Text, t: Text)
    requires forall i :: 0 <= i < |t| ==> !IsSpaceChar(t[i])
    ensures Fields(partial, t) == if partial + t == [] then [] else [partial + t]
    decreases |t|
  {
    if t == [] {
      assert partial + t == partial;
    } else {
      FieldsOfWord(partial + [t[0]], t[1..]);
      assert partial + [t[0]] + t[1..] == partial + t;
    }
  }

  lemma {:induction false} FieldsAreNotEmpty(partial: Text, t: Text)
    ensures forall i :: 0 <= i < |Fields(partial, t)| ==> Fields(partial, t)[i] != []
    decreases |t|
  {
    if t != [] {
      FieldsAreNotEmpty(if IsSpaceChar(t[0]) then [] else partial + [t[0]], t[1..]);
    }
  }

  lemma {:induction false} JoinSplit(f: seq<Text>, g: seq<Text>)
    requires forall i :: 0 <= i < |f| ==> f[i] != []
    ensures Join(f) == [] <==> f == []
    ensures Join(f + g) == if f == [] then Join(g) else if g == [] then Join(f) else Join(f) + [[0x20]] + Join(g)
  {
    if f == [] {
      assert f + g == g;
    } else {
      assert (f + g)[1..] == f[1..] + g;
      JoinSplit(f[1..], g);
      if g == [] { assert f + g == f; }
    }
  }

  /** Collapsing keeps the words and puts one space between each two, whatever
      white space stood between, before and behind them. */
  lemma TidyWords(w: Text, a: Text, space: Bytes, b: Text)
    requires IsWord(w) && IsSpaceChar(space)
    ensures Tidy([]) == [] && Tidy(w) == w
    ensures Tidy(a + [space] + b)
            == if Tidy(a) == [] then Tidy(b) else if Tidy(b) == [] then Tidy(a) else Tidy(a) + [[0x20]] + Tidy(b)
  {
    FieldsOfWord([], w);
    assert [] + w == w;
    FieldsSplit([], a, space, b);
    FieldsAreNotEmpty([], a);
    FieldsAreNotEmpty([], b);
    JoinSplit(Fields([], a), Fields([], b));
    JoinSplit(Fields([], b), []);
  }

  /** Both ends of an excerpt show by three dots that text is missing there. */
  lemma DotsShowCuts(content: Bytes, w: Span)
    requires w.start <= w.end <= |content|
    ensures Render(content, w) == (if w.start == 0 then [] else [0x2E, 0x2E, 0x2E])
                                  + Flatten(Tidy(Chars(content[w.start..w.end])))
                                  + (if w.end == |content| then [] else [0x2E, 0x2E, 0x2E])
  {
  }

  /** An excerpt of valid text is valid, at most 306 bytes, and quotes, with its white
      space collapsed and nothing else left out, the window of the first hit that
      covers the most terms. */
  lemma ExcerptQuotesWindow(q: Scan)
    requires SpansIn(q) && Valid(q.content)
    requires forall i :: 0 <= i < |q.spans| ==> Boundary(q.content, q.spans[i].start) && Boundary(q.content, q.spans[i].end)
    ensures
      var best := BestWindow(q);
      var quoted := q.content[best.window.start..best.window.end];
      && |ExcerptOf(q.content, best)| <= EXCERPT_LENGTH + 6 && Valid(ExcerptOf(q.content, best))
      && (best.count > 0 ==>
            && Valid(quoted) && NonSpace(Collapsed(quoted)) == NonSpace(Chars(quoted))
            && ExcerptOf(q.content, best)
               == Dots(best.window.start > 0) + Flatten(Collapsed(quoted)) + Dots(best.window.end < |q.content|))
  {
    var best := BestWindow(q);
    if best.count > 0 {
      var k := BestIsFirst(Candidates(q.content, Hits(q)));
      HitOnToken(q, k);
      WindowHoldsAnchor(q.content, Hits(q)[k].span);
      RenderQuotes(q.content, best.window);
    }
  }

  lemma RenderQuotes(content: Bytes, w: Span)
    requires w.start <= w.end <= |content| && w.end - w.start <= EXCERPT_LENGTH && Valid(content[w.start..w.end])
    ensures |Render(content, w)| <= EXCERPT_LENGTH + 6 && Valid(Render(content, w))
    ensures NonSpace(Collapsed(content[w.start..w.end])) == NonSpace(Chars(content[w.start..w.end]))
  {
    var before, text, behind := Dots(w.start > 0), Flatten(Collapsed(content[w.start..w.end])), Dots(w.end < |content|);
    CollapseKeepsText(content[w.start..w.end]);
    DotsAreValid();
    ValidConcat(before, text);
    ValidConcat(before + text, behind);
  }

  lemma DotsAreValid()
    ensures Valid(Dots(true)) && Valid(Dots(false))
  {
    var dot: Bytes := [0x2E];
    CharIsValid(dot);
    ValidConcat(dot, dot);
    ValidConcat(dot + dot, dot);
    assert ELLIPSIS == dot + dot + dot;
  }

  /** Every hit is on a token. */
  lemma HitOnToken(q: Scan, k: nat)
    requires SpansIn(q) && k < |Hits(q)|
    ensures Hits(q)[k].span in q.spans
  {
    var capped := q.(terms := if q.terms < MAX_QUERY_TERMS then q.terms else MAX_QUERY_TERMS);
    HitsAreFirstOccurrences(capped, |q.spans|, 0, Hits(q)[k]);
  }

  // ------------------------------------------------------------------
  // Keeping the head of a long body
  // ------------------------------------------------------------------

  method TruncateUtf8(s: Bytes, limit: nat) returns (r: Bytes)
    ensures r == s[..if |s| <= limit then |s| else Back(s, 0, limit)]
  {
    if |s| <= limit {
      return s;
    }
    var n: nat := limit;
    while n > 0 && !RuneStart(s[n])
      invariant n <= limit
      invariant Back(s, 0, n) == Back(s, 0, limit)
    {
      n := n - 1;
    }
    return s[..n];
  }

  /** Cutting valid text leaves valid text, at most three bytes short of the limit. */
  lemma TruncationIsValid(s: Bytes, limit: nat)
    requires Valid(s) && limit < |s|
    ensures limit - 3 <= Back(s, 0, limit) <= limit
    ensures Valid(s[..Back(s, 0, limit)])
  {
    StartIsBoundary(s);
    BoundaryNear(s, limit);
    BoundarySplits(s, Back(s, 0, limit));
  }
}
