/**
 Reading a page in windows: paginate of pkg/registry/docs/docs_tools.go and the
 way getDoc hands out the offset to continue from.
 */
module Pagination {
  import opened Utf8
  import opened Sequences

  datatype Window = Window(page: Bytes, next: nat)

  /** Where the window at start begins: at the first boundary from there. */
  function PageStart(content: Bytes, start: int): (r: nat)
    ensures r <= |content|
  {
    var at := if start < 0 then 0 else start;
    if at > |content| then |content| else Forward(content, at, |content|)
  }

  /** Where a window ends: at the last boundary that the budget reaches. A budget
      of 0 means no limit. */
  function PageEnd(content: Bytes, from: nat, maxLength: int): (r: nat)
    requires from <= |content|
    ensures from <= r <= |content|
  {
    if maxLength <= 0 || maxLength >= |content| - from then |content|
    else Back(content, from, from + maxLength)
  }

  function Page(content: Bytes, start: int, maxLength: int): Window {
    var from := PageStart(content, start);
    var end := PageEnd(content, from, maxLength);
    Window(content[from..end], end)
  }

  /** From here on, the window is found to begin at a given offset. */
  predicate StartsFrom(content: Bytes, from: nat, begin: nat) {
    begin == if from > |content| then |content| else Forward(content, from, |content|)
  }

  method Paginate(content: Bytes, start: int, maxLength: int) returns (page: Bytes, next: nat)
    ensures Window(page, next) == Page(content, start, maxLength)
  {
    var from := if start < 0 then 0 else start;
    ghost var begin := PageStart(content, start);
    while from < |content| && !RuneStart(content[from])
      invariant StartsFrom(content, from, begin)
    {
      from := from + 1;
    }
    if from >= |content| {
      return [], |content|;
    }
    if maxLength <= 0 || maxLength >= |content| - from {
      return content[from..], |content|;
    }
    var end := from + maxLength;
    ghost var last := Back(content, from, end);
    while end > from && !RuneStart(content[end])
      invariant from <= end < |content|
      invariant Back(content, from, end) == last
    {
      end := end - 1;
    }
    return content[from..end], end;
  }

  /** What getDoc answers for a page that was fetched. */
  datatype Answer =
    | PastEnd
    | BudgetTooSmall
    | Last(page: Bytes)
    | More(page: Bytes, next: nat)

  function GetDoc(content: Bytes, start: nat, maxLength: nat): (r: Answer)
    ensures r.More? ==> start < r.next < |content|
  {
    if start >= |content| && start > 0 then PastEnd
    else
      var w := Page(content, start, maxLength);
      if w.next >= |content| then Last(w.page)
      else if w.page == [] then BudgetTooSmall
      else More(w.page, w.next)
  }

  /** The pages obtained by following the returned offsets; None if a call fails. */
  function Read(content: Bytes, start: nat, maxLength: nat): Option<seq<Bytes>>
    decreases |content| - start
  {
    match GetDoc(content, start, maxLength)
    case Last(page) => Some([page])
    case More(page, next) =>
      var rest := Read(content, next, maxLength);
      if rest.Some? then Some([page] + rest.value) else None
    case _ => None
  }

  function Concat(pages: seq<Bytes>): Bytes {
    if pages == [] then [] else pages[0] + Concat(pages[1..])
  }

  /** A character longer than the budget. */
  predicate TooLongAt(content: Bytes, i: nat, maxLength: nat)
    requires i < |content|
  {
    Boundary(content, i) && CharLen(content[i..]) > maxLength
  }

  // ------------------------------------------------------------------

  /** One call on valid text, from a boundary: it advances past whole characters
      and as far as the budget allows, unless the next character does not fit. */
  lemma PageAdvances(content: Bytes, start: nat, maxLength: nat)
    requires Valid(content) && start < |content| && Boundary(content, start) && maxLength > 0
    ensures
      var w := Page(content, start, maxLength);
      && start <= w.next <= |content| && w.page == content[start..w.next]
      && |w.page| <= maxLength
      && Boundary(content, w.next) && Valid(w.page)
      && (forall j :: w.next < j <= |content| && Boundary(content, j) ==> j - start > maxLength)
      && (w.next == start <==> CharLen(content[start..]) > maxLength)
  {
    var next := PageEnd(content, start, maxLength);
    assert PageStart(content, start) == start;
    ValidBetween(content, start, next);
    FirstCharFits(content, start, next, maxLength);
  }

  lemma FirstCharFits(content: Bytes, start: nat, next: nat, maxLength: nat)
    requires Valid(content) && start < |content| && start <= next <= |content|
    requires Boundary(content, start) && Boundary(content, next) && next - start <= maxLength
    requires forall j :: next < j <= |content| && Boundary(content, j) ==> j - start > maxLength
    ensures next == start <==> CharLen(content[start..]) > maxLength
  {
    CharEndsBy(content, start, if next == start then |content| else next);
  }

  /** An offset inside a character moves to the next one; nothing else is skipped. */
  lemma PageFromInside(content: Bytes, start: nat, maxLength: nat)
    requires start <= |content|
    ensures Page(content, start, maxLength) == Page(content, Forward(content, start, |content|), maxLength)
  {
  }

  /** Every character that starts in [from, to) fits the budget. */
  ghost predicate Fits(content: Bytes, from: nat, to: nat, maxLength: nat)
    requires to <= |content|
  {
    forall i :: from <= i < to ==> !TooLongAt(content, i, maxLength)
  }

  /** Whole characters within the budget that make up a text. */
  ghost predicate PagesOf(pages: seq<Bytes>, text: Bytes, maxLength: nat) {
    Concat(pages) == text && forall i :: 0 <= i < |pages| ==> Valid(pages[i]) && |pages[i]| <= maxLength
  }

  lemma PagesPrepend(page: Bytes, pages: seq<Bytes>, text: Bytes, maxLength: nat)
    requires PagesOf(pages, text, maxLength) && Valid(page) && |page| <= maxLength
    ensures PagesOf([page] + pages, page + text, maxLength)
  {
    assert ([page] + pages)[1..] == pages;
  }

  /** Following the offsets from a boundary succeeds if and only if every character
      from there on fits the budget. */
  lemma {:induction false} ReadSucceeds(content: Bytes, start: nat, maxLength: nat)
    requires Valid(content) && start < |content| && Boundary(content, start) && maxLength > 0
    ensures Read(content, start, maxLength).Some? <==> Fits(content, start, |content|, maxLength)
    decreases |content| - start
  {
    var answer := GetDoc(content, start, maxLength);
    DocAnswers(content, start, maxLength);
    if answer.More? {
      ReadSucceeds(content, answer.next, maxLength);
    }
  }

  /** What it reads is the rest of the page, in windows of whole characters within
      the budget. */
  lemma {:induction false} ReadReassembles(content: Bytes, start: nat, maxLength: nat)
    requires Valid(content) && start < |content| && Boundary(content, start) && maxLength > 0
    requires Read(content, start, maxLength).Some?
    ensures PagesOf(Read(content, start, maxLength).value, content[start..], maxLength)
    decreases |content| - start
  {
    var answer := GetDoc(content, start, maxLength);
    DocAnswers(content, start, maxLength);
    if answer.More? {
      ReadReassembles(content, answer.next, maxLength);
      Extend(content, start, answer.next, Read(content, answer.next, maxLength).value, maxLength);
    } else {
      Extend(content, start, |content|, [], maxLength);
      assert [answer.page] + [] == [answer.page];
    }
  }

  lemma Extend(content: Bytes, start: nat, next: nat, pages: seq<Bytes>, maxLength: nat)
    requires start <= next <= |content| && next - start <= maxLength && Valid(content[start..next])
    requires PagesOf(pages, content[next..], maxLength)
    ensures PagesOf([content[start..next]] + pages, content[start..], maxLength)
  {
    PagesPrepend(content[start..next], pages, content[next..], maxLength);
    assert content[start..] == content[start..next] + content[next..];
  }

  /** What getDoc answers from a boundary inside valid text. */
  lemma DocAnswers(content: Bytes, start: nat, maxLength: nat)
    requires Valid(content) && start < |content| && Boundary(content, start) && maxLength > 0
    ensures
      var r := GetDoc(content, start, maxLength);
      var next := if r.More? then r.next else |content|;
      && !r.PastEnd?
      && (r.BudgetTooSmall? ==> TooLongAt(content, start, maxLength))
      && (r.Last? || r.More? ==>
            && r.page == content[start..next] && Valid(r.page) && |r.page| <= maxLength
            && Boundary(content, next)
            && Fits(content, start, next, maxLength))
  {
    PageAdvances(content, start, maxLength);
    PageFits(content, start, maxLength);
  }

  /** The characters inside a window are no longer than the window. */
  lemma PageFits(content: Bytes, start: nat, maxLength: nat)
    requires Valid(content) && start < |content| && Boundary(content, start) && maxLength > 0
    ensures Fits(content, start, Page(content, start, maxLength).next, maxLength)
  {
    PageAdvances(content, start, maxLength);
    var next := Page(content, start, maxLength).next;
    forall i | start <= i < next ensures !TooLongAt(content, i, maxLength) {
      if Boundary(content, i) { CharEndsBy(content, i, next); }
    }
  }

  /** A page read in windows of at least four bytes, or without a limit, comes back
      whole. */
  lemma RoundTrip(content: Bytes, maxLength: nat)
    requires Valid(content) && (maxLength == 0 || maxLength >= 4)
    ensures
      var r := Read(content, 0, maxLength);
      r.Some? && PagesOf(r.value, content, if maxLength == 0 then |content| else maxLength)
  {
    assert content[0..] == content && content[0..|content|] == content;
    if content != [] { CharEndsBy(content, 0, |content|); }
    if maxLength > 0 {
      if content == [] {
        assert GetDoc(content, 0, maxLength) == Last([]);
        PagesPrepend([], [], [], maxLength);
      } else {
        ReadSucceeds(content, 0, maxLength);
        ReadReassembles(content, 0, maxLength);
      }
    } else {
      assert GetDoc(content, 0, 0) == Last(content);
      PagesPrepend(content, [], [], |content|);
      assert content + [] == content && [content] + [] == [content];
    }
  }

  /** An offset at or behind the end is past it, unless it is 0; an empty page is read at once. */
  lemma PastEndIff(content: Bytes, start: nat, maxLength: nat)
    ensures GetDoc(content, start, maxLength).PastEnd? <==> start > 0 && start >= |content|
    ensures start == |content| == 0 ==> GetDoc(content, start, maxLength) == Last([])
  {
  }

  /** A start below 0 reads as 0, and a limit of 0 or below as none. */
  lemma PageAtLimits(content: Bytes, start: int, maxLength: int)
    ensures start < 0 ==> Page(content, start, maxLength) == Page(content, 0, maxLength)
    ensures maxLength <= 0 ==> Page(content, start, maxLength).next == |content|
    ensures start >= |content| ==> Page(content, start, maxLength) == Window([], |content|)
  {
    assert content[|content|..] == [];
  }
}
