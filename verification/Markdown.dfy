/**
 Cleaning the Markdown of a page, from pkg/registry/docs/docs_client.go: the document is
 split at its fenced code blocks, the prose between them is stripped of HTML outside
 inline code, and the blocks are left as they are.
 */
module Markdown {
  import opened Sequences
  import opened Utf8

  // ------------------------------------------------------------------
  // Lines and fences
  // ------------------------------------------------------------------

  /** The text split at every newline. */
  function Lines(s: string): (r: seq<string>)
    ensures |r| > 0
  {
    if s == [] then [[]]
    else
      var rest := Lines(s[1..]);
      if s[0] == '\n' then [[]] + rest else [[s[0]] + rest[0]] + rest[1..]
  }

  /** The parts with a newline between each two. */
  function JoinLines(parts: seq<string>): string {
    if parts == [] then []
    else if |parts| == 1 then parts[0]
    else parts[0] + "\n" + JoinLines(parts[1..])
  }

  function RunLength(s: string, c: char): (n: nat)
    ensures n <= |s| && (n < |s| ==> s[n] != c)
    ensures forall i :: 0 <= i < n ==> s[i] == c
  {
    if s != [] && s[0] == c then 1 + RunLength(s[1..], c) else 0
  }

  /** A run of at least three backticks or tildes. */
  datatype Fence = Fence(mark: char, length: nat)

  /** The fence at the head of a line, after at most three spaces. */
  function FenceOpen(line: string): Option<Fence> {
    var indent := RunLength(line, ' ');
    if indent > 3 || indent == |line| then None
    else
      var mark := line[indent];
      var length := RunLength(line[indent..], mark);
      if (mark == '`' || mark == '~') && length >= 3 then Some(Fence(mark, length)) else None
  }

  predicate Blank(s: string) {
    forall i :: 0 <= i < |s| ==> s[i] == ' ' || s[i] == '\t'
  }

  /** A fence with nothing behind it. */
  function FenceClose(line: string): Option<Fence> {
    var f := FenceOpen(line);
    if f.Some? && Blank(line[RunLength(line, ' ')..][f.value.length..]) then f else None
  }

  predicate Closes(line: string, fence: Fence) {
    var f := FenceClose(line);
    f.Some? && f.value.mark == fence.mark && f.value.length >= fence.length
  }

  // ------------------------------------------------------------------
  // Segments
  // ------------------------------------------------------------------

  /** A run of lines that is a code block or the prose between two. */
  datatype Group = Group(lines: seq<string>, code: bool)

  function Flush(cur: seq<string>, code: bool): seq<Group> {
    if cur == [] then [] else [Group(cur, code)]
  }

  /** The groups of cur and the lines that follow, where cur is the part already read of
      a block that the fence opened, or of prose. */
  function Groups(lines: seq<string>, cur: seq<string>, fence: Option<Fence>): seq<Group>
    decreases |lines|
  {
    if lines == [] then Flush(cur, fence.Some?)
    else
      var line, rest := lines[0], lines[1..];
      if fence.None? then
        var opening := FenceOpen(line);
        if opening.Some? then Flush(cur, false) + Groups(rest, [line], opening) else Groups(rest, cur + [line], None)
      else
        if Closes(line, fence.value) then [Group(cur + [line], true)] + Groups(rest, [], None)
        else Groups(rest, cur + [line], fence)
  }

  datatype Segment = Segment(text: string, code: bool)

  function SegmentsOf(groups: seq<Group>): (r: seq<Segment>)
    ensures |r| == |groups|
    ensures forall i :: 0 <= i < |r| ==> r[i] == Segment(JoinLines(groups[i].lines), groups[i].code)
  {
    seq(|groups|, i requires 0 <= i < |groups| => Segment(JoinLines(groups[i].lines), groups[i].code))
  }

  function Segments(md: string): seq<Segment> {
    SegmentsOf(Groups(Lines(md), [], None))
  }

  method SplitFencedCode(md: string) returns (segments: seq<Segment>)
    ensures segments == Segments(md)
  {
    segments := [];
    var cur: seq<string> := [];
    var fence: Option<Fence> := None;
    var lines := Lines(md);
    ghost var whole := Groups(lines, [], None);
    ghost var done: seq<Group> := [];
    for i := 0 to |lines|
      invariant Splits(whole, done, lines[i..], cur, fence)
      invariant segments == SegmentsOf(done)
    {
      var line := lines[i];
      assert lines[i..][0] == line && lines[i..][1..] == lines[i + 1..] && [] + [line] == [line];
      if fence.None? {
        var opening := FenceOpen(line);
        if opening.Some? {
          SplitsOpen(whole, done, lines[i..], cur);
          if cur != [] {
            SegmentsOfAppend(done, Group(cur, false));
            segments := segments + [Segment(JoinLines(cur), false)];
            done := done + [Group(cur, false)];
            cur := [];
          }
          fence := opening;
        } else {
          SplitsMore(whole, done, lines[i..], cur, fence);
        }
        cur := cur + [line];
      } else {
        var closes := Closes(line, fence.value);
        if closes {
          SplitsClose(whole, done, lines[i..], cur, fence.value);
        } else {
          SplitsMore(whole, done, lines[i..], cur, fence);
        }
        cur := cur + [line];
        if closes {
          SegmentsOfAppend(done, Group(cur, true));
          segments := segments + [Segment(JoinLines(cur), true)];
          done := done + [Group(cur, true)];
          cur := [];
          fence := None;
        }
      }
    }
    assert lines[|lines|..] == [];
    if cur != [] {
      SegmentsOfAppend(done, Group(cur, fence.Some?));
      segments := segments + [Segment(JoinLines(cur), fence.Some?)];
    }
  }

  // One line of the split, seen behind the groups that are done

  /** The groups done and those of the lines to come make up the whole. */
  ghost predicate Splits(whole: seq<Group>, done: seq<Group>, lines: seq<string>, cur: seq<string>, fence: Option<Fence>) {
    whole == done + Groups(lines, cur, fence)
  }

  lemma SplitsOpen(whole: seq<Group>, done: seq<Group>, lines: seq<string>, cur: seq<string>)
    requires lines != [] && FenceOpen(lines[0]).Some? && Splits(whole, done, lines, cur, None)
    ensures Splits(whole, if cur == [] then done else done + [Group(cur, false)], lines[1..], [lines[0]], FenceOpen(lines[0]))
  {
    Behind(done, Flush(cur, false), Groups(lines[1..], [lines[0]], FenceOpen(lines[0])));
  }

  lemma SplitsClose(whole: seq<Group>, done: seq<Group>, lines: seq<string>, cur: seq<string>, fence: Fence)
    requires lines != [] && Closes(lines[0], fence) && Splits(whole, done, lines, cur, Some(fence))
    ensures Splits(whole, done + [Group(cur + [lines[0]], true)], lines[1..], [], None)
  {
    Behind(done, [Group(cur + [lines[0]], true)], Groups(lines[1..], [], None));
  }

  lemma SplitsMore(whole: seq<Group>, done: seq<Group>, lines: seq<string>, cur: seq<string>, fence: Option<Fence>)
    requires lines != [] && Splits(whole, done, lines, cur, fence)
    requires if fence.None? then FenceOpen(lines[0]).None? else !Closes(lines[0], fence.value)
    ensures Splits(whole, done, lines[1..], cur + [lines[0]], fence)
  {
  }

  lemma Behind(done: seq<Group>, g: seq<Group>, rest: seq<Group>)
    ensures done + (g + rest) == done + g + rest
    ensures g == [] ==> done + g == done
  {
  }

  lemma SegmentsOfAppend(done: seq<Group>, g: Group)
    ensures SegmentsOf(done + [g]) == SegmentsOf(done) + [Segment(JoinLines(g.lines), g.code)]
  {
  }

  // What the segments are

  lemma {:induction false} LinesJoin(s: string)
    ensures JoinLines(Lines(s)) == s
  {
    if s != [] {
      LinesJoin(s[1..]);
      var rest := Lines(s[1..]);
      assert ([[s[0]] + rest[0]] + rest[1..])[1..] == rest[1..];
      assert ([[]] + rest)[1..] == rest;
    }
  }

  function AllLines(groups: seq<Group>): seq<string> {
    if groups == [] then [] else groups[0].lines + AllLines(groups[1..])
  }

  function Texts(segments: seq<Segment>): (r: seq<string>)
    ensures |r| == |segments|
    ensures forall i :: 0 <= i < |r| ==> r[i] == segments[i].text
  {
    seq(|segments|, i requires 0 <= i < |segments| => segments[i].text)
  }

  ghost predicate NoneEmpty(groups: seq<Group>) {
    forall i :: 0 <= i < |groups| ==> groups[i].lines != []
  }

  lemma {:induction false} GroupsKeepLines(lines: seq<string>, cur: seq<string>, fence: Option<Fence>)
    requires fence.Some? ==> cur != []
    ensures AllLines(Groups(lines, cur, fence)) == cur + lines
    ensures NoneEmpty(Groups(lines, cur, fence))
    decreases |lines|
  {
    if lines == [] {
      AllLinesPrepend(cur, fence.Some?, []);
      assert Flush(cur, fence.Some?) + [] == Flush(cur, fence.Some?);
    } else {
      var line, rest := lines[0], lines[1..];
      assert lines == [line] + rest;
      Associates(cur, [line], rest);
      if fence.None? && FenceOpen(line).Some? {
        GroupsKeepLines(rest, [line], FenceOpen(line));
        AllLinesPrepend(cur, false, Groups(rest, [line], FenceOpen(line)));
      } else if fence.Some? && Closes(line, fence.value) {
        GroupsKeepLines(rest, [], None);
        AllLinesPrepend(cur + [line], true, Groups(rest, [], None));
        assert [] + rest == rest;
      } else {
        GroupsKeepLines(rest, cur + [line], fence);
      }
    }
  }

  lemma AllLinesPrepend(cur: seq<string>, code: bool, groups: seq<Group>)
    ensures AllLines(Flush(cur, code) + groups) == cur + AllLines(groups)
  {
    if cur == [] {
      assert [] + groups == groups;
    } else {
      assert ([Group(cur, code)] + groups)[1..] == groups;
    }
  }

  lemma {:induction false} JoinLinesConcat(a: seq<string>, b: seq<string>)
    requires a != [] && b != []
    ensures JoinLines(a + b) == JoinLines(a) + "\n" + JoinLines(b)
  {
    if |a| == 1 {
      assert (a + b)[1..] == b;
    } else {
      JoinLinesConcat(a[1..], b);
      assert (a + b)[1..] == a[1..] + b;
    }
  }

  lemma {:induction false} AllLinesNonempty(groups: seq<Group>)
    requires groups != [] && NoneEmpty(groups)
    ensures AllLines(groups) != []
  {
  }

  lemma {:induction false} SegmentsJoin(groups: seq<Group>)
    requires NoneEmpty(groups)
    ensures JoinLines(Texts(SegmentsOf(groups))) == JoinLines(AllLines(groups))
  {
    if groups != [] {
      var rest := groups[1..];
      SegmentsJoin(rest);
      assert Texts(SegmentsOf(groups))[1..] == Texts(SegmentsOf(rest));
      if rest == [] {
        assert AllLines(groups) == groups[0].lines;
      } else {
        AllLinesNonempty(rest);
        JoinLinesConcat(groups[0].lines, AllLines(rest));
      }
    }
  }

  /** Joining the segments with newlines gives back the document. */
  lemma SegmentsRoundTrip(md: string)
    ensures JoinLines(Texts(Segments(md))) == md
  {
    GroupsKeepLines(Lines(md), [], None);
    assert [] + Lines(md) == Lines(md);
    SegmentsJoin(Groups(Lines(md), [], None));
    LinesJoin(md);
  }

  /** Prose that no fence opens in. */
  ghost predicate IsProse(lines: seq<string>) {
    forall i :: 0 <= i < |lines| ==> FenceOpen(lines[i]).None?
  }

  /** A block from its opening fence to its first closing one, or to the end. */
  ghost predicate IsBlock(lines: seq<string>, atEnd: bool) {
    && lines != [] && FenceOpen(lines[0]).Some?
    && (forall i :: 0 < i < |lines| - 1 ==> !Closes(lines[i], FenceOpen(lines[0]).value))
    && ((|lines| > 1 && Closes(lines[|lines| - 1], FenceOpen(lines[0]).value)) || atEnd)
  }

  ghost predicate WellSegmented(groups: seq<Group>) {
    forall i :: 0 <= i < |groups| ==>
      if groups[i].code then IsBlock(groups[i].lines, i == |groups| - 1) else IsProse(groups[i].lines)
  }

  lemma WellSegmentedPrepend(g: Group, groups: seq<Group>)
    requires WellSegmented(groups)
    requires if g.code then IsBlock(g.lines, false) else IsProse(g.lines)
    ensures WellSegmented([g] + groups)
  {
    var all := [g] + groups;
    forall i | 0 <= i < |all|
      ensures if all[i].code then IsBlock(all[i].lines, i == |all| - 1) else IsProse(all[i].lines)
    {
      if i > 0 { assert all[i] == groups[i - 1]; }
    }
  }

  /** What has been read of a block or of prose so far. */
  ghost predicate Partial(cur: seq<string>, fence: Option<Fence>) {
    if fence.None? then IsProse(cur)
    else cur != [] && FenceOpen(cur[0]) == fence && forall i :: 0 < i < |cur| ==> !Closes(cur[i], fence.value)
  }

  /** Every code segment runs from an opening fence to its first closing one, or to the
      end of the document, and no line of the prose opens a fence. */
  lemma {:induction false} GroupsAreWellSegmented(lines: seq<string>, cur: seq<string>, fence: Option<Fence>)
    requires Partial(cur, fence)
    ensures WellSegmented(Groups(lines, cur, fence))
    decreases |lines|
  {
    if lines != [] {
      var line, rest := lines[0], lines[1..];
      if fence.None? && FenceOpen(line).Some? {
        GroupsAreWellSegmented(rest, [line], FenceOpen(line));
        var groups := Groups(rest, [line], FenceOpen(line));
        if cur == [] { assert [] + groups == groups; } else { WellSegmentedPrepend(Group(cur, false), groups); }
      } else if fence.Some? && Closes(line, fence.value) {
        GroupsAreWellSegmented(rest, [], None);
        WellSegmentedPrepend(Group(cur + [line], true), Groups(rest, [], None));
      } else {
        GroupsAreWellSegmented(rest, cur + [line], fence);
      }
    }
  }

  // ------------------------------------------------------------------
  // Subsequences
  // ------------------------------------------------------------------

  /** a is b with characters left out. */
  predicate Sub(a: string, b: string) {
    a == [] || (b != [] && ((a[0] == b[0] && Sub(a[1..], b[1..])) || Sub(a, b[1..])))
  }

  lemma {:induction false} SubSelf(a: string)
    ensures Sub(a, a)
  {
    if a != [] { SubSelf(a[1..]); }
  }

  lemma {:induction false} SubTail(a: string, b: string)
    requires a != [] && Sub(a, b)
    ensures Sub(a[1..], b)
  {
    if a[0] == b[0] && Sub(a[1..], b[1..]) {
      SubMore(a[1..], [b[0]], b[1..]);
      assert [b[0]] + b[1..] == b;
    } else {
      SubTail(a, b[1..]);
    }
  }

  lemma {:induction false} SubMore(a: string, more: string, b: string)
    requires Sub(a, b)
    ensures Sub(a, more + b)
  {
    if more == [] {
      assert more + b == b;
    } else {
      SubMore(a, more[1..], b);
      assert (more + b)[1..] == more[1..] + b;
    }
  }

  lemma {:induction false} SubConcat(a: string, b: string, c: string, d: string)
    requires Sub(a, b) && Sub(c, d)
    ensures Sub(a + c, b + d)
    decreases |b|
  {
    if a == [] {
      assert a + c == c;
      SubMore(c, b, d);
    } else {
      assert (b + d)[1..] == b[1..] + d;
      if a[0] == b[0] && Sub(a[1..], b[1..]) {
        SubConcat(a[1..], b[1..], c, d);
        assert (a + c)[1..] == a[1..] + c;
      } else {
        SubConcat(a, b[1..], c, d);
      }
    }
  }

  lemma {:induction false} SubTransitive(a: string, b: string, c: string)
    requires Sub(a, b) && Sub(b, c)
    ensures Sub(a, c)
    decreases |c|
  {
    if a != [] {
      if b[0] == c[0] && Sub(b[1..], c[1..]) {
        if a[0] == b[0] && Sub(a[1..], b[1..]) {
          SubTransitive(a[1..], b[1..], c[1..]);
        } else {
          SubTransitive(a, b[1..], c[1..]);
        }
      } else {
        SubTransitive(a, b, c[1..]);
      }
    }
  }

  /** The number of backticks. */
  function Ticks(s: string): nat {
    if s == [] then 0 else (if s[0] == '`' then 1 else 0) + Ticks(s[1..])
  }

  lemma {:induction false} TicksConcat(a: string, b: string)
    ensures Ticks(a + b) == Ticks(a) + Ticks(b)
  {
    if a == [] {
      assert a + b == b;
    } else {
      assert (a + b)[1..] == a[1..] + b;
      TicksConcat(a[1..], b);
    }
  }

  lemma {:induction false} NoTicks(s: string)
    requires '`' !in s
    ensures Ticks(s) == 0
  {
    if s != [] { NoTicks(s[1..]); }
  }

  lemma {:induction false} SubMember(a: string, b: string, c: char)
    requires Sub(a, b) && c in a
    ensures c in b
    decreases |b|
  {
    if a[0] == b[0] && Sub(a[1..], b[1..]) {
      if c != a[0] { SubMember(a[1..], b[1..], c); }
    } else {
      SubMember(a, b[1..], c);
    }
  }

  /** a is b with characters left out, none of them a backtick. */
  ghost predicate Cleans(a: string, b: string) {
    Sub(a, b) && Ticks(a) == Ticks(b)
  }

  lemma CleansConcat(a: string, b: string, c: string, d: string)
    requires Cleans(a, b) && Cleans(c, d)
    ensures Cleans(a + c, b + d)
  {
    SubConcat(a, b, c, d);
    TicksConcat(a, c);
    TicksConcat(b, d);
  }

  lemma CleansSelf(a: string)
    ensures Cleans(a, a)
  {
    SubSelf(a);
  }

  lemma CleansTransitive(a: string, b: string, c: string)
    requires Cleans(a, b) && Cleans(b, c)
    ensures Cleans(a, c)
  {
    SubTransitive(a, b, c);
  }

  /** Dropping a part without backticks. */
  lemma CleansDrop(dropped: string, b: string)
    requires '`' !in dropped
    ensures Cleans(b, dropped + b) && Cleans(b, b + dropped)
  {
    NoTicks(dropped);
    TicksConcat(dropped, b);
    TicksConcat(b, dropped);
    SubSelf(b);
    SubMore(b, dropped, b);
    SubConcat(b, b, [], dropped);
    assert b + [] == b;
  }

  // ------------------------------------------------------------------
  // Stripping HTML
  // ------------------------------------------------------------------

  predicate Letter(c: char) {
    'a' <= c <= 'z' || 'A' <= c <= 'Z'
  }

  predicate Alphanumeric(c: char) {
    Letter(c) || '0' <= c <= '9'
  }

  predicate Angle(c: char) {
    c == '<' || c == '>'
  }

  predicate NotAngle(c: char) {
    !Angle(c)
  }

  predicate NotTick(c: char) {
    c != '`'
  }

  /** What \s matches in a regular expression. */
  predicate White(c: char) {
    c == ' ' || c == '\t' || c == '\n' || c == '\U{0C}' || c == '\r'
  }

  /** How many characters from i on satisfy p. */
  function Span(s: string, i: nat, p: char -> bool): (j: nat)
    requires i <= |s|
    ensures i <= j <= |s| && (j < |s| ==> !p(s[j]))
    ensures forall k :: i <= k < j ==> p(s[k])
    decreases |s| - i
  {
    if i < |s| && p(s[i]) then Span(s, i + 1, p) else i
  }

  predicate Prefix(s: string, t: string) {
    |t| <= |s| && s[..|t|] == t
  }

  predicate Occurs(t: string, s: string, i: nat) {
    i + |t| <= |s| && s[i..i + |t|] == t
  }

  /** Where t first occurs in s. */
  function IndexOf(s: string, t: string): (r: Option<nat>)
    ensures r.Some? ==> r.value + |t| <= |s|
  {
    if Occurs(t, s, 0) then Some(0)
    else if s == [] then None
    else
      var rest := IndexOf(s[1..], t);
      if rest.Some? then Some(rest.value + 1) else None
  }

  /** t occurs first at e. */
  ghost predicate FirstAt(s: string, e: nat, t: string) {
    Occurs(t, s, e) && forall i :: 0 <= i < e ==> !Occurs(t, s, i)
  }

  lemma OccursBehind(t: string, s: string, i: nat)
    requires s != []
    ensures Occurs(t, s, i + 1) <==> Occurs(t, s[1..], i)
  {
    if i + 1 + |t| <= |s| { assert s[i + 1..i + 1 + |t|] == s[1..][i..i + |t|]; }
  }

  lemma FirstBehind(s: string, e: nat, t: string)
    requires s != [] && e > 0
    ensures FirstAt(s, e, t) <==> !Occurs(t, s, 0) && FirstAt(s[1..], e - 1, t)
  {
    forall i: nat | i < e
      ensures Occurs(t, s, i + 1) <==> Occurs(t, s[1..], i)
    {
      OccursBehind(t, s, i);
    }
    assert forall i: nat :: 0 < i <= e ==> (Occurs(t, s, i) <==> Occurs(t, s[1..], i - 1));
  }

  lemma {:induction false} IndexIsFirst(s: string, e: nat, t: string)
    ensures IndexOf(s, t) == Some(e) <==> FirstAt(s, e, t)
  {
    if s != [] && e > 0 {
      IndexIsFirst(s[1..], e - 1, t);
      FirstBehind(s, e, t);
    }
  }

  function Lower(c: char): char {
    if 'A' <= c <= 'Z' then c - 'A' + 'a' else c
  }

  function LowerAll(s: string): (r: string)
    ensures |r| == |s|
  {
    seq(|s|, i requires 0 <= i < |s| => Lower(s[i]))
  }

  datatype Markup = Comment | Doctype | Tag

  /** The length of the comment at the head of s, or 0. */
  function CommentLength(s: string): (n: nat)
    ensures n <= |s|
  {
    if !Prefix(s, "<!--") then 0
    else
      var end := IndexOf(s[4..], "-->");
      if end.Some? then 4 + end.value + 3 else 0
  }

  /** The length of the document type at the head of s, in any case, or 0. */
  function DoctypeLength(s: string): (n: nat)
    ensures n <= |s|
  {
    if |s| < 9 || LowerAll(s[..9]) != "<!doctype" then 0
    else
      var end := Span(s, 9, NotAngle);
      if end < |s| && s[end] == '>' then end + 1 else 0
  }

  /** The length of the tag at the head of s, or 0. */
  function TagLength(s: string): (n: nat)
    ensures n <= |s|
  {
    var start := if |s| > 1 && s[1] == '/' then 2 else 1;
    if |s| <= start || s[0] != '<' || !Letter(s[start]) then 0
    else
      var name := Span(s, start, Alphanumeric);
      if name == |s| then 0
      else if White(s[name]) then
        var end := Span(s, name, NotAngle);
        if end < |s| && s[end] == '>' then end + 1 else 0
      else if s[name] == '>' then name + 1
      else if s[name] == '/' && name + 1 < |s| && s[name + 1] == '>' then name + 2
      else 0
  }

  function MarkupLength(s: string, kind: Markup): (n: nat)
    ensures n <= |s|
  {
    match kind
    case Comment => CommentLength(s)
    case Doctype => DoctypeLength(s)
    case Tag => TagLength(s)
  }

  /** s without the markup of one kind, taken from the left. */
  function Strip(s: string, kind: Markup): string {
    if s == [] then []
    else
      var n := MarkupLength(s, kind);
      if n > 0 then Strip(s[n..], kind) else [s[0]] + Strip(s[1..], kind)
  }

  function StripHTMLFragment(s: string): string {
    Strip(Strip(Strip(s, Comment), Doctype), Tag)
  }

  lemma {:induction false} StripDeletes(s: string, kind: Markup)
    ensures Sub(Strip(s, kind), s)
  {
    if s != [] {
      var n := MarkupLength(s, kind);
      if n > 0 {
        StripDeletes(s[n..], kind);
        SubMore(Strip(s[n..], kind), s[..n], s[n..]);
        assert s[..n] + s[n..] == s;
      } else {
        StripDeletes(s[1..], kind);
      }
    }
  }

  predicate MarkupAt(s: string, i: nat, kind: Markup)
    requires i <= |s|
  {
    MarkupLength(s[i..], kind) > 0
  }

  lemma MarkupBehind(s: string, i: nat, kind: Markup)
    requires 0 < i <= |s|
    ensures MarkupAt(s, i, kind) <==> MarkupAt(s[1..], i - 1, kind)
  {
    assert s[i..] == s[1..][i - 1..];
  }

  /** Text is kept exactly when no markup starts anywhere in it. */
  lemma {:induction false} StripKeeps(s: string, kind: Markup)
    ensures Strip(s, kind) == s <==> forall i :: 0 <= i < |s| ==> !MarkupAt(s, i, kind)
  {
    if s != [] {
      var n := MarkupLength(s, kind);
      assert s[0..] == s;
      if n > 0 {
        assert MarkupAt(s, 0, kind);
        StripDeletes(s[n..], kind);
        SubShorter(Strip(s[n..], kind), s[n..]);
      } else {
        StripKeeps(s[1..], kind);
        forall i | 0 < i < |s|
          ensures MarkupAt(s, i, kind) <==> MarkupAt(s[1..], i - 1, kind)
        {
          MarkupBehind(s, i, kind);
        }
        assert forall i :: 0 <= i < |s| - 1 ==> (MarkupAt(s[1..], i, kind) <==> MarkupAt(s, i + 1, kind));
      }
    }
  }

  lemma {:induction false} SubShorter(a: string, b: string)
    requires Sub(a, b)
    ensures |a| <= |b|
  {
    if a != [] {
      if a[0] == b[0] && Sub(a[1..], b[1..]) { SubShorter(a[1..], b[1..]); } else { SubShorter(a, b[1..]); }
    }
  }

  lemma FragmentCleans(s: string)
    requires '`' !in s
    ensures Cleans(StripHTMLFragment(s), s)
  {
    var a := Strip(s, Comment);
    var b := Strip(a, Doctype);
    StripDeletes(s, Comment);
    StripDeletes(a, Doctype);
    StripDeletes(b, Tag);
    SubTransitive(b, a, s);
    SubTransitive(Strip(b, Tag), b, s);
    if '`' in Strip(b, Tag) { SubMember(Strip(b, Tag), s, '`'); }
    NoTicks(s);
    NoTicks(Strip(b, Tag));
  }

  /** t is a tag: a name from p to q, attributes from q to r, and the closing bracket. */
  predicate TagParts(t: string, p: nat, q: nat, r: nat) {
    && 0 < p < q <= r < |t| && t[0] == '<' && (p == 1 || (p == 2 && t[1] == '/'))
    && Letter(t[p]) && (forall i :: p <= i < q ==> Alphanumeric(t[i]))
    && (q < r ==> White(t[q])) && (forall i :: q <= i < r ==> !Angle(t[i]))
    && (t[r..] == ">" || t[r..] == "/>")
  }

  /** The tag found has the form of one. */
  lemma TagFoundIsATag(s: string)
    requires TagLength(s) > 0
    ensures exists p: nat, q: nat, r: nat :: TagParts(s[..TagLength(s)], p, q, r)
  {
    var t := s[..TagLength(s)];
    var p := if s[1] == '/' then 2 else 1;
    var q := Span(s, p, Alphanumeric);
    var r := if White(s[q]) then TagLength(s) - 1 else q;
    if White(s[q]) || s[q] == '>' {
      assert |t| == r + 1 && t[r] == '>';
      assert t[r..] == [t[r]];
    } else {
      assert |t| == r + 2 && t[r] == '/' && t[r + 1] == '>';
      assert t[r..] == [t[r], t[r + 1]];
    }
    assert TagParts(t, p, q, r);
  }

  /** Every tag at the head of s is the one found. */
  lemma TagIsFound(s: string, n: nat, p: nat, q: nat, r: nat)
    requires n <= |s| && TagParts(s[..n], p, q, r)
    ensures TagLength(s) == n
  {
    var t := s[..n];
    assert forall i :: 0 <= i < n ==> t[i] == s[i];
    assert t[r..][0] == s[r] && t[r..][|t| - r - 1] == s[n - 1] == '>';
    if n == r + 2 { assert s[r] == '/'; }
    var name := Span(s, p, Alphanumeric);
    assert name == q;
    if White(s[q]) {
      assert Span(s, q, NotAngle) == n - 1;
    }
  }

  // ------------------------------------------------------------------
  // Code spans
  // ------------------------------------------------------------------

  /** A stretch of prose: literal if it begins with a backtick. */
  datatype Piece = Piece(text: string, literal: bool)

  predicate Paragraph(s: string) {
    IndexOf(s, "\n\n").None?
  }

  /** Where a run of backticks is closed: at its first recurrence, if that is in the same
      paragraph. */
  function ClosedAt(rest: string, marker: string): (r: Option<nat>)
    ensures r.Some? ==> r.value + |marker| <= |rest|
  {
    var end := IndexOf(rest, marker);
    if end.Some? && Paragraph(rest[..end.value]) then end else None
  }

  /** The length of the code span at the head of s, or of the backticks alone if none
      closes them within the paragraph. */
  function LiteralLength(s: string): (n: nat)
    requires s != [] && s[0] == '`'
    ensures 0 < n <= |s|
  {
    var run := RunLength(s, '`');
    var end := ClosedAt(s[run..], s[..run]);
    if end.Some? then run + end.value + run else run
  }

  function PlainLength(s: string): (n: nat)
    requires s != [] && s[0] != '`'
    ensures 0 < n <= |s|
    ensures n < |s| ==> s[n] == '`'
    ensures '`' !in s[..n]
  {
    Span(s, 0, NotTick)
  }

  function Pieces(s: string): seq<Piece> {
    if s == [] then []
    else if s[0] == '`' then
      var n := LiteralLength(s);
      [Piece(s[..n], true)] + Pieces(s[n..])
    else
      var n := PlainLength(s);
      [Piece(s[..n], false)] + Pieces(s[n..])
  }

  function Shown(p: Piece): string {
    if p.literal then p.text else StripHTMLFragment(p.text)
  }

  function ShownAll(pieces: seq<Piece>): string {
    if pieces == [] then [] else Shown(pieces[0]) + ShownAll(pieces[1..])
  }

  /** What has been shown, and what the rest shows, make up the whole. */
  ghost predicate Shows(whole: string, out: string, rest: string) {
    whole == out + ShownAll(Pieces(rest))
  }

  method StripHTMLOutsideCodeSpans(s: string) returns (out: string)
    ensures out == ShownAll(Pieces(s))
  {
    out := [];
    var i := 0;
    ghost var whole := ShownAll(Pieces(s));
    assert s[0..] == s;
    while i < |s|
      invariant i <= |s|
      invariant Shows(whole, out, s[i..])
    {
      var here := s[i..];
      if here[0] != '`' {
        var next := i + PlainLength(here);
        PlainShows(whole, out, s, i, next);
        out := out + StripHTMLFragment(here[..PlainLength(here)]);
        i := next;
      } else {
        var next := i + LiteralLength(here);
        LiteralShows(whole, out, s, i, next);
        out := out + here[..LiteralLength(here)];
        i := next;
      }
    }
    assert s[i..] == [];
  }

  lemma SliceOn(s: string, i: nat, n: nat, next: nat)
    requires next == i + n <= |s|
    ensures s[i..][n..] == s[next..]
  {
  }

  lemma PlainShows(whole: string, out: string, s: string, i: nat, next: nat)
    requires i < |s| && s[i] != '`' && Shows(whole, out, s[i..]) && next == i + PlainLength(s[i..])
    ensures Shows(whole, out + StripHTMLFragment(s[i..][..PlainLength(s[i..])]), s[next..])
  {
    ShowsPlain(whole, out, s[i..]);
    SliceOn(s, i, PlainLength(s[i..]), next);
  }

  lemma LiteralShows(whole: string, out: string, s: string, i: nat, next: nat)
    requires i < |s| && s[i] == '`' && Shows(whole, out, s[i..]) && next == i + LiteralLength(s[i..])
    ensures Shows(whole, out + s[i..][..LiteralLength(s[i..])], s[next..])
  {
    ShowsLiteral(whole, out, s[i..]);
    SliceOn(s, i, LiteralLength(s[i..]), next);
  }

  lemma ShowsPlain(whole: string, out: string, rest: string)
    requires rest != [] && rest[0] != '`' && Shows(whole, out, rest)
    ensures Shows(whole, out + StripHTMLFragment(rest[..PlainLength(rest)]), rest[PlainLength(rest)..])
  {
    ShownFirst(out, Piece(rest[..PlainLength(rest)], false), Pieces(rest[PlainLength(rest)..]));
  }

  lemma ShowsLiteral(whole: string, out: string, rest: string)
    requires rest != [] && rest[0] == '`' && Shows(whole, out, rest)
    ensures Shows(whole, out + rest[..LiteralLength(rest)], rest[LiteralLength(rest)..])
  {
    ShownFirst(out, Piece(rest[..LiteralLength(rest)], true), Pieces(rest[LiteralLength(rest)..]));
  }

  lemma ShownFirst(out: string, p: Piece, rest: seq<Piece>)
    ensures out + ShownAll([p] + rest) == out + Shown(p) + ShownAll(rest)
  {
    assert ([p] + rest)[1..] == rest;
  }

  function PieceTexts(pieces: seq<Piece>): string {
    if pieces == [] then [] else pieces[0].text + PieceTexts(pieces[1..])
  }

  /** t is a code span: a run of backticks, text of one paragraph, and the first place
      behind the run where it occurs again. */
  predicate IsCodeSpan(t: string) {
    IsSpanOf(t, RunLength(t, '`'))
  }

  predicate IsSpanOf(t: string, run: nat) {
    && 0 < run && 2 * run <= |t|
    && ClosedAt(t[run..], t[..run]) == Some(|t| - 2 * run)
  }

  /** A literal piece is a code span or bare backticks, and another has no backtick. */
  ghost predicate WellMade(p: Piece) {
    if p.literal then IsCodeSpan(p.text) || RunLength(p.text, '`') == |p.text| else '`' !in p.text
  }

  ghost predicate WellPieced(pieces: seq<Piece>) {
    forall i :: 0 <= i < |pieces| ==> WellMade(pieces[i])
  }

  lemma OccursWithin(s: string, k: nat, i: nat, t: string)
    requires i + |t| <= k <= |s|
    ensures Occurs(t, s, i) <==> Occurs(t, s[..k], i)
  {
    assert s[i..i + |t|] == s[..k][i..i + |t|];
  }

  lemma FirstWithin(s: string, k: nat, e: nat, t: string)
    requires e + |t| <= k <= |s|
    ensures FirstAt(s, e, t) <==> FirstAt(s[..k], e, t)
  {
    forall i | 0 <= i <= e
      ensures Occurs(t, s, i) <==> Occurs(t, s[..k], i)
    {
      OccursWithin(s, k, i, t);
    }
  }

  lemma {:induction false} RunWithin(s: string, k: nat, c: char)
    requires k <= |s|
    ensures RunLength(s[..k], c) == if RunLength(s, c) < k then RunLength(s, c) else k
  {
    if k > 0 && s[0] == c {
      RunWithin(s[1..], k - 1, c);
      assert s[1..][..k - 1] == s[..k][1..];
    }
  }

  lemma IndexOfWithin(s: string, k: nat, e: nat, t: string)
    requires e + |t| <= k <= |s|
    ensures IndexOf(s, t) == Some(e) <==> IndexOf(s[..k], t) == Some(e)
  {
    FirstWithin(s, k, e, t);
    IndexIsFirst(s, e, t);
    IndexIsFirst(s[..k], e, t);
  }

  lemma ClosedWithin(s: string, n: nat, run: nat)
    requires 2 * run <= n <= |s|
    ensures ClosedAt(s[run..], s[..run]) == Some(n - 2 * run)
            <==> ClosedAt(s[..n][run..], s[..n][..run]) == Some(n - 2 * run)
  {
    var rest, k, e := s[run..], n - run, n - 2 * run;
    assert s[..n][..run] == s[..run];
    assert s[..n][run..] == rest[..k];
    assert rest[..k][..e] == rest[..e];
    IndexOfWithin(rest, k, e, s[..run]);
  }

  lemma LiteralIsClosed(s: string, n: nat)
    requires s != [] && s[0] == '`' && n <= |s|
    ensures var run := RunLength(s, '`');
      (LiteralLength(s) == n && n > run) <==> (2 * run <= n && ClosedAt(s[run..], s[..run]) == Some(n - 2 * run))
  {
  }

  lemma SpanWithin(s: string, n: nat, run: nat)
    requires 0 < run && 2 * run <= n <= |s|
    ensures IsSpanOf(s[..n], run) <==> ClosedAt(s[run..], s[..run]) == Some(n - 2 * run)
  {
    ClosedWithin(s, n, run);
  }

  /** A literal piece is the code span at the head of the text, if there is one. */
  lemma SpanIsFound(s: string, n: nat)
    requires s != [] && s[0] == '`' && n <= |s|
    ensures IsCodeSpan(s[..n]) <==> (LiteralLength(s) == n && n > RunLength(s, '`'))
  {
    var run := RunLength(s, '`');
    assert run > 0;
    RunWithin(s, n, '`');
    LiteralIsClosed(s, n);
    if 2 * run <= n { SpanWithin(s, n, run); }
  }

  lemma LiteralIsWell(s: string)
    requires s != [] && s[0] == '`'
    ensures WellMade(Piece(s[..LiteralLength(s)], true))
  {
    var n := LiteralLength(s);
    SpanIsFound(s, n);
    RunWithin(s, n, '`');
  }

  lemma {:induction false} PiecesAreWell(s: string)
    ensures PieceTexts(Pieces(s)) == s
    ensures WellPieced(Pieces(s))
    decreases |s|
  {
    if s != [] {
      var n := if s[0] == '`' then LiteralLength(s) else PlainLength(s);
      PiecesAreWell(s[n..]);
      if s[0] == '`' { LiteralIsWell(s); }
      PiecesPrepend(Piece(s[..n], s[0] == '`'), Pieces(s[n..]));
      Cut(s, n);
    }
  }

  lemma PiecesPrepend(p: Piece, rest: seq<Piece>)
    requires WellMade(p) && WellPieced(rest)
    ensures WellPieced([p] + rest) && PieceTexts([p] + rest) == p.text + PieceTexts(rest)
  {
    assert ([p] + rest)[1..] == rest;
  }

  lemma {:induction false} PiecesClean(pieces: seq<Piece>)
    requires WellPieced(pieces)
    ensures Cleans(ShownAll(pieces), PieceTexts(pieces))
  {
    if pieces != [] {
      PiecesClean(pieces[1..]);
      if pieces[0].literal { CleansSelf(pieces[0].text); } else { FragmentCleans(pieces[0].text); }
      CleansConcat(Shown(pieces[0]), pieces[0].text, ShownAll(pieces[1..]), PieceTexts(pieces[1..]));
    }
  }

  // ------------------------------------------------------------------
  // Newlines and edges
  // ------------------------------------------------------------------

  /** Runs of three newlines or more are cut to two. */
  function CollapseNewlines(s: string): string
    decreases |s|
  {
    if s == [] then []
    else if s[0] == '\n' then
      var n := RunLength(s, '\n');
      (if n > 2 then "\n\n" else s[..n]) + CollapseNewlines(s[n..])
    else [s[0]] + CollapseNewlines(s[1..])
  }

  lemma {:induction false} CollapseCleans(s: string)
    ensures Cleans(CollapseNewlines(s), s)
    decreases |s|
  {
    if s != [] {
      if s[0] == '\n' {
        var n := RunLength(s, '\n');
        CollapseCleans(s[n..]);
        var kept := if n > 2 then "\n\n" else s[..n];
        assert kept == s[..|kept|];
        assert s[..n] == kept + s[..n][|kept|..];
        CleansDrop(s[..n][|kept|..], kept);
        CleansConcat(kept, s[..n], CollapseNewlines(s[n..]), s[n..]);
        assert s[..n] + s[n..] == s;
      } else {
        CollapseCleans(s[1..]);
        CleansSelf([s[0]]);
        CleansConcat([s[0]], [s[0]], CollapseNewlines(s[1..]), s[1..]);
        assert [s[0]] + s[1..] == s;
      }
    }
  }

  function TrimLeft(s: string, p: char -> bool): (r: string)
    ensures |r| <= |s| && r == s[|s| - |r|..]
    ensures forall i :: 0 <= i < |s| - |r| ==> p(s[i])
    ensures r != [] ==> !p(r[0])
  {
    s[Span(s, 0, p)..]
  }

  function TrimRight(s: string, p: char -> bool): (r: string)
    ensures |r| <= |s| && r == s[..|r|]
    ensures forall i :: |r| <= i < |s| ==> p(s[i])
    ensures r != [] ==> !p(r[|r| - 1])
  {
    if s != [] && p(s[|s| - 1]) then TrimRight(s[..|s| - 1], p) else s
  }

  predicate Space(c: char) {
    IsSpace(c as int)
  }

  predicate Newline(c: char) {
    c == '\n'
  }

  function TrimSpace(s: string): string {
    TrimRight(TrimLeft(s, Space), Space)
  }

  function CapLeft(s: string): string {
    var left := TrimLeft(s, Newline);
    if |left| < |s| then "\n" + left else s
  }

  function CapRight(s: string): string {
    var right := TrimRight(s, Newline);
    if |right| < |s| then right + "\n" else s
  }

  /** Newlines where the prose meets a block are cut to one. */
  function CapBoundaryBlanks(s: string, leading: bool, trailing: bool): string {
    var led := if leading then CapLeft(s) else s;
    if trailing then CapRight(led) else led
  }

  lemma CapLeftCleans(s: string)
    ensures Cleans(CapLeft(s), s)
  {
    var left := TrimLeft(s, Newline);
    if |left| < |s| {
      var cut := s[1..|s| - |left|];
      assert s == "\n" + (cut + left);
      CleansDrop(cut, left);
      CleansSelf("\n");
      CleansConcat("\n", "\n", left, cut + left);
    } else {
      CleansSelf(s);
    }
  }

  lemma CapRightCleans(s: string)
    ensures Cleans(CapRight(s), s)
  {
    var right := TrimRight(s, Newline);
    if |right| < |s| {
      var cut := s[|right| + 1..];
      assert s == (right + "\n") + cut;
      CleansDrop(cut, right + "\n");
    } else {
      CleansSelf(s);
    }
  }

  lemma CapCleans(s: string, leading: bool, trailing: bool)
    ensures Cleans(CapBoundaryBlanks(s, leading, trailing), s)
  {
    var led := if leading then CapLeft(s) else s;
    CleansSelf(s);
    CapLeftCleans(s);
    CapRightCleans(led);
    if trailing { CleansTransitive(CapRight(led), led, s); }
  }

  lemma TrimCleans(s: string)
    ensures Cleans(TrimSpace(s), s)
  {
    var left := TrimLeft(s, Space);
    var right := TrimRight(left, Space);
    CleansDrop(s[..|s| - |left|], left);
    assert s == s[..|s| - |left|] + left;
    CleansDrop(left[|right|..], right);
    assert left == right + left[|right|..];
    CleansTransitive(right, left, s);
  }

  // ------------------------------------------------------------------
  // Cleaning a document
  // ------------------------------------------------------------------

  function Part(seg: Segment, leading: bool, trailing: bool): string {
    if seg.code then seg.text else CapBoundaryBlanks(ShownAll(Pieces(CollapseNewlines(seg.text))), leading, trailing)
  }

  function Parts(segments: seq<Segment>): (r: seq<string>)
    ensures |r| == |segments|
    ensures forall i :: 0 <= i < |r| ==> r[i] == Part(segments[i], i > 0, i < |segments| - 1)
  {
    seq(|segments|, i requires 0 <= i < |segments| => Part(segments[i], i > 0, i < |segments| - 1))
  }

  function Untrimmed(md: string): string {
    JoinLines(Parts(Segments(md)))
  }

  function Clean(md: string): string {
    TrimSpace(Untrimmed(md))
  }

  method CleanSegment(seg: Segment, leading: bool, trailing: bool) returns (r: string)
    ensures r == Part(seg, leading, trailing)
  {
    if seg.code {
      return seg.text;
    }
    var text := StripHTMLOutsideCodeSpans(CollapseNewlines(seg.text));
    r := CapBoundaryBlanks(text, leading, trailing);
  }

  method CleanMarkdown(md: string) returns (r: string)
    ensures r == Clean(md)
  {
    var segments := SplitFencedCode(md);
    var parts: seq<string> := [];
    ghost var all := Parts(segments);
    for i := 0 to |segments|
      invariant parts == all[..i]
    {
      var part := CleanSegment(segments[i], i > 0, i < |segments| - 1);
      TakeNext(all, i);
      parts := parts + [part];
    }
    assert all[..|segments|] == all;
    r := TrimSpace(JoinLines(parts));
  }

  lemma TakeNext(s: seq<string>, i: nat)
    requires i < |s|
    ensures s[..i + 1] == s[..i] + [s[i]]
  {
  }

  lemma PartCleans(seg: Segment, leading: bool, trailing: bool)
    ensures Cleans(Part(seg, leading, trailing), seg.text)
  {
    if seg.code {
      CleansSelf(seg.text);
    } else {
      var collapsed := CollapseNewlines(seg.text);
      var stripped := ShownAll(Pieces(collapsed));
      CollapseCleans(seg.text);
      PiecesAreWell(collapsed);
      PiecesClean(Pieces(collapsed));
      CapCleans(stripped, leading, trailing);
      CleansTransitive(stripped, collapsed, seg.text);
      CleansTransitive(Part(seg, leading, trailing), stripped, seg.text);
    }
  }

  lemma {:induction false} JoinCleans(parts: seq<string>, texts: seq<string>)
    requires |parts| == |texts| && forall i :: 0 <= i < |parts| ==> Cleans(parts[i], texts[i])
    ensures Cleans(JoinLines(parts), JoinLines(texts))
  {
    if |parts| > 1 {
      JoinCleans(parts[1..], texts[1..]);
      CleansSelf("\n");
      CleansConcat(parts[0], texts[0], "\n", "\n");
      CleansConcat(parts[0] + "\n", texts[0] + "\n", JoinLines(parts[1..]), JoinLines(texts[1..]));
    }
  }

  /** Cleaning only leaves characters out, and never a backtick. */
  lemma CleanOnlyDeletes(md: string)
    ensures Sub(Clean(md), md)
    ensures Ticks(Clean(md)) == Ticks(md)
  {
    var segments := Segments(md);
    forall i | 0 <= i < |segments|
      ensures Cleans(Parts(segments)[i], Texts(segments)[i])
    {
      PartCleans(segments[i], i > 0, i < |segments| - 1);
    }
    JoinCleans(Parts(segments), Texts(segments));
    SegmentsRoundTrip(md);
    TrimCleans(Untrimmed(md));
    CleansTransitive(Clean(md), Untrimmed(md), md);
  }

  // ------------------------------------------------------------------
  // The code blocks
  // ------------------------------------------------------------------

  function CodeBlocks(segments: seq<Segment>): seq<string> {
    if segments == [] then []
    else (if segments[0].code then [segments[0].text] else []) + CodeBlocks(segments[1..])
  }

  /** The blocks occur in s one behind the other. */
  ghost predicate InOrder(blocks: seq<string>, s: string) {
    blocks == []
    || exists i: nat :: Occurs(blocks[0], s, i) && InOrder(blocks[1..], s[i + |blocks[0]|..])
  }

  lemma InOrderBehind(blocks: seq<string>, before: string, s: string)
    requires InOrder(blocks, s)
    ensures InOrder(blocks, before + s)
  {
    if blocks != [] {
      var i: nat :| Occurs(blocks[0], s, i) && InOrder(blocks[1..], s[i + |blocks[0]|..]);
      InOrderAt(blocks, before + s[..i], s[i + |blocks[0]|..]);
      assert before + s == before + s[..i] + blocks[0] + s[i + |blocks[0]|..];
    }
  }

  /** A block, and the others in what follows it. */
  lemma InOrderAt(blocks: seq<string>, before: string, after: string)
    requires blocks != [] && InOrder(blocks[1..], after)
    ensures InOrder(blocks, before + blocks[0] + after)
  {
    var s := before + blocks[0] + after;
    var i := |before|;
    assert s[i + |blocks[0]|..] == after;
    assert s[i..i + |blocks[0]|] == blocks[0];
    assert Occurs(blocks[0], s, i);
  }

  lemma {:induction false} JoinKeepsCode(segments: seq<Segment>, parts: seq<string>)
    requires |parts| == |segments|
    requires forall i :: 0 <= i < |parts| && segments[i].code ==> parts[i] == segments[i].text
    ensures InOrder(CodeBlocks(segments), JoinLines(parts))
  {
    if segments != [] {
      JoinKeepsCode(segments[1..], parts[1..]);
      BlocksPrepend(segments[0], CodeBlocks(segments[1..]), parts[0], JoinLines(parts[1..]));
      if |parts| == 1 { assert CodeBlocks(segments[1..]) == []; }
    }
  }

  lemma BlocksPrepend(seg: Segment, blocks: seq<string>, part: string, joined: string)
    requires seg.code ==> part == seg.text
    requires InOrder(blocks, joined)
    ensures InOrder((if seg.code then [seg.text] else []) + blocks, part + "\n" + joined)
    ensures blocks == [] ==> InOrder((if seg.code then [seg.text] else []) + blocks, part)
  {
    InOrderBehind(blocks, "\n", joined);
    if seg.code {
      CodePrepend(part, blocks, "\n" + joined);
      if blocks == [] { CodePrepend(part, blocks, []); }
    } else {
      InOrderBehind(blocks, part, "\n" + joined);
      assert [] + blocks == blocks;
    }
    Associates(part, "\n", joined);
  }

  lemma CodePrepend(part: string, blocks: seq<string>, after: string)
    requires InOrder(blocks, after)
    ensures InOrder([part] + blocks, part + after)
    ensures after == [] ==> InOrder([part] + blocks, part)
  {
    assert ([part] + blocks)[1..] == blocks && [] + part + after == part + after;
    InOrderAt([part] + blocks, [], after);
    if after == [] { assert part + after == part; }
  }

  /** s has something besides what is trimmed. */
  ghost predicate Inked(s: string, p: char -> bool) {
    exists i :: 0 <= i < |s| && !p(s[i])
  }

  /** The first block without the space before it. */
  function TrimFirst(blocks: seq<string>, p: char -> bool): seq<string> {
    if blocks == [] then [] else [TrimLeft(blocks[0], p)] + blocks[1..]
  }

  /** The last block without the space behind it. */
  function TrimLast(blocks: seq<string>, p: char -> bool): (r: seq<string>)
    ensures |r| == |blocks|
  {
    if blocks == [] then [] else blocks[..|blocks| - 1] + [TrimRight(blocks[|blocks| - 1], p)]
  }

  lemma TrimLeftIs(s: string, p: char -> bool, n: nat)
    requires n < |s| && !p(s[n]) && forall i :: 0 <= i < n ==> p(s[i])
    ensures TrimLeft(s, p) == s[n..]
  {
  }

  lemma {:induction false} TrimRightIs(s: string, p: char -> bool, n: nat)
    requires n <= |s| && (n > 0 ==> !p(s[n - 1])) && forall i :: n <= i < |s| ==> p(s[i])
    ensures TrimRight(s, p) == s[..n]
  {
    if n < |s| { TrimRightIs(s[..|s| - 1], p, n); }
  }

  lemma Cut(s: string, n: nat)
    requires n <= |s|
    ensures s[..n] + s[n..] == s
  {
  }

  lemma DropBehind(before: string, s: string, n: nat)
    requires n <= |s|
    ensures (before + s)[|before| + n..] == s[n..]
    ensures n < |s| ==> (before + s)[|before| + n] == s[n]
  {
  }

  lemma TrimLeftBehind(before: string, s: string, p: char -> bool)
    ensures TrimLeft(before + s, p) == if Inked(before, p) then TrimLeft(before, p) + s else TrimLeft(s, p)
  {
    var n := |before| - |TrimLeft(before, p)|;
    if n < |before| {
      TrimLeftIs(before + s, p, n);
      assert (before + s)[n..] == before[n..] + s;
    } else {
      var k := |s| - |TrimLeft(s, p)|;
      DropBehind(before, s, k);
      if k < |s| {
        TrimLeftIs(before + s, p, n + k);
      }
    }
  }

  lemma TrimLeftAround(before: string, b: string, after: string, p: char -> bool)
    requires Inked(b, p)
    ensures TrimLeft(before + b + after, p) == TrimLeft(before, p) + b + after
         || TrimLeft(before + b + after, p) == TrimLeft(b, p) + after
  {
    TrimLeftBehind(before + b, after, p);
    TrimLeftBehind(before, b, p);
    InkedWithin(before, b, [], p);
    assert before + b + [] == before + b;
  }

  lemma TrimRightAround(before: string, after: string, p: char -> bool)
    ensures TrimRight(before + after, p)
         == if Inked(after, p) then before + TrimRight(after, p) else TrimRight(before, p)
  {
    var s := before + after;
    var n := |TrimRight(after, p)|;
    if n > 0 {
      assert after[n - 1] == s[|before| + n - 1];
      TrimRightIs(s, p, |before| + n);
      assert s[..|before| + n] == before + after[..n];
    } else {
      var m := |TrimRight(before, p)|;
      TrimRightIs(s, p, m);
      assert s[..m] == before[..m];
    }
  }

  lemma InkedWithin(before: string, b: string, after: string, p: char -> bool)
    requires Inked(b, p)
    ensures Inked(before + b + after, p)
  {
    var k :| 0 <= k < |b| && !p(b[k]);
    assert (before + b + after)[|before| + k] == b[k];
  }

  lemma InOrderSplit(blocks: seq<string>, s: string) returns (before: string, after: string)
    requires blocks != [] && InOrder(blocks, s)
    ensures s == before + blocks[0] + after && InOrder(blocks[1..], after)
  {
    var i: nat :| Occurs(blocks[0], s, i) && InOrder(blocks[1..], s[i + |blocks[0]|..]);
    before, after := s[..i], s[i + |blocks[0]|..];
  }

  ghost predicate AllInked(blocks: seq<string>, p: char -> bool) {
    forall i :: 0 <= i < |blocks| ==> Inked(blocks[i], p)
  }

  /** A block with some of its edge left over, and the others in what follows it. */
  lemma InOrderCut(left: string, b: string, right: string, rest: seq<string>, after: string, s: string)
    requires InOrder(rest, after) && s == left + b + right + after
    ensures InOrder([b] + rest, s)
  {
    InOrderBehind(rest, right, after);
    InOrderAt([b] + rest, left, right + after);
    assert ([b] + rest)[1..] == rest;
    assert left + b + (right + after) == left + b + right + after;
  }

  lemma TrimLeftKeepsBlocks(blocks: seq<string>, s: string, p: char -> bool)
    requires InOrder(blocks, s) && AllInked(blocks, p)
    ensures InOrder(TrimFirst(blocks, p), TrimLeft(s, p))
  {
    if blocks != [] {
      var before, after := InOrderSplit(blocks, s);
      var x := TrimFirstAround(before, blocks[0], after, p);
      InOrderCut(x, TrimLeft(blocks[0], p), [], blocks[1..], after, TrimLeft(s, p));
    }
  }

  lemma TrimFirstAround(before: string, b: string, after: string, p: char -> bool) returns (x: string)
    requires Inked(b, p)
    ensures TrimLeft(before + b + after, p) == x + TrimLeft(b, p) + [] + after
  {
    var left := TrimLeft(b, p);
    var cut := b[..|b| - |left|];
    Cut(b, |b| - |left|);
    TrimLeftAround(before, b, after, p);
    RegroupLeft(TrimLeft(before, p), cut, left, after);
    x := if TrimLeft(before + b + after, p) == left + after then [] else TrimLeft(before, p) + cut;
  }

  lemma RegroupLeft(a: string, b: string, c: string, d: string)
    ensures a + (b + c) + d == a + b + c + [] + d
    ensures c + d == [] + c + [] + d
  {
  }

  lemma Regroup(a: string, b: string, c: string, d: string)
    ensures a + (b + c) + d == a + b + (c + d) + []
    ensures a + b == a + b + [] + []
    ensures a + d == a + [] + d
  {
  }

  /** The last block: it loses its space only where the text ends with it. */
  lemma TrimLastAround(before: string, b: string, after: string, p: char -> bool) returns (y: string)
    requires Inked(b, p)
    ensures TrimRight(before + b + after, p) == before + TrimRight(b, p) + y + []
  {
    var right := TrimRight(b, p);
    var cut := b[|right|..];
    Cut(b, |right|);
    TrimRightAround(before + b, after, p);
    TrimRightAround(before, b, p);
    Regroup(before, right, cut, TrimRight(after, p));
    y := if Inked(after, p) then cut + TrimRight(after, p) else [];
  }

  lemma {:induction false} TrimRightKeepsBlocks(blocks: seq<string>, s: string, p: char -> bool)
    requires InOrder(blocks, s) && AllInked(blocks, p)
    ensures InOrder(TrimLast(blocks, p), TrimRight(s, p))
    ensures blocks != [] ==> Inked(s, p)
    decreases |blocks|
  {
    if blocks != [] {
      var before, after := InOrderSplit(blocks, s);
      InkedWithin(before, blocks[0], after, p);
      assert [blocks[0]] + blocks[1..] == blocks;
      if |blocks| > 1 { TrimRightKeepsBlocks(blocks[1..], after, p); }
      TrimLastKeeps(blocks[0], blocks[1..], before, after, p);
    }
  }

  lemma TrimLastKeeps(b: string, rest: seq<string>, before: string, after: string, p: char -> bool)
    requires Inked(b, p)
    requires rest != [] ==> InOrder(TrimLast(rest, p), TrimRight(after, p)) && Inked(after, p)
    ensures InOrder(TrimLast([b] + rest, p), TrimRight(before + b + after, p))
  {
    if rest == [] {
      var y := TrimLastAround(before, b, after, p);
      InOrderCut(before, TrimRight(b, p), y, [], [], TrimRight(before + b + after, p));
    } else {
      TrimRightAround(before + b, after, p);
      Regroup(before + b, [], [], TrimRight(after, p));
      InOrderCut(before, b, [], TrimLast(rest, p), TrimRight(after, p), TrimRight(before + b + after, p));
    }
    TrimLastFirst(b, rest, p);
  }

  lemma TrimLastFirst(b: string, rest: seq<string>, p: char -> bool)
    ensures TrimLast([b] + rest, p) == if rest == [] then [TrimRight(b, p)] + [] else [b] + TrimLast(rest, p)
  {
  }

  lemma {:induction false} BlocksAreInked(groups: seq<Group>)
    requires WellSegmented(groups)
    ensures AllInked(CodeBlocks(SegmentsOf(groups)), Space)
  {
    if groups != [] {
      assert SegmentsOf(groups)[1..] == SegmentsOf(groups[1..]);
      forall i | 0 <= i < |groups[1..]|
        ensures if groups[1..][i].code then IsBlock(groups[1..][i].lines, i == |groups[1..]| - 1) else IsProse(groups[1..][i].lines)
      {
        assert groups[1..][i] == groups[i + 1];
      }
      BlocksAreInked(groups[1..]);
      if groups[0].code { BlockIsInked(groups[0].lines, |groups| == 1); }
    }
  }

  lemma BlockIsInked(lines: seq<string>, atEnd: bool)
    requires IsBlock(lines, atEnd)
    ensures Inked(JoinLines(lines), Space)
  {
    var n := RunLength(lines[0], ' ');
    assert Prefix(JoinLines(lines), lines[0]);
    assert JoinLines(lines)[n] == lines[0][n];
    assert !Space('`') && !Space('~');
  }

  lemma TrimmedIsInked(b: string, p: char -> bool)
    requires Inked(b, p)
    ensures Inked(TrimLeft(b, p), p)
  {
    var k :| 0 <= k < |b| && !p(b[k]);
    var left := TrimLeft(b, p);
    assert k >= |b| - |left|;
    assert left[0] == b[|b| - |left|];
  }

  lemma FirstIsInked(blocks: seq<string>, p: char -> bool)
    requires AllInked(blocks, p)
    ensures AllInked(TrimFirst(blocks, p), p)
  {
    if blocks != [] {
      TrimmedIsInked(blocks[0], p);
      forall i | 0 <= i < |blocks|
        ensures Inked(TrimFirst(blocks, p)[i], p)
      {
        if i > 0 { assert TrimFirst(blocks, p)[i] == blocks[i]; }
      }
    }
  }

  lemma {:induction false} InOrderBefore(blocks: seq<string>, s: string, after: string)
    requires InOrder(blocks, s)
    ensures InOrder(blocks, s + after)
    decreases |blocks|
  {
    if blocks != [] {
      var before, rest := InOrderSplit(blocks, s);
      InOrderBefore(blocks[1..], rest, after);
      InOrderAt(blocks, before, rest + after);
      assert s + after == before + blocks[0] + (rest + after);
    }
  }

  ghost predicate HasCode(segments: seq<Segment>) {
    exists i :: 0 <= i < |segments| && segments[i].code
  }

  /** What stands before the first code block. */
  function Leading(segments: seq<Segment>, parts: seq<string>): string
    requires |segments| == |parts|
  {
    if segments == [] || segments[0].code then [] else parts[0] + "\n" + Leading(segments[1..], parts[1..])
  }

  /** What stands behind the last. */
  function Trailing(segments: seq<Segment>, parts: seq<string>): string
    requires |segments| == |parts|
  {
    var n := |segments|;
    if n == 0 || segments[n - 1].code then [] else Trailing(segments[..n - 1], parts[..n - 1]) + "\n" + parts[n - 1]
  }

  ghost predicate CodeIsKept(segments: seq<Segment>, parts: seq<string>) {
    && |parts| == |segments|
    && forall i :: 0 <= i < |parts| && segments[i].code ==> parts[i] == segments[i].text
  }

  lemma {:induction false} CodeBlocksAppend(segments: seq<Segment>, prose: Segment)
    requires !prose.code
    ensures CodeBlocks(segments + [prose]) == CodeBlocks(segments)
  {
    if segments == [] {
      assert [prose][1..] == [] && [] + [prose] == [prose];
    } else {
      assert (segments + [prose])[1..] == segments[1..] + [prose];
      CodeBlocksAppend(segments[1..], prose);
    }
  }

  /** The joined parts are those up to the last block and what stands behind it. */
  lemma {:induction false} SplitTrailing(segments: seq<Segment>, parts: seq<string>) returns (front: string)
    requires CodeIsKept(segments, parts) && HasCode(segments)
    ensures JoinLines(parts) == front + Trailing(segments, parts)
    ensures InOrder(CodeBlocks(segments), front)
    decreases |segments|
  {
    var n := |segments|;
    if segments[n - 1].code {
      front := JoinLines(parts);
      assert front + [] == front;
      JoinKeepsCode(segments, parts);
    } else {
      var i :| 0 <= i < n && segments[i].code;
      assert segments[..n - 1][i].code;
      front := SplitTrailing(segments[..n - 1], parts[..n - 1]);
      assert segments == segments[..n - 1] + [segments[n - 1]] && parts == parts[..n - 1] + [parts[n - 1]];
      CodeBlocksAppend(segments[..n - 1], segments[n - 1]);
      JoinLinesConcat(parts[..n - 1], [parts[n - 1]]);
      JoinOnto(front, Trailing(segments[..n - 1], parts[..n - 1]), parts[n - 1]);
    }
  }

  lemma JoinOnto(a: string, b: string, c: string)
    ensures a + b + "\n" + c == a + (b + "\n" + c)
    ensures a + "\n" + (b + c) == a + "\n" + b + c
  {
  }

  /** The joined parts are what stands before the first block, the blocks with what is
      between them, and what stands behind the last. */
  lemma {:induction false} SplitAround(segments: seq<Segment>, parts: seq<string>) returns (middle: string)
    requires CodeIsKept(segments, parts) && HasCode(segments)
    ensures JoinLines(parts) == Leading(segments, parts) + middle + Trailing(segments, parts)
    ensures InOrder(CodeBlocks(segments), middle)
    decreases |segments|
  {
    if segments[0].code {
      middle := SplitTrailing(segments, parts);
      assert Leading(segments, parts) + middle == middle;
    } else {
      var i :| 0 <= i < |segments| && segments[i].code;
      assert segments[1..][i - 1].code;
      middle := SplitAround(segments[1..], parts[1..]);
      TrailingBehind(segments, parts);
      var blocks := CodeBlocks(segments);
      assert blocks == CodeBlocks(segments[1..]);
      JoinBefore(parts[0], Leading(segments[1..], parts[1..]), middle, Trailing(segments, parts));
    }
  }

  lemma JoinBefore(a: string, b: string, c: string, d: string)
    ensures a + "\n" + (b + c + d) == a + "\n" + b + c + d
  {
  }

  lemma {:induction false} TrailingBehind(segments: seq<Segment>, parts: seq<string>)
    requires |segments| == |parts| && segments != [] && HasCode(segments[1..])
    ensures Trailing(segments[1..], parts[1..]) == Trailing(segments, parts)
    decreases |segments|
  {
    var n := |segments|;
    assert segments[1..][n - 2] == segments[n - 1];
    if !segments[n - 1].code {
      var i :| 0 <= i < n - 1 && segments[1..][i].code;
      assert segments[1..][..n - 2] == segments[..n - 1][1..] && parts[1..][..n - 2] == parts[..n - 1][1..];
      assert segments[..n - 1][1..][i].code;
      TrailingBehind(segments[..n - 1], parts[..n - 1]);
    }
  }

  /** The blocks with the first and the last trimmed where nothing else is trimmed for them. */
  function Edged(blocks: seq<string>, p: char -> bool, first: bool, last: bool): seq<string> {
    var led := if first then TrimFirst(blocks, p) else blocks;
    if last then TrimLast(led, p) else led
  }

  lemma TrimLeftEdge(leading: string, middle: string, blocks: seq<string>, p: char -> bool)
    requires InOrder(blocks, middle) && AllInked(blocks, p)
    ensures InOrder(Edged(blocks, p, !Inked(leading, p), false), TrimLeft(leading + middle, p))
  {
    TrimLeftBehind(leading, middle, p);
    if Inked(leading, p) {
      InOrderBehind(blocks, TrimLeft(leading, p), middle);
    } else {
      TrimLeftKeepsBlocks(blocks, middle, p);
    }
  }

  lemma TrimRightEdge(front: string, trailing: string, blocks: seq<string>, p: char -> bool)
    requires InOrder(blocks, front) && AllInked(blocks, p)
    ensures InOrder(Edged(blocks, p, false, !Inked(trailing, p)), TrimRight(front + trailing, p))
  {
    TrimRightAround(front, trailing, p);
    if Inked(trailing, p) {
      InOrderBefore(blocks, front, TrimRight(trailing, p));
    } else {
      TrimRightKeepsBlocks(blocks, front, p);
    }
  }

  lemma InkedAround(leading: string, middle: string, p: char -> bool)
    requires Inked(middle, p)
    ensures Inked(leading + middle, p)
  {
    InkedWithin(leading, middle, [], p);
    assert leading + middle + [] == leading + middle;
  }

  lemma TrimAround(leading: string, middle: string, trailing: string, blocks: seq<string>, p: char -> bool)
    requires blocks != [] && InOrder(blocks, middle) && AllInked(blocks, p)
    ensures InOrder(Edged(blocks, p, !Inked(leading, p), !Inked(trailing, p)),
              TrimRight(TrimLeft(leading + middle + trailing, p), p))
  {
    var led := Edged(blocks, p, !Inked(leading, p), false);
    TrimRightKeepsBlocks(blocks, middle, p);
    InkedAround(leading, middle, p);
    TrimLeftBehind(leading + middle, trailing, p);
    TrimLeftEdge(leading, middle, blocks, p);
    FirstIsInked(blocks, p);
    TrimRightEdge(TrimLeft(leading + middle, p), trailing, led, p);
  }

  lemma {:induction false} BlocksNeedCode(segments: seq<Segment>)
    ensures CodeBlocks(segments) != [] ==> HasCode(segments)
  {
    if segments != [] {
      BlocksNeedCode(segments[1..]);
      if segments[0].code {
      } else if HasCode(segments[1..]) {
        var i :| 0 <= i < |segments[1..]| && segments[1..][i].code;
        assert segments[i + 1].code;
      }
    }
  }

  /** Every code block is carried through whole and in order. Only the first can lose space
      at its front, and only the last at its end, and that only where nothing but space
      stands before the first, or behind the last, in the page. */
  lemma CleanKeepsCode(md: string)
    ensures
      var segments, parts := Segments(md), Parts(Segments(md));
      var blocks := CodeBlocks(segments);
      && InOrder(blocks, Untrimmed(md))
      && InOrder(Edged(blocks, Space, !Inked(Leading(segments, parts), Space), !Inked(Trailing(segments, parts), Space)), Clean(md))
  {
    var segments, parts := Segments(md), Parts(Segments(md));
    var blocks := CodeBlocks(segments);
    JoinKeepsCode(segments, parts);
    if blocks != [] {
      BlocksNeedCode(segments);
      var middle := SplitAround(segments, parts);
      GroupsAreWellSegmented(Lines(md), [], None);
      BlocksAreInked(Groups(Lines(md), [], None));
      TrimAround(Leading(segments, parts), middle, Trailing(segments, parts), blocks, Space);
    }
  }

  // ------------------------------------------------------------------
  // What cleaning does not promise
  // ------------------------------------------------------------------

  lemma {:induction false} LinesMember(s: string, i: nat, c: char)
    requires i < |Lines(s)| && c in Lines(s)[i]
    ensures c in s
  {
    if s != [] {
      var rest := Lines(s[1..]);
      if s[0] == '\n' {
        assert Lines(s)[i] == rest[i - 1];
        LinesMember(s[1..], i - 1, c);
      } else if i > 0 {
        assert Lines(s)[i] == rest[i];
        LinesMember(s[1..], i, c);
      } else if c != s[0] {
        assert c in rest[0];
        LinesMember(s[1..], 0, c);
      }
    }
  }

  lemma {:induction false} ProseIsOneGroup(lines: seq<string>, cur: seq<string>)
    requires IsProse(lines)
    ensures Groups(lines, cur, None) == Flush(cur + lines, false)
    decreases |lines|
  {
    if lines == [] {
      assert cur + lines == cur;
    } else {
      ProseIsOneGroup(lines[1..], cur + [lines[0]]);
      Associates(cur, [lines[0]], lines[1..]);
      assert [lines[0]] + lines[1..] == lines;
    }
  }

  lemma PlainIsProse(md: string)
    requires '`' !in md && '~' !in md
    ensures IsProse(Lines(md))
  {
    var lines := Lines(md);
    forall i | 0 <= i < |lines|
      ensures FenceOpen(lines[i]).None?
    {
      if '`' in lines[i] { LinesMember(md, i, '`'); }
      if '~' in lines[i] { LinesMember(md, i, '~'); }
    }
  }

  lemma PlainIsOneSegment(md: string)
    requires '`' !in md && '~' !in md
    ensures Segments(md) == [Segment(md, false)]
  {
    PlainIsProse(md);
    ProseIsOneGroup(Lines(md), []);
    LinesJoin(md);
    assert [] + Lines(md) == Lines(md);
  }

  lemma OnePart(seg: Segment)
    ensures JoinLines(Parts([seg])) == Part(seg, false, false)
  {
    assert Parts([seg]) == [Part(seg, false, false)];
  }

  /** A page without a backtick or a tilde is all prose, and stripped as a whole. */
  lemma PlainPage(md: string)
    requires '`' !in md && '~' !in md
    ensures Clean(md) == TrimSpace(ShownAll(Pieces(CollapseNewlines(md))))
  {
    PlainIsOneSegment(md);
    OnePart(Segment(md, false));
  }

  lemma PlainPieces(s: string)
    requires s != [] && '`' !in s
    ensures ShownAll(Pieces(s)) == StripHTMLFragment(s)
  {
    assert PlainLength(s) == |s|;
    assert s[..|s|] == s && s[|s|..] == [];
    assert Pieces(s) == [Piece(s, false)] + [];
    assert ([Piece(s, false)] + [])[1..] == [];
  }

  lemma NothingToTrim(s: string)
    requires s != [] && !Space(s[0]) && !Space(s[|s| - 1])
    ensures TrimSpace(s) == s
  {
    TrimLeftIs(s, Space, 0);
    TrimRightIs(s, Space, |s|);
    assert s[0..] == s && s[..|s|] == s;
  }

  lemma PlainResult(md: string, collapsed: string, stripped: string)
    requires md != [] && '`' !in md && '~' !in md
    requires CollapseNewlines(md) == collapsed && collapsed != [] && '`' !in collapsed
    requires StripHTMLFragment(collapsed) == stripped
    requires stripped != [] && !Space(stripped[0]) && !Space(stripped[|stripped| - 1])
    ensures Clean(md) == stripped
  {
    PlainPage(md);
    PlainPieces(collapsed);
    NothingToTrim(stripped);
  }

  lemma OtherMarkupLength(s: string)
    requires s != [] && (s[0] != '<' || '!' !in s)
    ensures CommentLength(s) == 0 && DoctypeLength(s) == 0
  {
    assert |s| >= 4 ==> s[..4][0] == s[0] && s[..4][1] == s[1];
    assert |s| >= 9 ==> LowerAll(s[..9])[0] == Lower(s[0]) && LowerAll(s[..9])[1] == Lower(s[1]);
  }

  lemma NoMarkupHere(s: string, kind: Markup)
    requires s != [] && s[0] != '<'
    ensures MarkupLength(s, kind) == 0
  {
    OtherMarkupLength(s);
  }

  lemma {:induction false} NothingToStrip(s: string)
    requires '!' !in s
    ensures Strip(s, Comment) == s && Strip(s, Doctype) == s
  {
    if s != [] {
      OtherMarkupLength(s);
      NothingToStrip(s[1..]);
    }
  }

  lemma {:induction false} StripBehind(plain: string, s: string, kind: Markup)
    requires '<' !in plain
    ensures Strip(plain + s, kind) == plain + Strip(s, kind)
  {
    if plain == [] {
      assert plain + s == s;
    } else {
      assert (plain + s)[1..] == plain[1..] + s && (plain + s)[0] == plain[0];
      NoMarkupHere(plain + s, kind);
      StripBehind(plain[1..], s, kind);
    }
  }

  lemma BoldIsStripped(s: string)
    ensures Strip("<b>" + s, Tag) == Strip(s, Tag)
  {
    assert ("<b>" + s)[..3] == "<b>" && ("<b>" + s)[3..] == s;
    assert TagParts("<b>", 1, 2, 2);
    TagIsFound("<b>" + s, 3, 1, 2, 2);
  }

  lemma {:induction false} CollapseBehind(plain: string, s: string)
    requires '\n' !in plain
    ensures CollapseNewlines(plain + s) == plain + CollapseNewlines(s)
  {
    if plain == [] {
      assert plain + s == s;
    } else {
      assert (plain + s)[1..] == plain[1..] + s && (plain + s)[0] == plain[0];
      CollapseBehind(plain[1..], s);
    }
  }

  function Newlines(n: nat): (r: string)
    ensures |r| == n && forall i :: 0 <= i < n ==> r[i] == '\n'
  {
    seq(n, _ => '\n')
  }

  lemma {:induction false} RunOfNewlines(n: nat, s: string)
    requires s != [] && s[0] != '\n'
    ensures RunLength(Newlines(n) + s, '\n') == n
  {
    if n == 0 {
      assert Newlines(n) + s == s;
    } else {
      assert (Newlines(n) + s)[1..] == Newlines(n - 1) + s;
      RunOfNewlines(n - 1, s);
    }
  }

  lemma CollapseRun(n: nat, s: string)
    requires n > 0 && s != [] && s[0] != '\n'
    ensures CollapseNewlines(Newlines(n) + s) == Newlines(if n > 2 then 2 else n) + CollapseNewlines(s)
  {
    RunOfNewlines(n, s);
    assert (Newlines(n) + s)[n..] == s && (Newlines(n) + s)[..n] == Newlines(n);
    assert Newlines(2) == "\n\n";
  }

  /** A word that means nothing to Markdown or HTML. */
  predicate Word(x: string) {
    x != [] && forall c :: c in x ==> c !in "\n<!`~" && !Space(c)
  }

  lemma WordAlone(x: string)
    requires Word(x)
    ensures CollapseNewlines(x) == x && Strip(x, Tag) == x
    ensures '\n' !in x && '<' !in x && '!' !in x && '`' !in x && '~' !in x
    ensures x[0] in x && !Space(x[0]) && !Space(x[|x| - 1])
  {
    assert x + [] == x;
    CollapseBehind(x, []);
    StripBehind(x, [], Tag);
    assert x[0] in x && x[|x| - 1] in x;
  }

  /** The word twice, with newlines between. */
  function Twice(x: string, n: nat): string {
    x + (Newlines(n) + x)
  }

  lemma ApartIsPlain(x: string, n: nat)
    requires Word(x)
    ensures var s := Twice(x, n);
      && s != [] && '!' !in s && '`' !in s && '~' !in s && !Space(s[0]) && !Space(s[|s| - 1])
  {
    WordAlone(x);
    var s := Twice(x, n);
    assert s[0] == x[0] && s[|s| - 1] == x[|x| - 1];
  }

  lemma ApartIsKept(x: string, n: nat)
    requires Word(x)
    ensures StripHTMLFragment(Twice(x, n)) == Twice(x, n)
  {
    WordAlone(x);
    ApartIsPlain(x, n);
    NothingToStrip(Twice(x, n));
    StripBehind(Newlines(n), x, Tag);
    StripBehind(x, Newlines(n) + x, Tag);
  }

  /** Between words, more than one blank line becomes one. */
  lemma BlankLinesAreCapped(x: string, n: nat)
    requires Word(x) && n > 0
    ensures Clean(Twice(x, n)) == Twice(x, if n > 2 then 2 else n)
  {
    var m := if n > 2 then 2 else n;
    WordAlone(x);
    CollapseBehind(x, Newlines(n) + x);
    CollapseRun(n, x);
    ApartIsPlain(x, n);
    ApartIsPlain(x, m);
    ApartIsKept(x, m);
    PlainResult(Twice(x, n), Twice(x, m), Twice(x, m));
  }

  /** Two lines with nothing but a tag, between words. */
  function Sample(x: string): string {
    x + (Newlines(1) + ("<b>" + (Newlines(1) + ("<b>" + (Newlines(1) + x)))))
  }

  lemma SampleIsCollapsed(x: string)
    requires Word(x)
    ensures CollapseNewlines(Sample(x)) == Sample(x)
  {
    WordAlone(x);
    CollapseRun(1, x);
    CollapseBehind("<b>", Newlines(1) + x);
    CollapseRun(1, "<b>" + (Newlines(1) + x));
    CollapseBehind("<b>", Newlines(1) + ("<b>" + (Newlines(1) + x)));
    CollapseRun(1, "<b>" + (Newlines(1) + ("<b>" + (Newlines(1) + x))));
    CollapseBehind(x, Newlines(1) + ("<b>" + (Newlines(1) + ("<b>" + (Newlines(1) + x)))));
  }

  lemma SampleIsPlain(x: string)
    requires Word(x)
    ensures '!' !in Sample(x) && '`' !in Sample(x) && '~' !in Sample(x) && Sample(x) != []
  {
    WordAlone(x);
  }

  lemma ThreeNewlines(x: string)
    ensures x + (Newlines(1) + (Newlines(1) + (Newlines(1) + x))) == Twice(x, 3)
  {
  }

  lemma SampleIsStripped(x: string)
    requires Word(x)
    ensures Strip(Sample(x), Tag) == Twice(x, 3)
  {
    WordAlone(x);
    StripBehind(Newlines(1), x, Tag);
    BoldIsStripped(Newlines(1) + x);
    StripBehind(Newlines(1), "<b>" + (Newlines(1) + x), Tag);
    BoldIsStripped(Newlines(1) + ("<b>" + (Newlines(1) + x)));
    StripBehind(Newlines(1), "<b>" + (Newlines(1) + ("<b>" + (Newlines(1) + x))), Tag);
    StripBehind(x, Newlines(1) + ("<b>" + (Newlines(1) + ("<b>" + (Newlines(1) + x)))), Tag);
    ThreeNewlines(x);
  }

  lemma SampleFragment(x: string)
    requires Word(x)
    ensures StripHTMLFragment(Sample(x)) == Twice(x, 3)
  {
    SampleIsPlain(x);
    SampleIsStripped(x);
    NothingToStrip(Sample(x));
  }

  /** Tags are stripped after newlines are collapsed, so more than two newlines in a row can
      remain in the prose. */
  lemma NewlinesMayRemain(x: string)
    requires Word(x)
    ensures Clean(Sample(x)) == Twice(x, 3)
  {
    SampleIsPlain(x);
    SampleIsCollapsed(x);
    SampleFragment(x);
    ApartIsPlain(x, 3);
    PlainResult(Sample(x), Sample(x), Twice(x, 3));
  }

  /** And cleaning what was cleaned can change it again. */
  lemma CleaningTwiceMayDiffer(x: string)
    requires Word(x)
    ensures Clean(Clean(Sample(x))) == Twice(x, 2) != Clean(Sample(x))
  {
    NewlinesMayRemain(x);
    BlankLinesAreCapped(x, 3);
    assert |Twice(x, 2)| < |Twice(x, 3)|;
  }
}
