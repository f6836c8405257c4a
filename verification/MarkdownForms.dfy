/**
 The constructs that the cleaning of a page knows, by their form alone: which lines are
 fences, which text is markup, and what becomes of both it and the text around it.
 */
module MarkdownForms {
  import opened Sequences
  import opened Utf8
  import opened Markdown

  // ------------------------------------------------------------------
  // Fences
  // ------------------------------------------------------------------

  /** Behind indent spaces, three at most, stands a run of at least three backticks or tildes. */
  ghost predicate OpensWith(line: string, f: Fence, indent: nat) {
    && indent <= 3 && f.length >= 3 && indent + f.length <= |line|
    && (f.mark == '`' || f.mark == '~')
    && (forall i :: 0 <= i < indent ==> line[i] == ' ')
    && (forall i :: indent <= i < indent + f.length ==> line[i] == f.mark)
    && (indent + f.length < |line| ==> line[indent + f.length] != f.mark)
  }

  /** And nothing but spaces and tabs behind it. */
  ghost predicate ClosesWith(line: string, f: Fence, indent: nat) {
    OpensWith(line, f, indent) && forall i :: indent + f.length <= i < |line| ==> line[i] == ' ' || line[i] == '\t'
  }

  /** The characters from i up to j are all c, and the one at j is not. */
  ghost predicate RunOf(s: string, i: nat, j: nat, c: char) {
    i <= j <= |s| && (forall k :: i <= k < j ==> s[k] == c) && (j < |s| ==> s[j] != c)
  }

  lemma RunIs(s: string, i: nat, j: nat, c: char)
    requires i <= |s|
    ensures RunOf(s, i, j, c) <==> j == i + RunLength(s[i..], c)
  {
    var behind := s[i..];
    var n := RunLength(behind, c);
    assert forall k :: 0 <= k < |behind| ==> behind[k] == s[i + k];
    assert forall k :: i <= k < |s| ==> s[k] == behind[k - i];
  }

  lemma RunAtStart(s: string, j: nat, c: char)
    ensures RunOf(s, 0, j, c) <==> j == RunLength(s, c)
  {
    assert s[0..] == s;
    RunIs(s, 0, j, c);
  }

  lemma FenceIs(line: string, f: Fence, indent: nat)
    requires OpensWith(line, f, indent)
    ensures RunLength(line, ' ') == indent && FenceOpen(line) == Some(f)
  {
    assert line[indent] == f.mark;
    RunAtStart(line, indent, ' ');
    RunIs(line, indent, indent + f.length, f.mark);
  }

  lemma FenceHas(line: string)
    requires FenceOpen(line).Some?
    ensures OpensWith(line, FenceOpen(line).value, RunLength(line, ' '))
  {
    var indent := RunLength(line, ' ');
    var mark := line[indent];
    RunAtStart(line, indent, ' ');
    RunIs(line, indent, indent + RunLength(line[indent..], mark), mark);
  }

  /** A line opens a block exactly if it has that form, whatever follows the run. */
  lemma FenceOpenIff(line: string, f: Fence)
    ensures FenceOpen(line) == Some(f) <==> exists indent: nat :: OpensWith(line, f, indent)
  {
    if FenceOpen(line) == Some(f) { FenceHas(line); }
    if indent: nat :| OpensWith(line, f, indent) { FenceIs(line, f, indent); }
  }

  lemma BlankBehind(line: string, i: nat, n: nat)
    requires i + n <= |line|
    ensures Blank(line[i..][n..]) <==> forall k :: i + n <= k < |line| ==> line[k] == ' ' || line[k] == '\t'
  {
    var behind := line[i + n..];
    assert line[i..][n..] == behind;
    assert forall k :: 0 <= k < |behind| ==> behind[k] == line[i + n + k];
    assert forall k :: i + n <= k < |line| ==> line[k] == behind[k - (i + n)];
  }

  lemma FenceCloses(line: string, f: Fence, indent: nat)
    requires OpensWith(line, f, indent)
    ensures FenceClose(line) == Some(f) <==> ClosesWith(line, f, indent)
  {
    FenceIs(line, f, indent);
    BlankBehind(line, indent, f.length);
  }

  /** It closes one exactly if its run is of the same mark, not shorter, and nothing follows. */
  lemma ClosesIff(line: string, fence: Fence)
    ensures Closes(line, fence) <==>
            exists f: Fence, indent: nat :: ClosesWith(line, f, indent) && f.mark == fence.mark && f.length >= fence.length
  {
    if FenceOpen(line).Some? {
      FenceHas(line);
      FenceCloses(line, FenceOpen(line).value, RunLength(line, ' '));
    }
    if f: Fence, indent: nat :| ClosesWith(line, f, indent) && f.mark == fence.mark && f.length >= fence.length {
      FenceCloses(line, f, indent);
    }
  }

  // ------------------------------------------------------------------
  // Markup
  // ------------------------------------------------------------------

  /** From the opening to the first closing mark behind it. */
  ghost predicate IsComment(t: string) {
    && |t| >= 7 && t[0] == '<' && t[1] == '!' && t[2] == '-' && t[3] == '-'
    && ClosesComment(t, |t| - 3) && forall i :: 4 <= i < |t| - 3 ==> !ClosesComment(t, i)
  }

  predicate ClosesComment(t: string, i: nat) {
    i + 3 <= |t| && t[i] == '-' && t[i + 1] == '-' && t[i + 2] == '>'
  }

  /** c is a small letter of the text in either case, or another character of it. */
  predicate Spells(c: char, letter: char) {
    c == letter || ('a' <= letter <= 'z' && c as int == letter as int - 32)
  }

  ghost predicate IsDoctype(t: string) {
    && |t| >= 10 && t[|t| - 1] == '>'
    && (forall i :: 0 <= i < 9 ==> Spells(t[i], "<!doctype"[i]))
    && (forall i :: 9 <= i < |t| - 1 ==> !Angle(t[i]))
  }

  ghost predicate IsTag(t: string) {
    exists p: nat, q: nat, r: nat :: TagParts(t, p, q, r)
  }

  ghost predicate IsMarkup(t: string, kind: Markup) {
    match kind
    case Comment => IsComment(t)
    case Doctype => IsDoctype(t)
    case Tag => IsTag(t)
  }

  lemma PrefixAt(s: string, t: string)
    ensures Prefix(s, t) <==> |t| <= |s| && forall i :: 0 <= i < |t| ==> s[i] == t[i]
  {
  }

  lemma CloserAt(s: string, i: nat)
    ensures Occurs("-->", s, i) <==> ClosesComment(s, i)
  {
    if i + 3 <= |s| { assert s[i..i + 3] == [s[i], s[i + 1], s[i + 2]]; }
  }

  lemma CommentIff(s: string, n: nat)
    requires 0 < n <= |s|
    ensures CommentLength(s) == n <==> IsComment(s[..n])
  {
    PrefixAt(s, "<!--");
    if n >= 7 && Prefix(s, "<!--") {
      var t, rest := s[..n], s[4..];
      forall i: nat | i <= n - 7
        ensures Occurs("-->", rest, i) <==> ClosesComment(t, i + 4)
      {
        CloserAt(rest, i);
      }
      assert forall i :: 4 <= i <= n - 3 ==> (ClosesComment(t, i) <==> Occurs("-->", rest, i - 4));
      IndexIsFirst(rest, n - 7, "-->");
    }
  }

  lemma LowerSpells(c: char, letter: char)
    requires 'a' <= letter <= 'z' || letter == '<' || letter == '!'
    ensures Lower(c) == letter <==> Spells(c, letter)
  {
  }

  lemma DoctypeSpelled(s: string)
    requires |s| >= 9
    ensures LowerAll(s[..9]) == "<!doctype" <==> forall i :: 0 <= i < 9 ==> Spells(s[i], "<!doctype"[i])
  {
    forall i | 0 <= i < 9
      ensures LowerAll(s[..9])[i] == "<!doctype"[i] <==> Spells(s[i], "<!doctype"[i])
    {
      LowerSpells(s[i], "<!doctype"[i]);
    }
  }

  lemma DoctypeIff(s: string, n: nat)
    requires 0 < n <= |s|
    ensures DoctypeLength(s) == n <==> IsDoctype(s[..n])
  {
    if |s| >= 9 {
      DoctypeSpelled(s);
      var end := Span(s, 9, NotAngle);
      if n >= 10 { assert s[n - 1] == s[..n][n - 1]; }
    }
  }

  lemma TagIff(s: string, n: nat)
    requires 0 < n <= |s|
    ensures TagLength(s) == n <==> IsTag(s[..n])
  {
    if TagLength(s) == n { TagFoundIsATag(s); }
    if p: nat, q: nat, r: nat :| TagParts(s[..n], p, q, r) { TagIsFound(s, n, p, q, r); }
  }

  /** What is taken for markup at the head of a text is exactly what has its form. */
  lemma MarkupIff(s: string, n: nat, kind: Markup)
    requires 0 < n <= |s|
    ensures MarkupLength(s, kind) == n <==> IsMarkup(s[..n], kind)
  {
    match kind
    case Comment => CommentIff(s, n);
    case Doctype => DoctypeIff(s, n);
    case Tag => TagIff(s, n);
  }

  // ------------------------------------------------------------------
  // Stripping
  // ------------------------------------------------------------------

  /** Markup of some kind lies in s from i to j. */
  ghost predicate HasMarkup(s: string, i: nat, j: nat, kind: Markup) {
    i < j <= |s| && IsMarkup(s[i..j], kind)
  }

  lemma MarkupHere(s: string, i: nat, kind: Markup)
    requires i < |s|
    ensures MarkupAt(s, i, kind) <==> exists j: nat :: HasMarkup(s, i, j, kind)
  {
    if MarkupAt(s, i, kind) {
      var n := MarkupLength(s[i..], kind);
      MarkupIff(s[i..], n, kind);
      assert s[i..][..n] == s[i..i + n];
      assert HasMarkup(s, i, i + n, kind);
    }
    if j: nat :| HasMarkup(s, i, j, kind) {
      assert s[i..][..j - i] == s[i..j];
      MarkupIff(s[i..], j - i, kind);
    }
  }

  lemma StripKeepsIff(s: string, kind: Markup)
    ensures Strip(s, kind) == s <==> forall i: nat, j: nat :: !HasMarkup(s, i, j, kind)
  {
    StripKeeps(s, kind);
    if Strip(s, kind) == s {
      forall i: nat, j: nat
        ensures !HasMarkup(s, i, j, kind)
      {
        if i < |s| { MarkupHere(s, i, kind); }
      }
    } else {
      var i :| 0 <= i < |s| && MarkupAt(s, i, kind);
      MarkupHere(s, i, kind);
    }
  }

  lemma StripShorter(s: string, kind: Markup)
    ensures |Strip(s, kind)| <= |s|
    ensures |Strip(s, kind)| == |s| ==> Strip(s, kind) == s
  {
    StripDeletes(s, kind);
    SubShorter(Strip(s, kind), s);
    if |Strip(s, kind)| == |s| { SubOfSameLength(Strip(s, kind), s); }
  }

  lemma {:induction false} SubOfSameLength(a: string, b: string)
    requires Sub(a, b) && |a| == |b|
    ensures a == b
  {
    if a != [] {
      if a[0] == b[0] && Sub(a[1..], b[1..]) {
        SubOfSameLength(a[1..], b[1..]);
      } else {
        SubShorter(a, b[1..]);
      }
    }
  }

  /** Prose is kept as it is exactly if no markup of any kind lies in it. */
  lemma FragmentKeptIff(s: string)
    ensures StripHTMLFragment(s) == s <==> forall i: nat, j: nat, kind: Markup :: !HasMarkup(s, i, j, kind)
  {
    var a := Strip(s, Comment);
    var b := Strip(a, Doctype);
    StripShorter(s, Comment);
    StripShorter(a, Doctype);
    StripShorter(b, Tag);
    StripKeepsIff(s, Comment);
    StripKeepsIff(s, Doctype);
    StripKeepsIff(s, Tag);
    if StripHTMLFragment(s) == s {
      assert a == s && b == s;
      forall i: nat, j: nat, kind: Markup
        ensures !HasMarkup(s, i, j, kind)
      {
        assert kind == Comment || kind == Doctype || kind == Tag;
      }
    }
  }

  /** Text in which no markup starts, whatever comes behind it. */
  ghost predicate Quiet(s: string) {
    forall i :: 0 <= i < |s| && s[i] == '<' ==> i + 1 < |s| && !Letter(s[i + 1]) && s[i + 1] != '/' && s[i + 1] != '!'
  }

  lemma QuietHead(s: string, kind: Markup)
    requires |s| > 0 && (s[0] == '<' ==> |s| > 1 && !Letter(s[1]) && s[1] != '/' && s[1] != '!')
    ensures MarkupLength(s, kind) == 0
  {
    PrefixAt(s, "<!--");
    if |s| >= 9 {
      assert LowerAll(s[..9])[0] == Lower(s[0]) && LowerAll(s[..9])[1] == Lower(s[1]);
    }
  }

  lemma QuietTail(s: string)
    requires s != [] && Quiet(s)
    ensures Quiet(s[1..])
  {
    forall i | 0 <= i < |s[1..]| && s[1..][i] == '<'
      ensures i + 1 < |s[1..]| && !Letter(s[1..][i + 1]) && s[1..][i + 1] != '/' && s[1..][i + 1] != '!'
    {
      assert s[1..][i] == s[i + 1];
    }
  }

  lemma QuietAhead(before: string, rest: string, kind: Markup)
    requires before != [] && Quiet(before)
    ensures MarkupLength(before + rest, kind) == 0
  {
    var s := before + rest;
    if s[0] == '<' { assert s[1] == before[1]; }
    QuietHead(s, kind);
  }

  lemma HeadStays(before: string, rest: string, kind: Markup)
    requires before != [] && MarkupLength(before + rest, kind) == 0
    ensures Strip(before + rest, kind) == [before[0]] + Strip(before[1..] + rest, kind)
  {
    assert (before + rest)[1..] == before[1..] + rest;
  }

  lemma StaysAhead(before: string, rest: string, kind: Markup)
    requires before != [] && MarkupLength(before + rest, kind) == 0
    requires Strip(before[1..] + rest, kind) == before[1..] + Strip(rest, kind)
    ensures Strip(before + rest, kind) == before + Strip(rest, kind)
  {
    HeadStays(before, rest, kind);
    Associates([before[0]], before[1..], Strip(rest, kind));
    assert [before[0]] + before[1..] == before;
  }

  lemma {:induction false} QuietStays(before: string, rest: string, kind: Markup)
    requires Quiet(before)
    ensures Strip(before + rest, kind) == before + Strip(rest, kind)
    decreases |before|
  {
    if before == [] {
      assert before + rest == rest;
    } else {
      QuietTail(before);
      QuietStays(before[1..], rest, kind);
      QuietAhead(before, rest, kind);
      StaysAhead(before, rest, kind);
    }
  }

  lemma StripFirst(m: string, rest: string, kind: Markup)
    requires m != [] && IsMarkup(m, kind)
    ensures Strip(m + rest, kind) == Strip(rest, kind)
  {
    var s := m + rest;
    assert s[..|m|] == m && s[|m|..] == rest;
    MarkupIff(s, |m|, kind);
  }

  /** Markup of a later pass has but one opening bracket, and is not taken for an earlier kind. */
  lemma LaterMarkup(m: string, kind: Markup)
    requires IsMarkup(m, kind) && kind != Comment
    ensures |m| > 2 && m[0] == '<' && '<' !in m[1..]
    ensures kind == Doctype ==> m[1] == '!' && m[2] != '-'
    ensures kind == Tag ==> m[1] != '!'
  {
    if kind == Doctype {
      assert Spells(m[0], "<!doctype"[0]) && Spells(m[1], "<!doctype"[1]) && Spells(m[2], "<!doctype"[2]);
      forall i | 1 <= i < |m|
        ensures m[i] != '<'
      {
        if i < 9 { assert Spells(m[i], "<!doctype"[i]); }
      }
    } else {
      var p: nat, q: nat, r: nat :| TagParts(m, p, q, r);
      assert m[r..][0] == m[r] && m[r..][|m| - r - 1] == m[|m| - 1];
      forall i | 1 <= i < |m|
        ensures m[i] != '<'
      {
        if r <= i { assert m[r..][i - r] == m[i]; }
      }
    }
  }

  lemma NotEarlier(m: string, rest: string, kind: Markup, earlier: Markup)
    requires IsMarkup(m, kind)
    requires (kind == Doctype && earlier == Comment) || (kind == Tag && (earlier == Comment || earlier == Doctype))
    ensures MarkupLength(m + rest, earlier) == 0
  {
    LaterMarkup(m, kind);
    var s := m + rest;
    assert s[0] == m[0] && s[1] == m[1] && s[2] == m[2];
    PrefixAt(s, "<!--");
    if |s| >= 9 { assert LowerAll(s[..9])[1] == Lower(s[1]); }
  }

  lemma PastHead(m: string, rest: string, kind: Markup)
    requires m != [] && '<' !in m[1..] && MarkupLength(m + rest, kind) == 0
    ensures Strip(m + rest, kind) == m + Strip(rest, kind)
  {
    StripBehind(m[1..], rest, kind);
    StaysAhead(m, rest, kind);
  }

  lemma EarlierPass(m: string, rest: string, kind: Markup, earlier: Markup)
    requires IsMarkup(m, kind)
    requires (kind == Doctype && earlier == Comment) || (kind == Tag && (earlier == Comment || earlier == Doctype))
    ensures Strip(m + rest, earlier) == m + Strip(rest, earlier)
  {
    LaterMarkup(m, kind);
    NotEarlier(m, rest, kind, earlier);
    PastHead(m, rest, earlier);
  }

  /** Markup goes, the text before it stays, and stripping goes on behind it. */
  lemma MarkupGoes(before: string, m: string, after: string, kind: Markup)
    requires Quiet(before) && IsMarkup(m, kind)
    ensures StripHTMLFragment(before + m + after) == before + StripHTMLFragment(after)
  {
    var a := Strip(after, Comment);
    var b := Strip(a, Doctype);
    assert before + m + after == before + (m + after);
    QuietStays(before, m + after, Comment);
    if kind == Comment {
      StripFirst(m, after, Comment);
      QuietStays(before, a, Doctype);
    } else {
      EarlierPass(m, after, kind, Comment);
      QuietStays(before, m + a, Doctype);
      if kind == Doctype {
        StripFirst(m, a, Doctype);
      } else {
        EarlierPass(m, a, Tag, Doctype);
        QuietStays(before, m + b, Tag);
        StripFirst(m, b, Tag);
      }
    }
    QuietStays(before, b, Tag);
  }

  // ------------------------------------------------------------------
  // Newlines and edges
  // ------------------------------------------------------------------

  /** A run of newlines between other text is cut to two, and no other newline goes. */
  lemma {:induction false} RunIsCut(a: string, n: nat, b: string)
    requires n > 0 && '\n' !in a && b != [] && b[0] != '\n'
    ensures CollapseNewlines(a) == a
    ensures CollapseNewlines(a + (Newlines(n) + b)) == a + (Newlines(if n > 2 then 2 else n) + CollapseNewlines(b))
  {
    assert a + [] == a;
    CollapseBehind(a, []);
    CollapseBehind(a, Newlines(n) + b);
    CollapseRun(n, b);
  }

  /** How many newlines stay of n at an edge that meets a block, or does not. */
  function AtSeam(n: nat, seam: bool): nat {
    if seam && n > 1 then 1 else n
  }

  lemma TrimmedLeft(n: nat, core: string)
    requires core == [] || core[0] != '\n'
    ensures TrimLeft(Newlines(n) + core, Newline) == core
  {
    var s := Newlines(n) + core;
    if core != [] {
      TrimLeftIs(s, Newline, n);
      assert s[n..] == core;
    }
  }

  lemma TrimmedRight(core: string, n: nat)
    requires core == [] || core[|core| - 1] != '\n'
    ensures TrimRight(core + Newlines(n), Newline) == core
  {
    var s := core + Newlines(n);
    TrimRightIs(s, Newline, |core|);
    assert s[..|core|] == core;
  }

  lemma CapLeftIs(n: nat, core: string)
    requires core == [] || core[0] != '\n'
    ensures CapLeft(Newlines(n) + core) == Newlines(AtSeam(n, true)) + core
  {
    TrimmedLeft(n, core);
    assert Newlines(1) == "\n";
  }

  lemma CapRightIs(core: string, n: nat)
    requires core == [] || core[|core| - 1] != '\n'
    ensures CapRight(core + Newlines(n)) == core + Newlines(AtSeam(n, true))
  {
    TrimmedRight(core, n);
    assert Newlines(1) == "\n";
  }

  /** Where prose meets a block, one newline stays of those at its edge; elsewhere all do. */
  lemma SeamsAreCapped(before: nat, core: string, behind: nat, leading: bool, trailing: bool)
    requires core != [] && core[0] != '\n' && core[|core| - 1] != '\n'
    ensures CapBoundaryBlanks(Newlines(before) + core + Newlines(behind), leading, trailing)
            == Newlines(AtSeam(before, leading)) + core + Newlines(AtSeam(behind, trailing))
  {
    var led := Newlines(AtSeam(before, leading)) + core;
    assert Newlines(before) + core + Newlines(behind) == Newlines(before) + (core + Newlines(behind));
    assert (core + Newlines(behind))[0] == core[0];
    CapLeftIs(before, core + Newlines(behind));
    assert Newlines(AtSeam(before, leading)) + (core + Newlines(behind)) == led + Newlines(behind);
    assert led[|led| - 1] == core[|core| - 1];
    CapRightIs(led, behind);
  }

  lemma TrimParts(s: string, p: char -> bool) returns (x: string, y: string)
    ensures s == x + TrimRight(TrimLeft(s, p), p) + y && !Inked(x, p) && !Inked(y, p)
  {
    var left := TrimLeft(s, p);
    var right := TrimRight(left, p);
    x, y := s[..|s| - |left|], left[|right|..];
    Cut(s, |s| - |left|);
    Cut(left, |right|);
    Associates(x, right, y);
  }

  lemma TrimEdges(s: string, p: char -> bool)
    ensures var r := TrimRight(TrimLeft(s, p), p); r != [] ==> !p(r[0]) && !p(r[|r| - 1])
  {
  }

  /** A cleaned page neither begins nor ends with white space, and nothing else goes at its edges. */
  lemma EdgesAreTrimmed(md: string) returns (x: string, y: string)
    ensures Untrimmed(md) == x + Clean(md) + y
    ensures !Inked(x, Space) && !Inked(y, Space)
    ensures Clean(md) != [] ==> !Space(Clean(md)[0]) && !Space(Clean(md)[|Clean(md)| - 1])
  {
    x, y := TrimParts(Untrimmed(md), Space);
    TrimEdges(Untrimmed(md), Space);
  }
}
