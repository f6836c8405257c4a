/**
 Finding the shard that holds a page, from pkg/registry/docs/docs_corpus.go: the
 manifest of shards by directory, the walk up a page's path, and the grouping of
 search results by shard.
 */
module ShardLookup {
  import opened Sequences
  import opened Strings
  import DocsIndex

  const MAX_SHARDS_PER_QUERY: nat := 8

  /** canonicalDocURL: without the index.html.md that entries carry. */
  function Canonical(url: string): string {
    if HasSuffix(url, "index.html.md") then url[..|url| - |"index.html.md"|] else url
  }

  predicate EndsInSlash(s: string) {
    s != [] && s[|s| - 1] == '/'
  }

  /** The longest prefix of s that ends in a slash; empty if there is none. */
  function DirOf(s: string): (r: string)
    ensures r <= s && (r == [] || EndsInSlash(r))
  {
    if s == [] || EndsInSlash(s) then s else DirOf(s[..|s| - 1])
  }

  lemma {:induction false} DirIsLongest(s: string, p: string)
    requires p <= s && EndsInSlash(p)
    ensures p <= DirOf(s)
  {
    if !EndsInSlash(s) {
      assert p <= s[..|s| - 1];
      DirIsLongest(s[..|s| - 1], p);
    }
  }

  // ------------------------------------------------------------------
  // The manifest
  // ------------------------------------------------------------------

  /** A line that was decoded; None for a line that is not a record. */
  type Line = Option<Record>

  datatype Record = Record(kind: string, url: string)

  type Manifest = map<string, string>

  predicate IsShard(line: Line) {
    line.Some? && line.value.kind == "shard" && DocsIndex.DOCS_BASE + "/" <= line.value.url
  }

  function ManifestOf(lines: seq<Line>): Manifest {
    if lines == [] then map[]
    else
      var before, last := ManifestOf(lines[..|lines| - 1]), lines[|lines| - 1];
      if IsShard(last) then before[DirOf(last.value.url) := last.value.url] else before
  }

  method ParseCorpusManifest(lines: seq<Line>) returns (m: Manifest)
    ensures m == ManifestOf(lines)
  {
    m := map[];
    for i := 0 to |lines|
      invariant m == ManifestOf(lines[..i])
    {
      assert lines[..i + 1][..i] == lines[..i];
      if lines[i].Some? && lines[i].value.kind == "shard" && DocsIndex.DOCS_BASE + "/" <= lines[i].value.url {
        var url := lines[i].value.url;
        m := m[DirOf(url) := url];
      }
    }
    assert lines[..|lines|] == lines;
  }

  /** Directories under the docs site, each ending in a slash. */
  ghost predicate Rooted(m: Manifest) {
    forall dir :: dir in m ==> EndsInSlash(dir) && DocsIndex.DOCS_BASE + "/" <= dir
  }

  /** Every directory of a manifest is one of the site's, and has the last of the
      shards listed for it. */
  lemma {:induction false} ManifestIsRooted(lines: seq<Line>, dir: string)
    ensures Rooted(ManifestOf(lines))
    ensures dir in ManifestOf(lines) ==>
              exists i :: 0 <= i < |lines| && IsShard(lines[i]) && DirOf(lines[i].value.url) == dir
                          && ManifestOf(lines)[dir] == lines[i].value.url
                          && forall j :: i < j < |lines| && IsShard(lines[j]) ==> DirOf(lines[j].value.url) != dir
  {
    if lines != [] {
      var last := lines[|lines| - 1];
      var before := lines[..|lines| - 1];
      ManifestIsRooted(before, dir);
      if IsShard(last) {
        DirIsLongest(last.value.url, DocsIndex.DOCS_BASE + "/");
      }
      if dir in ManifestOf(lines) && !(IsShard(last) && DirOf(last.value.url) == dir) {
        var i :| 0 <= i < |before| && IsShard(before[i]) && DirOf(before[i].value.url) == dir
                 && ManifestOf(before)[dir] == before[i].value.url
                 && forall j :: i < j < |before| && IsShard(before[j]) ==> DirOf(before[j].value.url) != dir;
        forall j | i < j < |lines| && IsShard(lines[j]) ensures DirOf(lines[j].value.url) != dir {
          if j < |before| { assert before[j] == lines[j]; }
        }
        assert lines[i] == before[i];
      }
    }
  }

  /** The directory of every shard record is in the manifest. */
  lemma {:induction false} ManifestHasAll(lines: seq<Line>, i: nat)
    requires i < |lines| && lines[i].Some? && lines[i].value.kind == "shard"
    requires "https://docs.digitalocean.com/" <= lines[i].value.url
    ensures DirOf(lines[i].value.url) in ManifestOf(lines)
  {
    assert DocsIndex.DOCS_BASE + "/" == "https://docs.digitalocean.com/";
    var n := |lines| - 1;
    if i < n {
      assert lines[..n][i] == lines[i];
      ManifestHasAll(lines[..n], i);
    }
  }

  lemma {:induction false} DirOfInside(dir: string, file: string)
    requires EndsInSlash(dir) && '/' !in file
    ensures DirOf(dir + file) == dir
  {
    if file == [] {
      assert dir + file == dir;
    } else {
      var n := |file| - 1;
      assert (dir + file)[|dir + file| - 1] == file[n];
      assert (dir + file)[..|dir + file| - 1] == dir + file[..n];
      DirOfInside(dir, file[..n]);
    }
  }

  lemma SuffixAdded(s: string, suffix: string)
    ensures HasSuffix(s + suffix, suffix)
  {
  }

  /** A page's URL is the same with index.html.md behind it or without; no other ending is cut. */
  lemma CanonicalIff(url: string, page: string)
    ensures Canonical(url) == page <==>
              url == page + "index.html.md" || (url == page && forall p: string :: url != p + "index.html.md")
  {
    var ending := "index.html.md";
    if HasSuffix(url, ending) {
      assert url == url[..|url| - |ending|] + ending;
      if url == page + ending { assert url[..|url| - |ending|] == page; }
    } else {
      forall p: string ensures url != p + ending { SuffixAdded(p, ending); }
    }
  }

  // ------------------------------------------------------------------
  // The walk up
  // ------------------------------------------------------------------

  /** The directory that a page's walk starts from. */
  function StartOf(pageURL: string): string {
    var dir := Canonical(pageURL);
    if EndsInSlash(dir) then dir else dir + "/"
  }

  function Entry(m: Manifest, dir: string): string {
    if dir in m then m[dir] else ""
  }

  function WalkUp(m: Manifest, dir: string): string
    decreases |dir|
  {
    if |dir| <= |DocsIndex.DOCS_BASE| + 1 || dir in m then Entry(m, dir)
    else WalkUp(m, DirOf(dir[..|dir| - 1]))
  }

  function ShardOf(m: Manifest, pageURL: string): string {
    WalkUp(m, StartOf(pageURL))
  }

  method ShardFor(m: Manifest, pageURL: string) returns (shard: string)
    ensures shard == ShardOf(m, pageURL)
  {
    var dir := Canonical(pageURL);
    if !EndsInSlash(dir) {
      dir := dir + "/";
    }
    while |dir| > |DocsIndex.DOCS_BASE| + 1
      invariant WalkUp(m, dir) == ShardOf(m, pageURL)
      decreases |dir|
    {
      if dir in m {
        return m[dir];
      }
      dir := DirOf(dir[..|dir| - 1]);
    }
    return if dir in m then m[dir] else "";
  }

  /** The shard is that of the longest prefix, ending in a slash, that the manifest
      has; there is none if it has no such prefix. */
  ghost predicate IsLongestPrefix(m: Manifest, dir: string, shard: string) {
    || (exists p :: p in m && p <= dir && shard == m[p] && forall q :: q in m && q <= dir ==> |q| <= |p|)
    || (shard == "" && forall q :: q in m ==> !(q <= dir))
  }

  lemma {:induction false} WalkFindsLongest(m: Manifest, dir: string)
    requires Rooted(m)
    ensures IsLongestPrefix(m, dir, WalkUp(m, dir))
    decreases |dir|
  {
    if dir in m {
      assert dir <= dir;
    } else if |dir| <= |DocsIndex.DOCS_BASE| + 1 {
      forall q | q in m ensures !(q <= dir) {
        assert q <= dir ==> q == dir by {
          assert DocsIndex.DOCS_BASE + "/" <= q;
        }
      }
    } else {
      var up := DirOf(dir[..|dir| - 1]);
      WalkFindsLongest(m, up);
      forall q | q in m ensures q <= dir <==> q <= up {
        if q <= dir {
          assert q != dir;
          assert q <= dir[..|dir| - 1];
          DirIsLongest(dir[..|dir| - 1], q);
        }
      }
    }
  }

  /** For a manifest that was parsed and any page, the lookup finds the shard of the
      longest directory prefix. */
  lemma ShardIsLongestPrefix(lines: seq<Line>, pageURL: string)
    ensures IsLongestPrefix(ManifestOf(lines), StartOf(pageURL), ShardOf(ManifestOf(lines), pageURL))
  {
    ManifestIsRooted(lines, "");
    WalkFindsLongest(ManifestOf(lines), StartOf(pageURL));
  }

  // ------------------------------------------------------------------
  // Grouping
  // ------------------------------------------------------------------

  datatype Group = Group(url: string, pages: seq<string>)

  /** A page and the shard that holds it, if any. */
  datatype Placement = Placement(shard: string, page: string)

  function PlacementOf(m: Manifest, entryURL: string): Placement {
    var page := Canonical(entryURL);
    Placement(ShardOf(m, page), page)
  }

  function Placements(m: Manifest, urls: seq<string>): (r: seq<Placement>)
    ensures |r| == |urls|
    ensures forall i :: 0 <= i < |r| ==> r[i] == PlacementOf(m, urls[i])
  {
    seq(|urls|, i requires 0 <= i < |urls| => PlacementOf(m, urls[i]))
  }

  /** The distinct shards of the first n pages, in order of appearance. */
  function Appearing(pages: seq<Placement>, n: nat): seq<string>
    requires n <= |pages|
  {
    if n == 0 then []
    else
      var before, shard := Appearing(pages, n - 1), pages[n - 1].shard;
      if shard == "" || shard in before then before else before + [shard]
  }

  /** The pages among the first n that a shard holds, in order. */
  function PagesIn(pages: seq<Placement>, n: nat, shard: string): seq<string>
    requires n <= |pages|
  {
    if n == 0 then []
    else PagesIn(pages, n - 1, shard) + (if pages[n - 1].shard == shard then [pages[n - 1].page] else [])
  }

  function Least(a: nat, b: nat): nat {
    if a <= b then a else b
  }

  /** The first distinct shards in order of appearance, each with exactly its pages. */
  ghost predicate Grouped(pages: seq<Placement>, n: nat, groups: seq<Group>)
    requires n <= |pages|
  {
    var shards := Appearing(pages, n);
    && |groups| == Least(|shards|, MAX_SHARDS_PER_QUERY)
    && forall j :: 0 <= j < |groups| ==> groups[j] == Group(shards[j], PagesIn(pages, n, shards[j]))
  }

  function Position(groups: seq<Group>, shard: string): (p: nat)
    ensures p <= |groups|
    ensures p < |groups| ==> groups[p].url == shard
    ensures forall j :: 0 <= j < p ==> groups[j].url != shard
  {
    if groups == [] || groups[0].url == shard then 0 else 1 + Position(groups[1..], shard)
  }

  /** A page goes to its shard's group, or to a new one while there is room. */
  function Placed(groups: seq<Group>, shard: string, page: string): seq<Group> {
    var p := Position(groups, shard);
    if shard == "" then groups
    else if p < |groups| then groups[p := groups[p].(pages := groups[p].pages + [page])]
    else if |groups| < MAX_SHARDS_PER_QUERY then groups + [Group(shard, [page])]
    else groups
  }

  lemma {:induction false} AppearingIsDistinct(pages: seq<Placement>, n: nat, i: nat, j: nat)
    requires n <= |pages| && i < j < |Appearing(pages, n)|
    ensures Appearing(pages, n)[i] != Appearing(pages, n)[j]
  {
    if j < |Appearing(pages, n - 1)| { AppearingIsDistinct(pages, n - 1, i, j); }
  }

  lemma {:induction false} AppearingIsNamed(pages: seq<Placement>, n: nat)
    requires n <= |pages|
    ensures "" !in Appearing(pages, n)
  {
    if n > 0 { AppearingIsNamed(pages, n - 1); }
  }

  lemma {:induction false} NoPagesBefore(pages: seq<Placement>, n: nat, shard: string)
    requires n <= |pages| && shard != "" && shard !in Appearing(pages, n)
    ensures PagesIn(pages, n, shard) == []
  {
    if n > 0 { NoPagesBefore(pages, n - 1, shard); }
  }

  lemma PlacedGroups(pages: seq<Placement>, n: nat, groups: seq<Group>)
    requires n < |pages| && Grouped(pages, n, groups)
    ensures Grouped(pages, n + 1, Placed(groups, pages[n].shard, pages[n].page))
  {
    var shard := pages[n].shard;
    var before, after := Appearing(pages, n), Appearing(pages, n + 1);
    var p := Position(groups, shard);
    assert forall j :: 0 <= j < |before| ==> after[j] == before[j];
    AppearingIsNamed(pages, n);
    if p < |groups| {
      assert before[p] == shard;
      forall j | 0 <= j < |groups| && j != p ensures groups[j].url != shard {
        if j < p { AppearingIsDistinct(pages, n, j, p); } else { AppearingIsDistinct(pages, n, p, j); }
      }
    } else {
      assert forall j :: 0 <= j < |groups| ==> groups[j].url != shard;
      if |groups| < MAX_SHARDS_PER_QUERY && shard != "" {
        assert shard !in before;
        NoPagesBefore(pages, n, shard);
      }
    }
  }

  /** Adds a page that has a shard to its group, which positions finds, or to a new one. */
  method AddPage(groups: seq<Group>, positions: map<string, nat>, shard: string, page: string)
    returns (groups': seq<Group>, positions': map<string, nat>)
    requires Indexed(positions, groups)
    ensures groups' == Placed(groups, shard, page) && Indexed(positions', groups')
  {
    groups', positions' := groups, positions;
    if shard == "" {
      return;
    }
    assert shard in positions <==> Position(groups, shard) < |groups|;
    if shard !in positions {
      if |groups| < MAX_SHARDS_PER_QUERY {
        IndexedAppend(positions, groups, shard, page);
        positions' := positions[shard := |groups|];
        groups' := groups + [Group(shard, [page])];
      }
    } else {
      var pos := positions[shard];
      IndexedExtend(positions, groups, pos, page);
      groups' := groups[pos := groups[pos].(pages := groups[pos].pages + [page])];
    }
  }

  /** The page of a result and the shard that holds it. */
  method Locate(m: Manifest, url: string) returns (shard: string, page: string)
    ensures Placement(shard, page) == PlacementOf(m, url)
  {
    page := Canonical(url);
    shard := ShardFor(m, page);
  }

  method GroupByShard(m: Manifest, urls: seq<string>) returns (groups: seq<Group>)
    ensures Grouped(Placements(m, urls), |urls|, groups)
  {
    ghost var pages := Placements(m, urls);
    groups := [];
    var positions: map<string, nat> := map[];
    for i := 0 to |urls|
      invariant Grouped(pages, i, groups)
      invariant Indexed(positions, groups)
    {
      var shard, page := Locate(m, urls[i]);
      assert pages[i] == Placement(shard, page);
      PlacedGroups(pages, i, groups);
      groups, positions := AddPage(groups, positions, shard, page);
    }
  }

  ghost predicate Indexed(positions: map<string, nat>, groups: seq<Group>) {
    forall s :: (s in positions <==> Position(groups, s) < |groups|)
             && (s in positions ==> positions[s] == Position(groups, s))
  }

  lemma {:induction false} PositionAppend(groups: seq<Group>, g: Group, s: string)
    ensures Position(groups + [g], s)
            == if Position(groups, s) < |groups| then Position(groups, s) else if g.url == s then |groups| else |groups| + 1
  {
    if groups != [] {
      assert (groups + [g])[1..] == groups[1..] + [g];
      PositionAppend(groups[1..], g, s);
    }
  }

  lemma {:induction false} PositionOfUrls(a: seq<Group>, b: seq<Group>, s: string)
    requires |a| == |b| && forall j :: 0 <= j < |a| ==> a[j].url == b[j].url
    ensures Position(a, s) == Position(b, s)
  {
    if a != [] { PositionOfUrls(a[1..], b[1..], s); }
  }

  lemma IndexedAppend(positions: map<string, nat>, groups: seq<Group>, shard: string, page: string)
    requires Indexed(positions, groups) && shard !in positions
    ensures Indexed(positions[shard := |groups|], groups + [Group(shard, [page])])
  {
    var more := groups + [Group(shard, [page])];
    var more' := positions[shard := |groups|];
    forall s
      ensures (s in more' <==> Position(more, s) < |more|) && (s in more' ==> more'[s] == Position(more, s))
    {
      PositionAppend(groups, Group(shard, [page]), s);
      assert s in positions <==> Position(groups, s) < |groups|;
    }
  }

  lemma IndexedExtend(positions: map<string, nat>, groups: seq<Group>, pos: nat, page: string)
    requires Indexed(positions, groups) && pos < |groups|
    ensures Indexed(positions, groups[pos := groups[pos].(pages := groups[pos].pages + [page])])
  {
    var more := groups[pos := groups[pos].(pages := groups[pos].pages + [page])];
    forall s ensures Position(more, s) == Position(groups, s) {
      PositionOfUrls(more, groups, s);
    }
  }
}
