/**
 Resolving the model to delete, from pkg/registry/genai-custom-models/delete_resolve.go:
 only an exact name or a full UUID resolves, and only if it is unambiguous.
 */
module DeleteResolve {
  import opened Sequences
  import opened Strings

  const STATUS_DELETED := "STATUS_DELETED"

  datatype Model = Model(uuid: string, name: string, status: string)

  datatype Field = ByName | ByUuid

  /** What the caller is shown when the identifier is not exact. */
  datatype Unresolved = Unresolved(query: string, field: Field, matches: seq<Model>)

  datatype Target = Target(uuid: string, name: string)

  datatype Error = AmbiguousName | AmbiguousUuid | Mismatch | NotFound

  /** The results of a lookup by one identifier; uuid is only used if the others are None. */
  datatype Lookup = Lookup(uuid: string, unresolved: Option<Unresolved>, err: Option<Error>)

  datatype Outcome = Outcome(target: Option<Target>, unresolved: Option<Unresolved>, err: Option<Error>)

  // ------------------------------------------------------------------
  // Comparing
  // ------------------------------------------------------------------

  predicate IsHex(c: char) {
    '0' <= c <= '9' || 'a' <= c <= 'f' || 'A' <= c <= 'F'
  }

  /** A full UUID: hexadecimal digits in groups of 8, 4, 4, 4 and 12. */
  predicate IsExactUuid(s: string) {
    |s| == 36 && forall i :: 0 <= i < 36 ==> if i in {8, 13, 18, 23} then s[i] == '-' else IsHex(s[i])
  }

  function Fold(c: char): char {
    if 'A' <= c <= 'Z' then c - 'A' + 'a' else c
  }

  /** Equality up to the case of ASCII letters. That is the library's equality under
      case folding when one side is a full UUID, as it is wherever this is used: no
      other character folds to a hexadecimal digit. */
  predicate EqualFold(a: string, b: string) {
    |a| == |b| && forall i :: 0 <= i < |a| ==> Fold(a[i]) == Fold(b[i])
  }

  // ------------------------------------------------------------------
  // Selecting
  // ------------------------------------------------------------------

  /** The models that are there and not deleted. */
  function Active(models: seq<Option<Model>>): seq<Model> {
    if models == [] then []
    else
      var last := models[|models| - 1];
      Active(models[..|models| - 1]) + (if last.Some? && last.value.status != STATUS_DELETED then [last.value] else [])
  }

  function Keep(p: Model -> bool, s: seq<Model>): seq<Model> {
    if s == [] then []
    else Keep(p, s[..|s| - 1]) + (if p(s[|s| - 1]) then [s[|s| - 1]] else [])
  }

  method FilterNonDeleted(models: seq<Option<Model>>) returns (out: seq<Model>)
    ensures out == Active(models)
  {
    out := [];
    for i := 0 to |models|
      invariant out == Active(models[..i])
    {
      assert models[..i + 1][..i] == models[..i];
      if models[i].None? || models[i].value.status == STATUS_DELETED {
        continue;
      }
      out := out + [models[i].value];
    }
    assert models[..|models|] == models;
  }

  method Select(p: Model -> bool, s: seq<Model>) returns (out: seq<Model>)
    ensures out == Keep(p, s)
  {
    out := [];
    for i := 0 to |s|
      invariant out == Keep(p, s[..i])
    {
      assert s[..i + 1][..i] == s[..i];
      if p(s[i]) {
        out := out + [s[i]];
      }
    }
    assert s[..|s|] == s;
  }

  // ------------------------------------------------------------------
  // Resolving
  // ------------------------------------------------------------------

  function HasName(name: string): Model -> bool {
    (m: Model) => m.name == name
  }

  function HasUuid(uuid: string): Model -> bool {
    (m: Model) => EqualFold(m.uuid, uuid)
  }

  function NameContains(lower: string -> string, query: string): Model -> bool {
    (m: Model) => Contains(lower(m.name), query)
  }

  function UuidContains(lower: string -> string, query: string): Model -> bool {
    (m: Model) => Contains(lower(m.uuid), query)
  }

  function LookupByName(lower: string -> string, name: string, active: seq<Model>): Lookup {
    var exact := Keep(HasName(name), active);
    if |exact| == 1 then Lookup(exact[0].uuid, None, None)
    else if |exact| == 0 then
      Lookup("", Some(Unresolved(name, ByName, Keep(NameContains(lower, lower(name)), active))), None)
    else Lookup("", None, Some(AmbiguousName))
  }

  function LookupByUuid(lower: string -> string, uuid: string, active: seq<Model>): Lookup {
    if IsExactUuid(uuid) then
      var exact := Keep(HasUuid(uuid), active);
      if |exact| == 1 then Lookup(exact[0].uuid, None, None)
      else if |exact| == 0 then Lookup("", Some(Unresolved(uuid, ByUuid, [])), None)
      else Lookup("", None, Some(AmbiguousUuid))
    else Lookup("", Some(Unresolved(uuid, ByUuid, Keep(UuidContains(lower, lower(uuid)), active))), None)
  }

  method ResolveByName(lower: string -> string, name: string, models: seq<Option<Model>>) returns (r: Lookup)
    ensures r == LookupByName(lower, name, Active(models))
  {
    var active := FilterNonDeleted(models);
    var exact := Select(HasName(name), active);
    if |exact| == 1 {
      return Lookup(exact[0].uuid, None, None);
    } else if |exact| == 0 {
      var partial := Select(NameContains(lower, lower(name)), active);
      return Lookup("", Some(Unresolved(name, ByName, partial)), None);
    } else {
      return Lookup("", None, Some(AmbiguousName));
    }
  }

  method ResolveByUuid(lower: string -> string, uuid: string, models: seq<Option<Model>>) returns (r: Lookup)
    ensures r == LookupByUuid(lower, uuid, Active(models))
  {
    var active := FilterNonDeleted(models);
    if IsExactUuid(uuid) {
      var exact := Select(HasUuid(uuid), active);
      if |exact| == 1 {
        return Lookup(exact[0].uuid, None, None);
      } else if |exact| == 0 {
        return Lookup("", Some(Unresolved(uuid, ByUuid, [])), None);
      } else {
        return Lookup("", None, Some(AmbiguousUuid));
      }
    }
    var partial := Select(UuidContains(lower, lower(uuid)), active);
    return Lookup("", Some(Unresolved(uuid, ByUuid, partial)), None);
  }

  /** The first of the models with a UUID. */
  function FirstWith(uuid: string, active: seq<Model>): Option<Model> {
    if active == [] then None
    else if EqualFold(active[0].uuid, uuid) then Some(active[0])
    else FirstWith(uuid, active[1..])
  }

  function Failure(l: Lookup): Outcome {
    Outcome(None, if l.err.Some? then None else l.unresolved, l.err)
  }

  predicate Found(l: Lookup) {
    l.err.None? && l.unresolved.None?
  }

  /** What comes of the lookups by name and by UUID, and of the search for the model
      that the UUID resolved to; a lookup by an identifier not given is not used. */
  function Combine(uuid: string, name: string, byName: Lookup, byUuid: Lookup, model: Option<Model>): Outcome {
    if uuid != "" && name != "" then
      if !Found(byName) then Failure(byName)
      else if !Found(byUuid) then Failure(byUuid)
      else if byName.uuid != byUuid.uuid then Outcome(None, None, Some(Mismatch))
      else Outcome(Some(Target(byName.uuid, name)), None, None)
    else if uuid != "" then
      if !Found(byUuid) then Failure(byUuid)
      else if model.Some? then Outcome(Some(Target(byUuid.uuid, model.value.name)), None, None)
      else Outcome(None, None, Some(NotFound))
    else
      if !Found(byName) then Failure(byName)
      else Outcome(Some(Target(byName.uuid, name)), None, None)
  }

  function Resolve(lower: string -> string, uuid: string, name: string, active: seq<Model>): Outcome {
    var byUuid := LookupByUuid(lower, uuid, active);
    Combine(uuid, name, LookupByName(lower, name, active), byUuid, FirstWith(byUuid.uuid, active))
  }

  method ResolveDeleteTarget(lower: string -> string, uuid: string, name: string, models: seq<Option<Model>>)
    returns (r: Outcome)
    ensures r == Resolve(lower, uuid, name, Active(models))
  {
    if uuid != "" && name != "" {
      var byName := ResolveByName(lower, name, models);
      if byName.err.Some? { return Outcome(None, None, byName.err); }
      if byName.unresolved.Some? { return Outcome(None, byName.unresolved, None); }
      var byUuid := ResolveByUuid(lower, uuid, models);
      if byUuid.err.Some? { return Outcome(None, None, byUuid.err); }
      if byUuid.unresolved.Some? { return Outcome(None, byUuid.unresolved, None); }
      if byName.uuid != byUuid.uuid { return Outcome(None, None, Some(Mismatch)); }
      return Outcome(Some(Target(byName.uuid, name)), None, None);
    } else if uuid != "" {
      var byUuid := ResolveByUuid(lower, uuid, models);
      if byUuid.err.Some? { return Outcome(None, None, byUuid.err); }
      if byUuid.unresolved.Some? { return Outcome(None, byUuid.unresolved, None); }
      var active := FilterNonDeleted(models);
      for i := 0 to |active|
        invariant FirstWith(byUuid.uuid, active[i..]) == FirstWith(byUuid.uuid, active)
      {
        assert active[i..][1..] == active[i + 1..];
        if EqualFold(active[i].uuid, byUuid.uuid) {
          return Outcome(Some(Target(byUuid.uuid, active[i].name)), None, None);
        }
      }
      return Outcome(None, None, Some(NotFound));
    } else {
      var byName := ResolveByName(lower, name, models);
      if byName.err.Some? { return Outcome(None, None, byName.err); }
      if byName.unresolved.Some? { return Outcome(None, byName.unresolved, None); }
      return Outcome(Some(Target(byName.uuid, name)), None, None);
    }
  }

  // ------------------------------------------------------------------
  // What a target is
  // ------------------------------------------------------------------

  /** m is the only one of the models that satisfies p. */
  ghost predicate IsTheOnly(p: Model -> bool, active: seq<Model>, m: Model) {
    Keep(p, active) == [m]
  }

  lemma {:induction false} KeepMember(p: Model -> bool, s: seq<Model>, m: Model)
    ensures m in Keep(p, s) <==> m in s && p(m)
  {
    if s != [] {
      KeepMember(p, s[..|s| - 1], m);
      assert s == s[..|s| - 1] + [s[|s| - 1]];
    }
  }

  lemma FoldsAlike(a: string, b: string, c: string)
    requires EqualFold(a, b)
    ensures EqualFold(c, a) <==> EqualFold(c, b)
  {
  }

  lemma {:induction false} FirstWithIsKept(uuid: string, active: seq<Model>)
    ensures
      var m := FirstWith(uuid, active);
      if m.Some? then m.value in active && EqualFold(m.value.uuid, uuid)
      else forall k :: k in active ==> !EqualFold(k.uuid, uuid)
  {
    if active != [] && !EqualFold(active[0].uuid, uuid) {
      FirstWithIsKept(uuid, active[1..]);
      assert active == [active[0]] + active[1..];
    }
  }

  lemma OnlyByUuid(uuid: string, active: seq<Model>, m: Model)
    requires IsTheOnly(HasUuid(uuid), active, m)
    ensures FirstWith(m.uuid, active) == Some(m)
  {
    KeepMember(HasUuid(uuid), active, m);
    FirstWithIsKept(m.uuid, active);
    var first := FirstWith(m.uuid, active);
    if first.Some? {
      FoldsAlike(m.uuid, uuid, first.value.uuid);
      KeepMember(HasUuid(uuid), active, first.value);
    }
  }

  /** There is a target exactly if each identifier given is exact and that of only one
      model, and those are the same; the target is that model. */
  lemma TargetIsTheOnlyModel(lower: string -> string, uuid: string, name: string, active: seq<Model>)
    ensures Resolve(lower, uuid, name, active).target.Some? <==>
            exists m :: && m in active
                        && (uuid != "" ==> IsExactUuid(uuid) && IsTheOnly(HasUuid(uuid), active, m))
                        && (uuid == "" || name != "" ==> IsTheOnly(HasName(name), active, m))
    ensures forall t :: Resolve(lower, uuid, name, active).target == Some(t) ==>
              exists m :: && m in active && t == Target(m.uuid, m.name)
                          && (uuid != "" ==> IsTheOnly(HasUuid(uuid), active, m))
                          && (uuid == "" || name != "" ==> IsTheOnly(HasName(name), active, m))
  {
    var byName, byUuid := Keep(HasName(name), active), Keep(HasUuid(uuid), active);
    if |byName| == 1 { KeepMember(HasName(name), active, byName[0]); }
    if |byUuid| == 1 {
      KeepMember(HasUuid(uuid), active, byUuid[0]);
      OnlyByUuid(uuid, active, byUuid[0]);
    }
    if |byName| == 1 && |byUuid| == 1 && byName[0].uuid == byUuid[0].uuid {
      KeepMember(HasUuid(uuid), active, byName[0]);
      assert byName[0] == byUuid[0];
    }
    if |byName| == 1 { assert IsTheOnly(HasName(name), active, byName[0]); }
    if |byUuid| == 1 { assert IsTheOnly(HasUuid(uuid), active, byUuid[0]); }
  }

  // ------------------------------------------------------------------
  // The target, from the models and the letters
  // ------------------------------------------------------------------

  predicate IsCapitalOf(c: char, d: char) {
    'A' <= c <= 'Z' && d as int == c as int + 32
  }

  /** The same text, but for capital and small letters. */
  predicate SameLetters(a: string, b: string) {
    && |a| == |b|
    && forall i :: 0 <= i < |a| ==> a[i] == b[i] || IsCapitalOf(a[i], b[i]) || IsCapitalOf(b[i], a[i])
  }

  lemma EqualFoldIff(a: string, b: string)
    ensures EqualFold(a, b) <==> SameLetters(a, b)
  {
    if |a| == |b| {
      forall i | 0 <= i < |a|
        ensures Fold(a[i]) == Fold(b[i]) <==> a[i] == b[i] || IsCapitalOf(a[i], b[i]) || IsCapitalOf(b[i], a[i])
      {
        FoldIff(a[i], b[i]);
      }
    }
  }

  lemma FoldIff(c: char, d: char)
    ensures Fold(c) == Fold(d) <==> c == d || IsCapitalOf(c, d) || IsCapitalOf(d, c)
  {
    FoldShifts(c);
    FoldShifts(d);
  }

  lemma FoldShifts(c: char)
    ensures Fold(c) as int == if 'A' <= c <= 'Z' then c as int + 32 else c as int
  {
  }

  /** Five groups of hexadecimal digits with dashes between. */
  ghost predicate IsGrouped(s: string) {
    exists a, b, c, d, e ::
      && s == a + "-" + b + "-" + c + "-" + d + "-" + e
      && IsGroup(a, 8) && IsGroup(b, 4) && IsGroup(c, 4) && IsGroup(d, 4) && IsGroup(e, 12)
  }

  predicate IsGroup(s: string, n: nat) {
    |s| == n && forall i :: 0 <= i < n ==> s[i] in "0123456789abcdefABCDEF"
  }

  lemma HexIff(c: char)
    ensures IsHex(c) <==> c in "0123456789abcdefABCDEF"
  {
  }

  lemma ExactIsGroups(s: string)
    requires IsExactUuid(s)
    ensures s == s[..8] + "-" + s[9..13] + "-" + s[14..18] + "-" + s[19..23] + "-" + s[24..]
    ensures IsGroup(s[..8], 8) && IsGroup(s[9..13], 4) && IsGroup(s[14..18], 4) && IsGroup(s[19..23], 4) && IsGroup(s[24..], 12)
  {
    forall i | 0 <= i < 36 && i !in {8, 13, 18, 23} ensures s[i] in "0123456789abcdefABCDEF" { HexIff(s[i]); }
  }

  /** What counts as a full UUID. */
  lemma ExactUuidIff(s: string)
    ensures IsExactUuid(s) <==> IsGrouped(s)
  {
    if IsExactUuid(s) { ExactIsGroups(s); }
    if IsGrouped(s) {
      var a, b, c, d, e :|
        && s == a + "-" + b + "-" + c + "-" + d + "-" + e
        && IsGroup(a, 8) && IsGroup(b, 4) && IsGroup(c, 4) && IsGroup(d, 4) && IsGroup(e, 12);
      GroupsAreExact(s, a, b, c, d, e);
    }
  }

  lemma GroupsAreExact(s: string, a: string, b: string, c: string, d: string, e: string)
    requires s == a + "-" + b + "-" + c + "-" + d + "-" + e
    requires IsGroup(a, 8) && IsGroup(b, 4) && IsGroup(c, 4) && IsGroup(d, 4) && IsGroup(e, 12)
    ensures IsExactUuid(s)
  {
    forall i | 0 <= i < 36
      ensures if i in {8, 13, 18, 23} then s[i] == '-' else IsHex(s[i])
    {
      HexIff(s[i]);
    }
  }

  function Spelled(uuid: string): Model -> bool {
    (m: Model) => SameLetters(m.uuid, uuid)
  }

  /** The model at i is there, not deleted, and satisfies p. */
  predicate Picks(p: Model -> bool, models: seq<Option<Model>>, i: nat)
    requires i < |models|
  {
    models[i].Some? && models[i].value.status != "STATUS_DELETED" && p(models[i].value)
  }

  /** And it is the only one that does. */
  ghost predicate PicksOnly(p: Model -> bool, models: seq<Option<Model>>, i: nat) {
    i < |models| && Picks(p, models, i) && forall j :: 0 <= j < |models| && j != i ==> !Picks(p, models, j)
  }

  lemma KeepAppend(p: Model -> bool, s: seq<Model>, x: Model)
    ensures Keep(p, s + [x]) == Keep(p, s) + (if p(x) then [x] else [])
  {
    assert (s + [x])[..|s|] == s;
  }

  /** What the last model adds to those that are kept. */
  lemma KeepLast(p: Model -> bool, models: seq<Option<Model>>)
    requires models != []
    ensures
      var n := |models| - 1;
      Keep(p, Active(models))
      == if Picks(p, models, n) then Keep(p, Active(models[..n])) + [models[n].value] else Keep(p, Active(models[..n]))
  {
    var n := |models| - 1;
    var front := Active(models[..n]);
    if models[n].Some? && models[n].value.status != STATUS_DELETED {
      KeepAppend(p, front, models[n].value);
      assert Keep(p, front) + [] == Keep(p, front);
    } else {
      assert front + [] == front;
    }
  }

  lemma {:induction false} NonePicked(p: Model -> bool, models: seq<Option<Model>>)
    ensures Keep(p, Active(models)) == [] <==> forall j :: 0 <= j < |models| ==> !Picks(p, models, j)
  {
    if models != [] {
      NonePicked(p, models[..|models| - 1]);
      PicksBefore(p, models);
      KeepLast(p, models);
    }
  }

  /** One model is kept exactly if one is picked, and it is that one. */
  lemma {:induction false} OnePicked(p: Model -> bool, models: seq<Option<Model>>)
    ensures |Keep(p, Active(models))| == 1 ==> exists i: nat :: PicksOnly(p, models, i)
    ensures forall i: nat :: PicksOnly(p, models, i) ==> Keep(p, Active(models)) == [models[i].value]
  {
    if models != [] {
      var n := |models| - 1;
      OnePicked(p, models[..n]);
      NonePicked(p, models[..n]);
      PicksBefore(p, models);
      KeepLast(p, models);
      if |Keep(p, Active(models))| == 1 {
        if Picks(p, models, n) {
          assert PicksOnly(p, models, n);
        } else {
          var i: nat :| PicksOnly(p, models[..n], i);
          assert PicksOnly(p, models, i);
        }
      }
    }
  }

  lemma PicksBefore(p: Model -> bool, models: seq<Option<Model>>)
    requires models != []
    ensures
      var n := |models| - 1;
      && (forall j :: 0 <= j < n ==> (Picks(p, models[..n], j) <==> Picks(p, models, j)))
      && (forall i: nat :: i < n ==>
            (PicksOnly(p, models, i) <==> PicksOnly(p, models[..n], i) && !Picks(p, models, n)))
  {
    var n := |models| - 1;
    assert forall j :: 0 <= j < n ==> models[..n][j] == models[j];
    forall i: nat | i < n
      ensures PicksOnly(p, models, i) <==> PicksOnly(p, models[..n], i) && !Picks(p, models, n)
    {
      assert forall j :: 0 <= j < n ==> (Picks(p, models[..n], j) <==> Picks(p, models, j));
    }
  }

  lemma {:induction false} KeepSame(p: Model -> bool, q: Model -> bool, s: seq<Model>)
    requires forall m :: p(m) <==> q(m)
    ensures Keep(p, s) == Keep(q, s)
  {
    if s != [] { KeepSame(p, q, s[..|s| - 1]); }
  }

  lemma SpelledIsHasUuid(uuid: string, s: seq<Model>)
    ensures Keep(Spelled(uuid), s) == Keep(HasUuid(uuid), s)
  {
    forall m: Model
      ensures Spelled(uuid)(m) <==> HasUuid(uuid)(m)
    {
      EqualFoldIff(m.uuid, uuid);
    }
    KeepSame(Spelled(uuid), HasUuid(uuid), s);
  }

  /** The model at i is the one that each identifier given stands for. */
  ghost predicate StandsFor(uuid: string, name: string, models: seq<Option<Model>>, i: nat) {
    && (uuid != "" ==> IsGrouped(uuid) && PicksOnly(Spelled(uuid), models, i))
    && (uuid == "" || name != "" ==> PicksOnly(HasName(name), models, i))
  }

  lemma FoundByUuid(lower: string -> string, uuid: string, models: seq<Option<Model>>)
    ensures var l := LookupByUuid(lower, uuid, Active(models));
      && (Found(l) ==> IsGrouped(uuid) && exists i: nat :: PicksOnly(Spelled(uuid), models, i))
      && (IsGrouped(uuid) ==> forall i: nat :: PicksOnly(Spelled(uuid), models, i) ==>
            Found(l) && l.uuid == models[i].value.uuid && Keep(HasUuid(uuid), Active(models)) == [models[i].value])
  {
    ExactUuidIff(uuid);
    SpelledIsHasUuid(uuid, Active(models));
    OnePicked(Spelled(uuid), models);
  }

  lemma FoundByName(lower: string -> string, name: string, models: seq<Option<Model>>)
    ensures var l := LookupByName(lower, name, Active(models));
      && (Found(l) ==> exists i: nat :: PicksOnly(HasName(name), models, i))
      && (forall i: nat :: PicksOnly(HasName(name), models, i) ==> Found(l) && l.uuid == models[i].value.uuid)
  {
    OnePicked(HasName(name), models);
  }

  lemma StandingIsTarget(lower: string -> string, uuid: string, name: string, models: seq<Option<Model>>, i: nat)
    requires StandsFor(uuid, name, models, i)
    ensures i < |models| && models[i].Some?
    ensures Resolve(lower, uuid, name, Active(models)).target == Some(Target(models[i].value.uuid, models[i].value.name))
  {
    var m := models[i].value;
    if uuid != "" {
      FoundByUuid(lower, uuid, models);
      KeepMember(HasUuid(uuid), Active(models), m);
      OnlyByUuid(uuid, Active(models), m);
    }
    if uuid == "" || name != "" {
      FoundByName(lower, name, models);
    }
  }

  lemma TargetStands(lower: string -> string, uuid: string, name: string, models: seq<Option<Model>>) returns (i: nat)
    requires Resolve(lower, uuid, name, Active(models)).target.Some?
    ensures StandsFor(uuid, name, models, i)
  {
    if uuid != "" {
      FoundByUuid(lower, uuid, models);
      i :| PicksOnly(Spelled(uuid), models, i);
      if name != "" {
        FoundByName(lower, name, models);
        var j: nat :| PicksOnly(HasName(name), models, j);
        SameUuidIsSame(uuid, models, i, j);
      }
    } else {
      FoundByName(lower, name, models);
      i :| PicksOnly(HasName(name), models, i);
    }
  }

  lemma SameUuidIsSame(uuid: string, models: seq<Option<Model>>, i: nat, j: nat)
    requires PicksOnly(Spelled(uuid), models, i) && j < |models| && models[j].Some?
    requires models[j].value.status != "STATUS_DELETED" && models[j].value.uuid == models[i].value.uuid
    ensures i == j
  {
    assert Picks(Spelled(uuid), models, j);
  }

  /** A target comes back exactly if one model of those that are there and not deleted is the
      only one with the name given, to the letter, and the only one with the full UUID given,
      in whatever letters; and then it is that model's UUID and name. */
  lemma TargetIff(lower: string -> string, uuid: string, name: string, models: seq<Option<Model>>, t: Target)
    ensures Resolve(lower, uuid, name, Active(models)).target == Some(t) <==>
            exists i: nat :: StandsFor(uuid, name, models, i) && t == Target(models[i].value.uuid, models[i].value.name)
  {
    if Resolve(lower, uuid, name, Active(models)).target == Some(t) {
      var i := TargetStands(lower, uuid, name, models);
      StandingIsTarget(lower, uuid, name, models, i);
    }
    if i: nat :| StandsFor(uuid, name, models, i) && t == Target(models[i].value.uuid, models[i].value.name) {
      StandingIsTarget(lower, uuid, name, models, i);
    }
  }

  // What comes back when there is no target

  ghost predicate NonePicks(p: Model -> bool, models: seq<Option<Model>>) {
    forall j :: 0 <= j < |models| ==> !Picks(p, models, j)
  }

  ghost predicate OnePicks(p: Model -> bool, models: seq<Option<Model>>) {
    exists i: nat :: PicksOnly(p, models, i)
  }

  /** The candidates are the models whose field contains the query, up to capitals. */
  ghost predicate AreCandidates(matches: seq<Model>, p: Model -> bool, models: seq<Option<Model>>) {
    forall m :: m in matches <==> exists j :: 0 <= j < |models| && Picks(p, models, j) && models[j].value == m
  }

  lemma {:induction false} KeptAreCandidates(p: Model -> bool, models: seq<Option<Model>>, m: Model)
    ensures m in Keep(p, Active(models)) <==> exists j :: 0 <= j < |models| && Picks(p, models, j) && models[j].value == m
  {
    if models != [] {
      var n := |models| - 1;
      KeptAreCandidates(p, models[..n], m);
      PicksBefore(p, models);
      KeepLast(p, models);
      if m in Keep(p, Active(models[..n])) {
        var j :| 0 <= j < n && Picks(p, models[..n], j) && models[..n][j].value == m;
        assert Picks(p, models, j) && models[j].value == m;
      }
      if j :| 0 <= j < |models| && Picks(p, models, j) && models[j].value == m {
        if j < n { assert Picks(p, models[..n], j) && models[..n][j].value == m; }
      }
    }
  }

  ghost predicate HasPart(text: string, part: string) {
    exists i: nat :: OccursAt(text, part, i)
  }

  lemma ContainingIff(lower: string -> string, query: string, m: Model)
    ensures NameContains(lower, lower(query))(m) <==> HasPart(lower(m.name), lower(query))
    ensures UuidContains(lower, lower(query))(m) <==> HasPart(lower(m.uuid), lower(query))
  {
    ContainsIff(lower(m.name), lower(query));
    ContainsIff(lower(m.uuid), lower(query));
  }

  lemma KeepAreCandidates(p: Model -> bool, models: seq<Option<Model>>)
    ensures AreCandidates(Keep(p, Active(models)), p, models)
  {
    forall m: Model
      ensures m in Keep(p, Active(models)) <==> exists j :: 0 <= j < |models| && Picks(p, models, j) && models[j].value == m
    {
      KeptAreCandidates(p, models, m);
    }
  }

  /** A name alone: the target if one model has it, an error if several do, and if none does
      the models whose name contains it, up to capitals. */
  lemma ByNameAlone(lower: string -> string, name: string, models: seq<Option<Model>>)
    ensures
      var r := Resolve(lower, "", name, Active(models));
      if OnePicks(HasName(name), models) then r.target.Some?
      else if NonePicks(HasName(name), models) then
        && r.unresolved.Some? && r.unresolved.value.query == name && r.unresolved.value.field == ByName
        && AreCandidates(r.unresolved.value.matches, NameContains(lower, lower(name)), models)
      else r == Outcome(None, None, Some(AmbiguousName))
  {
    NonePicked(HasName(name), models);
    OnePicked(HasName(name), models);
    KeepAreCandidates(NameContains(lower, lower(name)), models);
  }

  /** A UUID alone: a full one is as a name, without candidates; any other gives only the
      models whose UUID contains it, up to capitals. */
  lemma ByUuidAlone(lower: string -> string, uuid: string, models: seq<Option<Model>>)
    requires uuid != ""
    ensures
      var r := Resolve(lower, uuid, "", Active(models));
      if !IsGrouped(uuid) then
        && r.unresolved.Some? && r.unresolved.value.query == uuid && r.unresolved.value.field == ByUuid
        && AreCandidates(r.unresolved.value.matches, UuidContains(lower, lower(uuid)), models)
      else if OnePicks(Spelled(uuid), models) then r.target.Some?
      else if NonePicks(Spelled(uuid), models) then r == Outcome(None, Some(Unresolved(uuid, ByUuid, [])), None)
      else r == Outcome(None, None, Some(AmbiguousUuid))
  {
    ExactUuidIff(uuid);
    SpelledIsHasUuid(uuid, Active(models));
    NonePicked(Spelled(uuid), models);
    OnePicked(Spelled(uuid), models);
    KeepAreCandidates(UuidContains(lower, lower(uuid)), models);
    if IsGrouped(uuid) && OnePicks(Spelled(uuid), models) {
      var i: nat :| PicksOnly(Spelled(uuid), models, i);
      StandingIsTarget(lower, uuid, "", models, i);
    }
  }

  /** Both: the name decides first, then the UUID, and then they must be of one model. */
  lemma ByBoth(lower: string -> string, uuid: string, name: string, models: seq<Option<Model>>)
    requires uuid != "" && name != ""
    ensures
      var active := Active(models);
      var r, byName, byUuid := Resolve(lower, uuid, name, active), Resolve(lower, "", name, active), Resolve(lower, uuid, "", active);
      if byName.target.None? then r == byName
      else if byUuid.target.None? then r == byUuid
      else if byName.target == byUuid.target then r == byName
      else r == Outcome(None, None, Some(Mismatch))
  {
    FoundByUuid(lower, uuid, models);
    FoundByName(lower, name, models);
    if Found(LookupByUuid(lower, uuid, Active(models))) {
      var i: nat :| PicksOnly(Spelled(uuid), models, i);
      StandingIsTarget(lower, uuid, "", models, i);
      if Found(LookupByName(lower, name, Active(models))) {
        var j: nat :| PicksOnly(HasName(name), models, j);
        StandingIsTarget(lower, "", name, models, j);
        if models[j].value.uuid == models[i].value.uuid { SameUuidIsSame(uuid, models, i, j); }
      }
    }
  }

  /** A partial UUID never resolves. */
  lemma PartialNeverResolves(lower: string -> string, uuid: string, name: string, active: seq<Model>)
    requires uuid != "" && !IsExactUuid(uuid)
    ensures Resolve(lower, uuid, name, active).target.None?
  {
  }

  /** Exactly one of a target, candidates and an error comes back, and the error is
      never that the resolved model was not found. */
  lemma OneOutcome(lower: string -> string, uuid: string, name: string, active: seq<Model>)
    ensures
      var r := Resolve(lower, uuid, name, active);
      && (if r.target.Some? then 1 else 0) + (if r.unresolved.Some? then 1 else 0) + (if r.err.Some? then 1 else 0) == 1
      && r.err != Some(NotFound)
  {
    var byName, byUuid := LookupByName(lower, name, active), LookupByUuid(lower, uuid, active);
    LookupsAreSingle(lower, uuid, name, active);
    if Found(byUuid) { FoundUuidHasModel(lower, uuid, active); }
    CombineIsSingle(uuid, name, byName, byUuid, FirstWith(byUuid.uuid, active));
  }

  /** A lookup has at most one of candidates and an error. */
  predicate IsSingle(l: Lookup) {
    !(l.unresolved.Some? && l.err.Some?) && l.err != Some(NotFound)
  }

  lemma LookupsAreSingle(lower: string -> string, uuid: string, name: string, active: seq<Model>)
    ensures IsSingle(LookupByName(lower, name, active)) && IsSingle(LookupByUuid(lower, uuid, active))
  {
  }

  lemma FoundUuidHasModel(lower: string -> string, uuid: string, active: seq<Model>)
    requires Found(LookupByUuid(lower, uuid, active))
    ensures FirstWith(LookupByUuid(lower, uuid, active).uuid, active).Some?
  {
    OnlyByUuid(uuid, active, Keep(HasUuid(uuid), active)[0]);
  }

  lemma CombineIsSingle(uuid: string, name: string, byName: Lookup, byUuid: Lookup, model: Option<Model>)
    requires IsSingle(byName) && IsSingle(byUuid) && (Found(byUuid) ==> model.Some?)
    ensures
      var r := Combine(uuid, name, byName, byUuid, model);
      && (if r.target.Some? then 1 else 0) + (if r.unresolved.Some? then 1 else 0) + (if r.err.Some? then 1 else 0) == 1
      && r.err != Some(NotFound)
  {
  }

  // ------------------------------------------------------------------
  // Order does not matter
  // ------------------------------------------------------------------

  lemma {:induction false} KeepCounts(p: Model -> bool, s: seq<Model>, m: Model)
    ensures multiset(Keep(p, s))[m] == if p(m) then multiset(s)[m] else 0
  {
    if s != [] {
      KeepCounts(p, s[..|s| - 1], m);
      assert s == s[..|s| - 1] + [s[|s| - 1]];
    }
  }

  lemma OnePermutes(a: seq<Model>, b: seq<Model>)
    requires multiset(a) == multiset(b)
    ensures |a| == |b| && (|a| == 1 ==> a == b)
  {
    assert |multiset(a)| == |a| && |multiset(b)| == |b|;
    if |a| == 1 { assert a[0] in multiset(b); }
  }

  lemma KeepPermutes(p: Model -> bool, s: seq<Model>, t: seq<Model>)
    requires multiset(s) == multiset(t)
    ensures multiset(Keep(p, s)) == multiset(Keep(p, t))
    ensures |Keep(p, s)| == |Keep(p, t)|
    ensures |Keep(p, s)| == 1 ==> Keep(p, s) == Keep(p, t)
  {
    forall m ensures multiset(Keep(p, s))[m] == multiset(Keep(p, t))[m] {
      KeepCounts(p, s, m);
      KeepCounts(p, t, m);
    }
    OnePermutes(Keep(p, s), Keep(p, t));
  }

  lemma {:induction false} ActiveCounts(models: seq<Option<Model>>, m: Model)
    ensures multiset(Active(models))[m] == if m.status != STATUS_DELETED then multiset(models)[Some(m)] else 0
  {
    if models != [] {
      ActiveCounts(models[..|models| - 1], m);
      assert models == models[..|models| - 1] + [models[|models| - 1]];
    }
  }

  lemma ActivePermutes(models: seq<Option<Model>>, others: seq<Option<Model>>)
    requires multiset(models) == multiset(others)
    ensures multiset(Active(models)) == multiset(Active(others))
  {
    forall m ensures multiset(Active(models))[m] == multiset(Active(others))[m] {
      ActiveCounts(models, m);
      ActiveCounts(others, m);
    }
  }

  ghost predicate SameCandidates(a: Option<Unresolved>, b: Option<Unresolved>) {
    && a.Some? == b.Some?
    && (a.Some? ==>
          && a.value.query == b.value.query && a.value.field == b.value.field
          && multiset(a.value.matches) == multiset(b.value.matches))
  }

  ghost predicate SameLookup(a: Lookup, b: Lookup) {
    a.uuid == b.uuid && a.err == b.err && SameCandidates(a.unresolved, b.unresolved)
  }

  /** The same outcome, but for the order of the candidates. */
  ghost predicate SameOutcome(a: Outcome, b: Outcome) {
    a.target == b.target && a.err == b.err && SameCandidates(a.unresolved, b.unresolved)
  }

  lemma LookupsPermute(lower: string -> string, query: string, s: seq<Model>, t: seq<Model>)
    requires multiset(s) == multiset(t)
    ensures SameLookup(LookupByName(lower, query, s), LookupByName(lower, query, t))
    ensures SameLookup(LookupByUuid(lower, query, s), LookupByUuid(lower, query, t))
  {
    KeepPermutes(HasName(query), s, t);
    KeepPermutes(HasUuid(query), s, t);
    KeepPermutes(NameContains(lower, lower(query)), s, t);
    KeepPermutes(UuidContains(lower, lower(query)), s, t);
  }

  lemma FoundModelPermutes(lower: string -> string, uuid: string, s: seq<Model>, t: seq<Model>)
    requires multiset(s) == multiset(t) && Found(LookupByUuid(lower, uuid, s))
    ensures FirstWith(LookupByUuid(lower, uuid, s).uuid, s) == FirstWith(LookupByUuid(lower, uuid, s).uuid, t)
  {
    KeepPermutes(HasUuid(uuid), s, t);
    OnlyByUuid(uuid, s, Keep(HasUuid(uuid), s)[0]);
    OnlyByUuid(uuid, t, Keep(HasUuid(uuid), s)[0]);
  }

  lemma CombinePermutes(uuid: string, name: string, byName: Lookup, byName': Lookup, byUuid: Lookup, byUuid': Lookup,
                        model: Option<Model>, model': Option<Model>)
    requires SameLookup(byName, byName') && SameLookup(byUuid, byUuid')
    requires Found(byUuid) ==> model == model'
    ensures SameOutcome(Combine(uuid, name, byName, byUuid, model), Combine(uuid, name, byName', byUuid', model'))
  {
  }

  /** The outcome does not depend on the order in which the models are listed. */
  lemma OrderDoesNotMatter(lower: string -> string, uuid: string, name: string, models: seq<Option<Model>>, others: seq<Option<Model>>)
    requires multiset(models) == multiset(others)
    ensures SameOutcome(Resolve(lower, uuid, name, Active(models)), Resolve(lower, uuid, name, Active(others)))
  {
    var s, t := Active(models), Active(others);
    ActivePermutes(models, others);
    LookupsPermute(lower, name, s, t);
    LookupsPermute(lower, uuid, s, t);
    var byUuid, byUuid' := LookupByUuid(lower, uuid, s), LookupByUuid(lower, uuid, t);
    if Found(byUuid) { FoundModelPermutes(lower, uuid, s, t); }
    CombinePermutes(uuid, name, LookupByName(lower, name, s), LookupByName(lower, name, t), byUuid, byUuid',
                    FirstWith(byUuid.uuid, s), FirstWith(byUuid'.uuid, t));
  }
}
