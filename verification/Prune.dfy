/**
  Dropping the components nothing refers to (scripts/derive-v2-api.py, `prune_unused`).
 */
module Prune {

  /** A `$ref`: to a component itself, or on into its definition. */
  datatype Ref = Ref(group: string, name: string, deeper: bool)

  /** A component is what its definition refers to. */
  type Group = map<string, set<Ref>>
  type Components = map<string, Group>

  const GROUPS := ["parameters", "responses", "schemas", "headers", "requestBodies"]

  /** The reference occurs in the rest of the document or in some component. */
  predicate Mentioned(outside: set<Ref>, comps: Components, r: Ref) {
    r in outside || exists h, m | h in comps && m in comps[h] :: r in comps[h][m]
  }

  /** The script searches for references to the component itself. */
  predicate InUse(outside: set<Ref>, comps: Components, g: string, name: string) {
    Mentioned(outside, comps, Ref(g, name, false))
  }

  predicate Resolves(comps: Components, r: Ref) {
    r.group in comps && r.name in comps[r.group]
  }

  /** One sweep: uses are looked up in the document as it was before the sweep. */
  function Sweep(outside: set<Ref>, comps: Components, g: string): Components
    requires g in comps
  {
    comps[g := map n | n in comps[g] && InUse(outside, comps, g, n) :: comps[g][n]]
  }

  /** Sweeps until one changes nothing. */
  function Settle(outside: set<Ref>, comps: Components, g: string): (r: Components)
    requires g in comps
    ensures r.Keys == comps.Keys && forall h | h in comps && h != g :: r[h] == comps[h]
    decreases comps[g].Keys
  {
    var next := Sweep(outside, comps, g);
    if next[g] == comps[g] then comps
    else
      assert next[g].Keys <= comps[g].Keys && next[g].Keys != comps[g].Keys;
      Settle(outside, next, g)
  }

  /** A group left empty goes too. */
  function Drop(outside: set<Ref>, comps: Components, g: string): Components {
    if g !in comps then comps
    else var c := Settle(outside, comps, g); if c[g] == map[] then c - {g} else c
  }

  function Pruned(outside: set<Ref>, comps: Components, groups: seq<string>): Components {
    if groups == [] then comps
    else Drop(outside, Pruned(outside, comps, groups[..|groups| - 1]), groups[|groups| - 1])
  }

  /** A sweep that has yet to look at `names`. */
  function Left(outside: set<Ref>, comps: Components, g: string, names: set<string>): Group
    requires g in comps
  {
    map n | n in comps[g] && (n in names || InUse(outside, comps, g, n)) :: comps[g][n]
  }

  lemma LeftStep(outside: set<Ref>, comps: Components, g: string, names: set<string>, name: string)
    requires g in comps && names <= comps[g].Keys && name in names
    ensures Left(outside, comps, g, names - {name})
         == if InUse(outside, comps, g, name) then Left(outside, comps, g, names)
            else Left(outside, comps, g, names) - {name}
  {}

  /** A sweep only removes, and removes exactly what is not in use. */
  lemma SweepChanges(outside: set<Ref>, comps: Components, g: string)
    requires g in comps
    ensures Sweep(outside, comps, g) == comps[g := Left(outside, comps, g, {})]
    ensures Sweep(outside, comps, g)[g].Keys <= comps[g].Keys
    ensures (exists n | n in comps[g] :: !InUse(outside, comps, g, n)) <==> Sweep(outside, comps, g)[g] != comps[g]
    ensures Sweep(outside, comps, g)[g] != comps[g] ==> Sweep(outside, comps, g)[g].Keys < comps[g].Keys
    ensures Sweep(outside, comps, g)[g] == comps[g] ==> Sweep(outside, comps, g) == comps
  {
    var next := Sweep(outside, comps, g);
    assert next[g] == Left(outside, comps, g, {});
    if n :| n in comps[g] && !InUse(outside, comps, g, n) {
      assert n !in next[g];
    } else {
      assert next[g] == comps[g];
      assert next == comps;
    }
  }

  class Document {
    const outside: set<Ref>
    var components: Components

    constructor (outside: set<Ref>, components: Components)
      ensures this.outside == outside && this.components == components
    {
      this.outside, this.components := outside, components;
    }

    method PruneGroup(g: string)
      requires g in components
      modifies this`components
      ensures components == Settle(outside, old(components), g)
    {
      var changed := true;
      while changed
        invariant g in components && Settle(outside, components, g) == Settle(outside, old(components), g)
        invariant !changed ==> Sweep(outside, components, g)[g] == components[g]
        decreases components[g].Keys, changed
      {
        changed := SweepOnce(g);
      }
    }

    method SweepOnce(g: string) returns (changed: bool)
      requires g in components
      modifies this`components
      ensures components == Sweep(outside, old(components), g)
      ensures changed <==> components[g] != old(components)[g]
      ensures changed ==> components[g].Keys < old(components)[g].Keys
      ensures !changed ==> components == old(components)
    {
      changed := false;
      var before := components;
      var names := before[g].Keys;
      assert Left(outside, before, g, names) == before[g];
      while names != {}
        invariant g in components && names <= before[g].Keys && names <= components[g].Keys
        invariant components == before[g := Left(outside, before, g, names)]
        invariant changed <==> exists n | n in before[g].Keys - names :: !InUse(outside, before, g, n)
      {
        var name :| name in names;
        LeftStep(outside, before, g, names, name);
        if !InUse(outside, before, g, name) {
          components := components[g := components[g] - {name}];
          changed := true;
        }
        names := names - {name};
      }
      SweepChanges(outside, before, g);
    }

    method PruneUnused()
      modifies this`components
      ensures components == Pruned(outside, old(components), GROUPS)
    {
      for k := 0 to |GROUPS|
        invariant components == Pruned(outside, old(components), GROUPS[..k])
      {
        var g := GROUPS[k];
        assert GROUPS[..k + 1][..k] == GROUPS[..k];
        if g !in components { continue; }
        PruneGroup(g);
        if components[g] == map[] { components := components - {g}; }
      }
      assert GROUPS[..|GROUPS|] == GROUPS;
    }
  }

  // ---------------------------------------------------------------- what survives

  /** Every component of `a` is one of `b`, unchanged. */
  ghost predicate Within(a: Components, b: Components) {
    forall h, n | h in a && n in a[h] :: h in b && n in b[h] && b[h][n] == a[h][n]
  }

  lemma {:induction false} SettleWithin(outside: set<Ref>, comps: Components, g: string)
    requires g in comps
    ensures Within(Settle(outside, comps, g), comps)
    decreases comps[g].Keys
  {
    var next := Sweep(outside, comps, g);
    if next[g] == comps[g] {
    } else {
      assert next[g].Keys <= comps[g].Keys && next[g].Keys != comps[g].Keys;
      SettleWithin(outside, next, g);
    }
  }

  /** What is left of a group is in use. */
  lemma {:induction false} SettledInUse(outside: set<Ref>, comps: Components, g: string)
    requires g in comps
    ensures forall n | n in Settle(outside, comps, g)[g] :: InUse(outside, Settle(outside, comps, g), g, n)
    decreases comps[g].Keys
  {
    var next := Sweep(outside, comps, g);
    if next[g] == comps[g] {
      assert forall n | n in comps[g] :: n in next[g];
    } else {
      assert next[g].Keys <= comps[g].Keys && next[g].Keys != comps[g].Keys;
      SettledInUse(outside, next, g);
    }
  }

  /** Components of the group that use each other, with the rest of `core`, outlast the sweeps. */
  lemma {:induction false} CoreSettles(outside: set<Ref>, comps: Components, core: Components, g: string)
    requires g in comps && Within(core, comps)
    requires g in core ==> forall n | n in core[g] :: InUse(outside, core, g, n)
    ensures Within(core, Settle(outside, comps, g))
    decreases comps[g].Keys
  {
    var next := Sweep(outside, comps, g);
    if next[g] == comps[g] {
    } else {
      assert next[g].Keys <= comps[g].Keys && next[g].Keys != comps[g].Keys;
      forall h, n | h in core && n in core[h]
        ensures h in next && n in next[h] && next[h][n] == core[h][n]
      {}
      CoreSettles(outside, next, core, g);
    }
  }

  function Only(group: Group, keep: set<string>): Group {
    map n | n in group && n in keep :: group[n]
  }

  /** With only `keep` left of the group, each of `keep` is in use. */
  ghost predicate Supported(outside: set<Ref>, comps: Components, g: string, keep: set<string>)
    requires g in comps
  {
    keep <= comps[g].Keys && forall n | n in keep :: InUse(outside, comps[g := Only(comps[g], keep)], g, n)
  }

  /** The sweeps leave exactly the components that belong to some set whose members stay in use without the others. */
  lemma SettleIsGreatest(outside: set<Ref>, comps: Components, g: string, name: string)
    requires g in comps
    ensures name in Settle(outside, comps, g)[g] <==> exists keep :: Supported(outside, comps, g, keep) && name in keep
  {
    SettledIsSupported(outside, comps, g);
    forall keep | Supported(outside, comps, g, keep) && name in keep
      ensures name in Settle(outside, comps, g)[g]
    {
      var core := comps[g := Only(comps[g], keep)];
      CoreSettles(outside, comps, core, g);
      assert name in core[g];
    }
  }

  lemma SettledIsSupported(outside: set<Ref>, comps: Components, g: string)
    requires g in comps
    ensures Supported(outside, comps, g, Settle(outside, comps, g)[g].Keys)
  {
    var settled := Settle(outside, comps, g);
    SettledInUse(outside, comps, g);
    SettledIsCut(outside, comps, g);
    forall n | n in settled[g].Keys
      ensures InUse(outside, comps[g := Only(comps[g], settled[g].Keys)], g, n)
    {}
  }

  lemma SettledIsCut(outside: set<Ref>, comps: Components, g: string)
    requires g in comps
    ensures var settled := Settle(outside, comps, g);
            settled[g].Keys <= comps[g].Keys && settled == comps[g := Only(comps[g], settled[g].Keys)]
  {
    var settled := Settle(outside, comps, g);
    SettleWithin(outside, comps, g);
    PartIsOnly(settled[g], comps[g]);
    SameButOne(settled, comps, g);
  }

  lemma PartIsOnly(part: Group, whole: Group)
    requires forall n | n in part :: n in whole && whole[n] == part[n]
    ensures part.Keys <= whole.Keys && part == Only(whole, part.Keys)
  {}

  lemma SameButOne(a: Components, b: Components, g: string)
    requires g in a && a.Keys == b.Keys && forall h | h in b && h != g :: a[h] == b[h]
    ensures a == b[g := a[g]]
  {}

  // ---------------------------------------------------------------- the whole document

  lemma DropWithin(outside: set<Ref>, comps: Components, g: string)
    ensures Within(Drop(outside, comps, g), comps)
  {
    if g in comps { SettleWithin(outside, comps, g); }
  }

  lemma {:induction false} PrunedWithin(outside: set<Ref>, comps: Components, groups: seq<string>)
    ensures Within(Pruned(outside, comps, groups), comps)
  {
    if groups == [] {
    } else {
      var rest := Pruned(outside, comps, groups[..|groups| - 1]);
      PrunedWithin(outside, comps, groups[..|groups| - 1]);
      DropWithin(outside, rest, groups[|groups| - 1]);
    }
  }

  /** In `core` every component of the pruned groups is in use. */
  ghost predicate SelfSupporting(outside: set<Ref>, core: Components, groups: seq<string>) {
    forall g, n | g in groups && g in core && n in core[g] :: InUse(outside, core, g, n)
  }

  lemma {:induction false} CoreSurvives(outside: set<Ref>, comps: Components, core: Components, groups: seq<string>)
    requires Within(core, comps) && SelfSupporting(outside, core, groups)
    ensures Within(core, Pruned(outside, comps, groups))
  {
    if groups == [] {
    } else {
      var g, before := groups[|groups| - 1], groups[..|groups| - 1];
      assert SelfSupporting(outside, core, before) by { assert forall x | x in before :: x in groups; }
      CoreSurvives(outside, comps, core, before);
      var rest := Pruned(outside, comps, before);
      assert g in groups;
      if g in rest { CoreSettles(outside, rest, core, g); }
    }
  }

  datatype Node = Node(group: string, name: string)

  /** A chain of references from the rest of the document through components. */
  ghost predicate Path(outside: set<Ref>, comps: Components, p: seq<Node>) {
    && p != [] && Ref(p[0].group, p[0].name, false) in outside
    && (forall i | 0 <= i < |p| :: p[i].group in comps && p[i].name in comps[p[i].group])
    && forall i | 0 < i < |p| :: Ref(p[i].group, p[i].name, false) in comps[p[i - 1].group][p[i - 1].name]
  }

  ghost function Along(comps: Components, p: seq<Node>): Components {
    map h | h in comps :: map n | n in comps[h] && Node(h, n) in p :: comps[h][n]
  }

  /** Nothing reachable by references from the rest of the document is dropped. */
  lemma ReachableSurvives(outside: set<Ref>, comps: Components, p: seq<Node>)
    requires Path(outside, comps, p)
    ensures forall i | 0 <= i < |p| :: Resolves(Pruned(outside, comps, GROUPS), Ref(p[i].group, p[i].name, false))
  {
    var core := Along(comps, p);
    forall g, n | g in GROUPS && g in core && n in core[g]
      ensures InUse(outside, core, g, n)
    {
      var i :| 0 <= i < |p| && p[i] == Node(g, n);
      if i > 0 {
        assert p[i - 1] in p;
        assert Ref(g, n, false) in core[p[i - 1].group][p[i - 1].name];
      }
    }
    CoreSurvives(outside, comps, core, GROUPS);
    forall i | 0 <= i < |p|
      ensures Resolves(Pruned(outside, comps, GROUPS), Ref(p[i].group, p[i].name, false))
    { assert p[i] in p && p[i].name in core[p[i].group]; }
  }

  // ---------------------------------------------------------------- exactly what survives

  ghost predicate Distinct(groups: seq<string>) {
    forall i, k | 0 <= i < k < |groups| :: groups[i] != groups[k]
  }

  lemma MentionedGrows(outside: set<Ref>, a: Components, b: Components, r: Ref)
    requires Within(a, b) && Mentioned(outside, a, r)
    ensures Mentioned(outside, b, r)
  {
    if r !in outside {
      var h, m :| h in a && m in a[h] && r in a[h][m];
      assert r in b[h][m];
    }
  }

  function Chosen(group: Group, g: string, keep: set<Node>): Group {
    map n | n in group && Node(g, n) in keep :: group[n]
  }

  /** The document with these groups cut down to `keep`. */
  function Cut(comps: Components, groups: seq<string>, keep: set<Node>): Components {
    map h | h in comps :: if h in groups then Chosen(comps[h], h, keep) else comps[h]
  }

  lemma CutHas(comps: Components, groups: seq<string>, keep: set<Node>, h: string, n: string)
    ensures h in Cut(comps, groups, keep) && n in Cut(comps, groups, keep)[h]
            <==> h in comps && n in comps[h] && (h in groups ==> Node(h, n) in keep)
    ensures h in comps && n in comps[h] && (h in groups ==> Node(h, n) in keep)
            ==> Cut(comps, groups, keep)[h][n] == comps[h][n]
  {}

  /**
    Each kept component of a group is in use when that group and the ones before it are cut
    down to `keep`, and the groups after it are still whole.
   */
  ghost predicate Staged(outside: set<Ref>, comps: Components, groups: seq<string>, keep: set<Node>) {
    forall k | 0 <= k < |groups| :: StagedAt(outside, comps, groups, keep, k)
  }

  ghost predicate StagedAt(outside: set<Ref>, comps: Components, groups: seq<string>, keep: set<Node>, k: nat)
    requires k < |groups|
  {
    forall n | Node(groups[k], n) in keep :: InUse(outside, Cut(comps, groups[..k + 1], keep), groups[k], n)
  }

  /** The component is of no pruned group, or of a set that is in use stage by stage. Nothing is pruned to tell. */
  ghost predicate Stays(outside: set<Ref>, comps: Components, groups: seq<string>, h: string, n: string) {
    h in comps && n in comps[h]
    && (h in groups ==> exists keep :: Staged(outside, comps, groups, keep) && Node(h, n) in keep)
  }

  lemma {:induction false} StagedSurvives(outside: set<Ref>, comps: Components, groups: seq<string>, keep: set<Node>)
    requires Staged(outside, comps, groups, keep)
    ensures Within(Cut(comps, groups, keep), Pruned(outside, comps, groups))
  {
    if groups == [] {
    } else {
      var k := |groups| - 1;
      var g, before, core := groups[k], groups[..k], Cut(comps, groups, keep);
      forall i | 0 <= i < k
        ensures StagedAt(outside, comps, before, keep, i)
      { assert StagedAt(outside, comps, groups, keep, i) && before[..i + 1] == groups[..i + 1]; }
      StagedSurvives(outside, comps, before, keep);
      var rest := Pruned(outside, comps, before);
      CutFurther(comps, before, g, keep, rest);
      assert groups == before + [g] && groups[..k + 1] == groups;
      if g in rest {
        assert StagedAt(outside, comps, groups, keep, k);
        forall n | g in core && n in core[g]
          ensures InUse(outside, core, g, n)
        { CutHas(comps, groups, keep, g, n); }
        CoreSettles(outside, rest, core, g);
      }
    }
  }

  lemma CutFurther(comps: Components, before: seq<string>, g: string, keep: set<Node>, rest: Components)
    requires Within(Cut(comps, before, keep), rest)
    ensures Within(Cut(comps, before + [g], keep), rest)
  {
    var core := Cut(comps, before + [g], keep);
    forall h, n | h in core && n in core[h]
      ensures h in rest && n in rest[h] && rest[h][n] == core[h][n]
    {
      CutHas(comps, before + [g], keep, h, n);
      CutHas(comps, before, keep, h, n);
    }
  }

  /** A group is not touched again once its turn is over. */
  lemma {:induction false} TurnIsOver(outside: set<Ref>, comps: Components, groups: seq<string>, j: nat, h: string)
    requires j <= |groups| && h !in groups[j..]
    ensures var a, b := Pruned(outside, comps, groups[..j]), Pruned(outside, comps, groups);
            (h in a <==> h in b) && (h in a ==> a[h] == b[h])
  {
    if j == |groups| {
      assert groups[..j] == groups;
    } else {
      var before := groups[..|groups| - 1];
      assert before[..j] == groups[..j] && groups[j..] == before[j..] + [groups[|groups| - 1]];
      TurnIsOver(outside, comps, before, j, h);
    }
  }

  lemma {:induction false} PrunedAgrees(outside: set<Ref>, comps: Components, groups: seq<string>, k: nat)
    requires Distinct(groups) && k < |groups|
    ensures var after := Pruned(outside, comps, groups[..k + 1]);
            forall h | h in groups[..k + 1] && h in after ::
              h in Pruned(outside, comps, groups) && Pruned(outside, comps, groups)[h] == after[h]
  {
    var after := Pruned(outside, comps, groups[..k + 1]);
    forall h | h in groups[..k + 1] && h in after
      ensures h in Pruned(outside, comps, groups) && Pruned(outside, comps, groups)[h] == after[h]
    {
      assert h !in groups[k + 1..];
      TurnIsOver(outside, comps, groups, k + 1, h);
    }
  }

  /** After a group's turn, what is left of it is in use. */
  lemma InUseAfterTurn(outside: set<Ref>, comps: Components, groups: seq<string>, k: nat, n: string)
    requires k < |groups|
    requires var after := Pruned(outside, comps, groups[..k + 1]); groups[k] in after && n in after[groups[k]]
    ensures InUse(outside, Pruned(outside, comps, groups[..k + 1]), groups[k], n)
  {
    assert groups[..k + 1][..k] == groups[..k];
    SettledInUse(outside, Pruned(outside, comps, groups[..k]), groups[k]);
  }

  function Nodes(comps: Components): set<Node> {
    set h, n | h in comps && n in comps[h] :: Node(h, n)
  }

  lemma SurvivorsAreStaged(outside: set<Ref>, comps: Components, groups: seq<string>, k: nat)
    requires Distinct(groups) && k < |groups|
    ensures StagedAt(outside, comps, groups, Nodes(Pruned(outside, comps, groups)), k)
  {
    var pruned, after, g := Pruned(outside, comps, groups), Pruned(outside, comps, groups[..k + 1]), groups[k];
    var cut := Cut(comps, groups[..k + 1], Nodes(pruned));
    PrunedAgrees(outside, comps, groups, k);
    PrunedWithin(outside, comps, groups[..k + 1]);
    forall h, n | h in after && n in after[h]
      ensures h in cut && n in cut[h] && cut[h][n] == after[h][n]
    { CutHas(comps, groups[..k + 1], Nodes(pruned), h, n); }
    forall n | Node(g, n) in Nodes(pruned)
      ensures InUse(outside, cut, g, n)
    {
      TurnIsOver(outside, comps, groups, k + 1, g);
      InUseAfterTurn(outside, comps, groups, k, n);
      MentionedGrows(outside, after, cut, Ref(g, n, false));
    }
  }

  /** The whole run, from the document alone: a component survives if and only if it stays. */
  lemma SurvivesExactly(outside: set<Ref>, comps: Components, groups: seq<string>, h: string, n: string)
    requires Distinct(groups)
    ensures var pruned := Pruned(outside, comps, groups);
            h in pruned && n in pruned[h] <==> Stays(outside, comps, groups, h, n)
  {
    var pruned := Pruned(outside, comps, groups);
    PrunedWithin(outside, comps, groups);
    if h !in groups {
      assert groups[..0] == [];
      TurnIsOver(outside, comps, groups, 0, h);
    } else {
      if h in pruned && n in pruned[h] {
        forall k | 0 <= k < |groups| { SurvivorsAreStaged(outside, comps, groups, k); }
        assert Staged(outside, comps, groups, Nodes(pruned)) && Node(h, n) in Nodes(pruned);
      }
      forall keep | Staged(outside, comps, groups, keep) && Node(h, n) in keep && h in comps && n in comps[h]
        ensures h in pruned && n in pruned[h]
      {
        StagedSurvives(outside, comps, groups, keep);
        CutHas(comps, groups, keep, h, n);
      }
    }
  }

  // ---------------------------------------------------------------- references keep resolving

  /** What settling leaves mentioned, it leaves in place. */
  lemma {:induction false} MentionedStays(outside: set<Ref>, comps: Components, g: string, n: string)
    requires g in comps && n in comps[g] && InUse(outside, Settle(outside, comps, g), g, n)
    ensures n in Settle(outside, comps, g)[g]
    decreases comps[g].Keys
  {
    var next := Sweep(outside, comps, g);
    if next[g] == comps[g] {
    } else {
      assert next[g].Keys <= comps[g].Keys && next[g].Keys != comps[g].Keys;
      SettleWithin(outside, comps, g);
      MentionedStays(outside, next, g, n);
    }
  }

  lemma DropKeepsReference(outside: set<Ref>, comps: Components, g: string, r: Ref)
    requires Mentioned(outside, Drop(outside, comps, g), r) && !r.deeper && Resolves(comps, r)
    ensures Resolves(Drop(outside, comps, g), r)
  {
    if g in comps && r.group == g {
      var settled := Settle(outside, comps, g);
      assert r == Ref(g, r.name, false);
      MentionedStays(outside, comps, g, r.name);
    }
  }

  /** A reference to a component that resolved before, and is still in the document, resolves after. */
  lemma {:induction false} ReferencesKeepResolving(outside: set<Ref>, comps: Components, groups: seq<string>, r: Ref)
    requires Mentioned(outside, Pruned(outside, comps, groups), r) && !r.deeper && Resolves(comps, r)
    ensures Resolves(Pruned(outside, comps, groups), r)
  {
    if groups == [] {
    } else {
      var g, before := groups[|groups| - 1], groups[..|groups| - 1];
      var rest := Pruned(outside, comps, before);
      DropWithin(outside, rest, g);
      ReferencesKeepResolving(outside, comps, before, r);
      DropKeepsReference(outside, rest, g, r);
    }
  }

  /** The same holds of references into a component, when each comes with one to the component itself. */
  lemma DeepReferencesKeepResolving(outside: set<Ref>, comps: Components, r: Ref)
    requires forall d | d in outside :: Ref(d.group, d.name, false) in outside
    requires forall h, n, d | h in comps && n in comps[h] && d in comps[h][n] ::
               Ref(d.group, d.name, false) in comps[h][n]
    requires Mentioned(outside, Pruned(outside, comps, GROUPS), r) && Resolves(comps, r)
    ensures Resolves(Pruned(outside, comps, GROUPS), r)
  {
    var pruned := Pruned(outside, comps, GROUPS);
    PrunedWithin(outside, comps, GROUPS);
    var direct := Ref(r.group, r.name, false);
    assert Mentioned(outside, pruned, direct) by {
      if r !in outside {
        var h, m :| h in pruned && m in pruned[h] && r in pruned[h][m];
        assert direct in pruned[h][m];
      }
    }
    ReferencesKeepResolving(outside, comps, GROUPS, direct);
  }

  /** The references left in the document that resolved before the run resolve after it. */
  ghost predicate NoReferenceBreaks(outside: set<Ref>, comps: Components, pruned: Components) {
    forall r: Ref | Mentioned(outside, pruned, r) && Resolves(comps, r) :: Resolves(pruned, r)
  }

  /**
    Every reference of the pruned document that resolved before resolves after, if and only
    if nothing that stays refers into a component that does not.
   */
  lemma NoReferenceBreaksExactly(outside: set<Ref>, comps: Components, groups: seq<string>)
    requires Distinct(groups)
    ensures NoReferenceBreaks(outside, comps, Pruned(outside, comps, groups)) <==>
              forall r: Ref | r.deeper && Resolves(comps, r) && MentionStays(outside, comps, groups, r) ::
                Stays(outside, comps, groups, r.group, r.name)
  {
    var pruned := Pruned(outside, comps, groups);
    forall r
      ensures Mentioned(outside, pruned, r) <==> MentionStays(outside, comps, groups, r)
      ensures Resolves(pruned, r) <==> Stays(outside, comps, groups, r.group, r.name)
    {
      MentionsExactly(outside, comps, groups, r);
      SurvivesExactly(outside, comps, groups, r.group, r.name);
    }
    forall r: Ref | !r.deeper && Mentioned(outside, pruned, r) && Resolves(comps, r)
      ensures Resolves(pruned, r)
    { ReferencesKeepResolving(outside, comps, groups, r); }
  }

  /** The rest of the document, or a component that stays, holds the reference. */
  ghost predicate MentionStays(outside: set<Ref>, comps: Components, groups: seq<string>, r: Ref) {
    r in outside || exists h, m | h in comps && m in comps[h] :: r in comps[h][m] && Stays(outside, comps, groups, h, m)
  }

  lemma MentionsExactly(outside: set<Ref>, comps: Components, groups: seq<string>, r: Ref)
    requires Distinct(groups)
    ensures Mentioned(outside, Pruned(outside, comps, groups), r) <==> MentionStays(outside, comps, groups, r)
  {
    var pruned := Pruned(outside, comps, groups);
    PrunedWithin(outside, comps, groups);
    if r !in outside {
      if Mentioned(outside, pruned, r) {
        var h, m :| h in pruned && m in pruned[h] && r in pruned[h][m];
        SurvivesExactly(outside, comps, groups, h, m);
        assert r in comps[h][m];
      }
      if MentionStays(outside, comps, groups, r) {
        var h, m :| h in comps && m in comps[h] && r in comps[h][m] && Stays(outside, comps, groups, h, m);
        SurvivesExactly(outside, comps, groups, h, m);
        assert r in pruned[h][m];
      }
    }
  }

  /** A reference into a component does not keep it. */
  lemma DeepReferenceDangles()
    ensures var r := Ref("schemas", "Run", true);
            var comps: Components := map["schemas" := map["Run" := {}]];
            Resolves(comps, r) && !Resolves(Pruned({r}, comps, GROUPS), r)
  {
    var r := Ref("schemas", "Run", true);
    var comps: Components := map["schemas" := map["Run" := {}]];
    if Resolves(Pruned({r}, comps, GROUPS), r) {
      PrunedWithin({r}, comps, GROUPS);
      SurvivorWasInUse({r}, comps, GROUPS, "schemas", "Run");
    }
  }

  // ---------------------------------------------------------------- running it again

  /** What survives was in use to begin with. */
  lemma {:induction false} SurvivorWasInUse(
      outside: set<Ref>, comps: Components, groups: seq<string>, g: string, n: string)
    requires g in groups && g in Pruned(outside, comps, groups) && n in Pruned(outside, comps, groups)[g]
    ensures InUse(outside, comps, g, n)
  {
    var last, before := groups[|groups| - 1], groups[..|groups| - 1];
    var rest := Pruned(outside, comps, before);
    PrunedWithin(outside, comps, before);
    DropWithin(outside, rest, last);
    if last == g {
      SettleWithin(outside, rest, g);
      SettledInUse(outside, rest, g);
    } else {
      SurvivorWasInUse(outside, comps, before, g, n);
    }
  }

  /** Only the component itself, if anything, mentions it. */
  ghost predicate MentionedByItselfOnly(outside: set<Ref>, comps: Components, g: string, name: string) {
    && Ref(g, name, false) !in outside
    && forall h, m | h in comps && m in comps[h] && (h, m) != (g, name) :: Ref(g, name, false) !in comps[h][m]
  }

  /** A component that nothing else mentions survives the whole run exactly when it mentions itself. */
  lemma SelfReferenceSurvives(outside: set<Ref>, comps: Components, groups: seq<string>, g: string, name: string)
    requires g in groups && Has(comps, g, name) && MentionedByItselfOnly(outside, comps, g, name)
    ensures Has(Pruned(outside, comps, groups), g, name) <==> Ref(g, name, false) in comps[g][name]
  {
    if Ref(g, name, false) in comps[g][name] {
      var keep := {Node(g, name)};
      forall k | 0 <= k < |groups|
        ensures StagedAt(outside, comps, groups, keep, k)
      { if groups[k] == g { KeepsItself(outside, comps, groups[..k + 1], g, name); } }
      StagedSurvives(outside, comps, groups, keep);
      CutHas(comps, groups, keep, g, name);
    } else if Has(Pruned(outside, comps, groups), g, name) {
      SurvivorWasInUse(outside, comps, groups, g, name);
    }
  }

  lemma KeepsItself(outside: set<Ref>, comps: Components, groups: seq<string>, g: string, name: string)
    requires Has(comps, g, name) && Ref(g, name, false) in comps[g][name]
    ensures InUse(outside, Cut(comps, groups, {Node(g, name)}), g, name)
  {
    CutHas(comps, groups, {Node(g, name)}, g, name);
  }

  /** Pruning changes nothing exactly when no group is empty and every component is in use. */
  lemma {:induction false} FixedPoints(outside: set<Ref>, comps: Components, groups: seq<string>)
    ensures Pruned(outside, comps, groups) == comps <==>
              SelfSupporting(outside, comps, groups) && forall g | g in groups && g in comps :: comps[g] != map[]
  {
    if SelfSupporting(outside, comps, groups) && forall g | g in groups && g in comps :: comps[g] != map[] {
      if groups == [] {
      } else {
        var g, before := groups[|groups| - 1], groups[..|groups| - 1];
        assert forall x | x in before :: x in groups;
        FixedPoints(outside, comps, before);
        assert g in groups;
        if g in comps { SweepChanges(outside, comps, g); }
      }
    } else if Pruned(outside, comps, groups) == comps {
      forall g, n | g in groups && g in comps && n in comps[g]
        ensures InUse(outside, comps, g, n)
      { SurvivorWasInUse(outside, comps, groups, g, n); }
      forall g | g in groups && g in comps
        ensures comps[g] != map[]
      { NoEmptyGroup(outside, comps, groups, g); }
    }
  }

  lemma {:induction false} NoEmptyGroup(outside: set<Ref>, comps: Components, groups: seq<string>, g: string)
    requires g in groups && g in Pruned(outside, comps, groups)
    ensures Pruned(outside, comps, groups)[g] != map[]
  {
    var last, before := groups[|groups| - 1], groups[..|groups| - 1];
    if last == g {
    } else {
      NoEmptyGroup(outside, comps, before, g);
    }
  }

  /**
    One run is enough if and only if every component that stays is one of a set whose
    members use each other, or are used from outside, all at once.
   */
  lemma OneRunIsEnoughExactly(outside: set<Ref>, comps: Components, groups: seq<string>)
    requires Distinct(groups)
    ensures Pruned(outside, Pruned(outside, comps, groups), groups) == Pruned(outside, comps, groups) <==>
              forall g, n | g in groups && Stays(outside, comps, groups, g, n) :: InACore(outside, comps, groups, g, n)
  {
    var pruned := Pruned(outside, comps, groups);
    FixedPoints(outside, pruned, groups);
    forall g | g in groups && g in pruned
      ensures pruned[g] != map[]
    { NoEmptyGroup(outside, comps, groups, g); }
    forall g, n
      ensures Has(pruned, g, n) <==> Stays(outside, comps, groups, g, n)
    { SurvivesExactly(outside, comps, groups, g, n); }
    if SelfSupporting(outside, pruned, groups) {
      PrunedWithin(outside, comps, groups);
      forall g, n | g in groups && Stays(outside, comps, groups, g, n)
        ensures InACore(outside, comps, groups, g, n)
      { assert Has(pruned, g, n); }
    } else {
      var g, n :| g in groups && g in pruned && n in pruned[g] && !InUse(outside, pruned, g, n);
      assert Has(pruned, g, n);
      if InACore(outside, comps, groups, g, n) { CoreIsInUse(outside, comps, groups, g, n); }
    }
  }

  lemma CoreIsInUse(outside: set<Ref>, comps: Components, groups: seq<string>, g: string, n: string)
    requires g in groups && InACore(outside, comps, groups, g, n)
    ensures InUse(outside, Pruned(outside, comps, groups), g, n)
  {
    var core :| Within(core, comps) && SelfSupporting(outside, core, groups) && Has(core, g, n);
    CoreSurvives(outside, comps, core, groups);
    MentionedGrows(outside, core, Pruned(outside, comps, groups), Ref(g, n, false));
  }

  ghost predicate InACore(outside: set<Ref>, comps: Components, groups: seq<string>, g: string, n: string) {
    exists core :: Within(core, comps) && SelfSupporting(outside, core, groups) && Has(core, g, n)
  }

  predicate Has(comps: Components, g: string, n: string) {
    g in comps && n in comps[g]
  }

  const CURSOR := Ref("schemas", "Cursor", false)
  const BEFORE: Components := map["schemas" := map["Cursor" := {}], "headers" := map["Page" := {CURSOR}]]
  const AFTER: Components := map["schemas" := map["Cursor" := {}]]

  /** One run can leave work for a second: a schema that only an unused header mentions, since headers come later. */
  lemma OneRunIsNotEnough()
    ensures Pruned({}, BEFORE, GROUPS) == AFTER && Pruned({}, AFTER, GROUPS) != AFTER
  {
    HeadersComeLater();
    AfterHeaders();
    CursorIsUnused();
  }

  lemma AfterHeaders()
    requires Pruned({}, BEFORE, GROUPS[..3]) == BEFORE
    ensures Pruned({}, BEFORE, GROUPS) == AFTER
  {
    PruneStep({}, BEFORE, 3);
    HeaderGoes();
    assert Pruned({}, BEFORE, GROUPS[..4]) == AFTER;
    PruneStep({}, BEFORE, 4);
    assert GROUPS[4] !in AFTER;
    assert GROUPS[..5] == GROUPS;
  }

  lemma PruneStep(outside: set<Ref>, comps: Components, k: nat)
    requires k < |GROUPS|
    ensures Pruned(outside, comps, GROUPS[..k + 1]) == Drop(outside, Pruned(outside, comps, GROUPS[..k]), GROUPS[k])
  {
    assert GROUPS[..k + 1][..k] == GROUPS[..k];
  }

  lemma HeadersComeLater()
    ensures Pruned({}, BEFORE, GROUPS[..3]) == BEFORE
  {
    assert CURSOR in BEFORE["headers"]["Page"];
    assert GROUPS[..3] == ["parameters", "responses", "schemas"];
    forall g | g in GROUPS[..3] && g in BEFORE
      ensures g == "schemas" && BEFORE[g] != map[]
    { assert "headers" !in GROUPS[..3] && "Cursor" in BEFORE["schemas"]; }
    assert SelfSupporting({}, BEFORE, GROUPS[..3]);
    FixedPoints({}, BEFORE, GROUPS[..3]);
  }

  lemma CursorIsUnused()
    ensures Pruned({}, AFTER, GROUPS) != AFTER
  {
    assert GROUPS[2] == "schemas" && "Cursor" in AFTER["schemas"];
    assert !InUse({}, AFTER, "schemas", "Cursor");
    FixedPoints({}, AFTER, GROUPS);
  }

  lemma HeaderGoes()
    ensures Drop({}, BEFORE, "headers") == AFTER
  {
    var settled := Settle({}, BEFORE, "headers");
    SettleWithin({}, BEFORE, "headers");
    SettledInUse({}, BEFORE, "headers");
    assert !InUse({}, settled, "headers", "Page");
    AllGone({}, BEFORE, "headers");
    HeadersAside();
  }

  lemma HeadersAside()
    ensures BEFORE - {"headers"} == AFTER
  {}

  lemma AllGone(outside: set<Ref>, comps: Components, g: string)
    requires g in comps && forall n | n in Settle(outside, comps, g)[g] :: n !in comps[g]
    ensures Drop(outside, comps, g) == comps - {g}
  {
    SettledIsCut(outside, comps, g);
    assert Settle(outside, comps, g)[g] == map[];
    WithoutOne(Settle(outside, comps, g), comps, g);
  }

  lemma WithoutOne(a: Components, b: Components, g: string)
    requires a.Keys == b.Keys && forall h | h in b && h != g :: a[h] == b[h]
    ensures a - {g} == b - {g}
  {}
}
