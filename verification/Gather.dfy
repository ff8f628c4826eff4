/** StaticInformation::DoGather: the configuration paths of all types reachable from a root type. */
module Gather {
  import opened Network

  type TypeId = string

  datatype Checker = Pointer(pointee: TypeId) | Container(item: TypeId) | Plain

  datatype Attribute = Attribute(name: string, checker: Checker)

  // The registered types: their attributes, which type is a child of which, and the recorded aggregations.
  datatype Registry = Registry(universe: set<TypeId>, attributes: map<TypeId, seq<Attribute>>, registered: seq<TypeId>,
                               childOf: set<(TypeId, TypeId)>, aggregates: seq<(TypeId, TypeId)>, objectType: TypeId)

  // One way to go from a type to another: the path component it adds, and the type it leads to.
  datatype Edge = Edge(name: string, target: TypeId)

  function AttributesOf(r: Registry, t: TypeId): seq<Attribute> {
    if t in r.attributes then r.attributes[t] else []
  }

  // A pointer to a plain Object is not followed.
  function AttributeEdge(r: Registry, a: Attribute): seq<Edge> {
    match a.checker
    case Pointer(p) => if p == r.objectType then [] else [Edge(a.name, p)]
    case Container(i) => [Edge(a.name + "/[i]", i)]
    case Plain => []
  }

  function ChildEdge(r: Registry, t: TypeId, child: TypeId): seq<Edge> {
    if (child, t) in r.childOf then [Edge("$" + child, child)] else []
  }

  // When both ends are t, the second test of the source wins.
  function AggregateEdge(t: TypeId, pair: (TypeId, TypeId)): seq<Edge> {
    if pair.1 == t then [Edge("$" + pair.0, pair.0)]
    else if pair.0 == t then [Edge("$" + pair.1, pair.1)]
    else []
  }

  function AttributeEdges(r: Registry, t: TypeId, n: nat): seq<Edge>
    requires n <= |AttributesOf(r, t)|
  {
    if n == 0 then [] else AttributeEdges(r, t, n - 1) + AttributeEdge(r, AttributesOf(r, t)[n - 1])
  }

  function ChildEdges(r: Registry, t: TypeId, n: nat): seq<Edge>
    requires n <= |r.registered|
  {
    if n == 0 then [] else ChildEdges(r, t, n - 1) + ChildEdge(r, t, r.registered[n - 1])
  }

  function AggregateEdges(r: Registry, t: TypeId, n: nat): seq<Edge>
    requires n <= |r.aggregates|
  {
    if n == 0 then [] else AggregateEdges(r, t, n - 1) + AggregateEdge(t, r.aggregates[n - 1])
  }

  // All edges out of t, in the order DoGather follows them.
  function Edges(r: Registry, t: TypeId): seq<Edge> {
    AttributeEdges(r, t, |AttributesOf(r, t)|) + ChildEdges(r, t, |r.registered|) + AggregateEdges(r, t, |r.aggregates|)
  }

  // ---- The edges in the registry's own terms ----

  // Edge e comes from one of the first n attributes.
  ghost predicate FromAttribute(r: Registry, t: TypeId, n: nat, e: Edge) {
    exists i: nat :: i < n && i < |AttributesOf(r, t)| && e in AttributeEdge(r, AttributesOf(r, t)[i])
  }

  lemma {:induction false} AttributeEdgesAre(r: Registry, t: TypeId, n: nat, e: Edge)
    requires n <= |AttributesOf(r, t)|
    ensures e in AttributeEdges(r, t, n) <==> FromAttribute(r, t, n, e)
  {
    hide AttributeEdge;
    if n > 0 {
      var m := n - 1;
      AttributeEdgesAre(r, t, m, e);
      assert e in AttributeEdge(r, AttributesOf(r, t)[m]) ==> FromAttribute(r, t, n, e);
    }
  }

  lemma {:induction false} ChildEdgesAre(r: Registry, t: TypeId, n: nat, e: Edge)
    requires n <= |r.registered|
    ensures e in ChildEdges(r, t, n) <==>
            e.target in r.registered[..n] && (e.target, t) in r.childOf && e.name == "$" + e.target
  {
    if n > 0 {
      var m := n - 1;
      ChildEdgesAre(r, t, m, e);
      assert r.registered[..n] == r.registered[..m] + [r.registered[m]];
      assert Edge(e.name, e.target) == e;
    }
  }

  lemma {:induction false} AggregateEdgesAre(r: Registry, t: TypeId, n: nat, e: Edge)
    requires n <= |r.aggregates|
    ensures e in AggregateEdges(r, t, n) <==>
            ((e.target, t) in r.aggregates[..n] || (t, e.target) in r.aggregates[..n]) && e.name == "$" + e.target
  {
    if n > 0 {
      var m := n - 1;
      AggregateEdgesAre(r, t, m, e);
      assert r.aggregates[..n] == r.aggregates[..m] + [r.aggregates[m]];
      AggregateEdgeIs(t, r.aggregates[m], e);
    }
  }

  lemma AggregateEdgeIs(t: TypeId, pair: (TypeId, TypeId), e: Edge)
    ensures e in AggregateEdge(t, pair) <==>
            (pair == (e.target, t) || pair == (t, e.target)) && e.name == "$" + e.target
  {
    assert Edge(e.name, e.target) == e;
  }

  // An attribute of t points to u, which is not a plain Object, or holds many of u.
  ghost predicate LeadsTo(r: Registry, t: TypeId, name: string, u: TypeId) {
    && t in r.attributes
    && ((Attribute(name, Pointer(u)) in r.attributes[t] && u != r.objectType)
        || exists held :: Attribute(held, Container(u)) in r.attributes[t] && name == held + "/[i]")
  }

  lemma AttributeLeadsTo(r: Registry, a: Attribute, e: Edge)
    ensures e in AttributeEdge(r, a) <==>
            (a == Attribute(e.name, Pointer(e.target)) && e.target != r.objectType)
            || (a.checker == Container(e.target) && e.name == a.name + "/[i]")
  {
    assert Edge(e.name, e.target) == e;
  }

  lemma FromAttributeIs(r: Registry, t: TypeId, e: Edge)
    ensures FromAttribute(r, t, |AttributesOf(r, t)|, e) <==> LeadsTo(r, t, e.name, e.target)
  {
    hide AttributeEdge;
    var all := AttributesOf(r, t);
    forall a: Attribute
      ensures e in AttributeEdge(r, a) <==>
              (a == Attribute(e.name, Pointer(e.target)) && e.target != r.objectType)
              || (a.checker == Container(e.target) && e.name == a.name + "/[i]")
    {
      AttributeLeadsTo(r, a, e);
    }
    if LeadsTo(r, t, e.name, e.target) {
      var a :| a in all && e in AttributeEdge(r, a);
      var i: nat :| i < |all| && all[i] == a;
      assert FromAttribute(r, t, |all|, e);
    }
    if FromAttribute(r, t, |all|, e) {
      var i: nat :| i < |all| && e in AttributeEdge(r, all[i]);
      assert all[i] in r.attributes[t] && all[i] == Attribute(all[i].name, all[i].checker);
    }
  }

  // The edges out of t: through its attributes, to the registered types that are its children, and along
  // an aggregation in either direction.
  lemma EdgesAre(r: Registry, t: TypeId, name: string, u: TypeId)
    ensures Edge(name, u) in Edges(r, t) <==>
            || LeadsTo(r, t, name, u)
            || (u in r.registered && (u, t) in r.childOf && name == "$" + u)
            || (((u, t) in r.aggregates || (t, u) in r.aggregates) && name == "$" + u)
  {
    hide AttributesOf, AttributeEdges, ChildEdges, AggregateEdges, FromAttribute, LeadsTo;
    var e := Edge(name, u);
    AttributeEdgesAre(r, t, |AttributesOf(r, t)|, e);
    FromAttributeIs(r, t, e);
    ChildEdgesAre(r, t, |r.registered|, e);
    AggregateEdgesAre(r, t, |r.aggregates|, e);
    assert r.registered[..|r.registered|] == r.registered && r.aggregates[..|r.aggregates|] == r.aggregates;
  }

  // Every type that can be reached belongs to the registry.
  ghost predicate Complete(r: Registry) {
    && (forall t, i :: t in r.universe && 0 <= i < |AttributesOf(r, t)| ==>
          InUniverse(r, AttributeEdge(r, AttributesOf(r, t)[i])))
    && (forall i :: 0 <= i < |r.registered| ==> r.registered[i] in r.universe)
    && (forall i :: 0 <= i < |r.aggregates| ==> r.aggregates[i].0 in r.universe && r.aggregates[i].1 in r.universe)
  }

  ghost predicate InUniverse(r: Registry, es: seq<Edge>) {
    forall i :: 0 <= i < |es| ==> es[i].target in r.universe
  }

  lemma {:induction false} AttributeEdgesIn(r: Registry, t: TypeId, n: nat)
    requires Complete(r) && t in r.universe && n <= |AttributesOf(r, t)|
    ensures InUniverse(r, AttributeEdges(r, t, n))
  {
    if n > 0 {
      AttributeEdgesIn(r, t, n - 1);
      assert InUniverse(r, AttributeEdge(r, AttributesOf(r, t)[n - 1]));
    }
  }

  lemma {:induction false} OtherEdgesIn(r: Registry, t: TypeId, n: nat)
    requires Complete(r)
    ensures n <= |r.registered| ==> InUniverse(r, ChildEdges(r, t, n))
    ensures n <= |r.aggregates| ==> InUniverse(r, AggregateEdges(r, t, n))
  {
    if n > 0 { OtherEdgesIn(r, t, n - 1); }
  }

  lemma EdgesIn(r: Registry, t: TypeId)
    requires Complete(r) && t in r.universe
    ensures InUniverse(r, Edges(r, t))
  {
    AttributeEdgesIn(r, t, |AttributesOf(r, t)|);
    OtherEdgesIn(r, t, |r.registered|);
    OtherEdgesIn(r, t, |r.aggregates|);
  }

  // ---- What DoGather appends ----

  function PathString(path: seq<string>): string {
    if path == [] then "" else PathString(path[..|path| - 1]) + "/" + path[|path| - 1]
  }

  // Each component comes after a slash, in order.
  lemma {:induction false} PathStringIs(path: seq<string>, more: seq<string>, name: string)
    ensures PathString([]) == "" && PathString([name]) == "/" + name
    ensures PathString(path + more) == PathString(path) + PathString(more)
  {
    assert [name][..0] == [];
    if more == [] {
      assert path + more == path;
    } else {
      var k := |more| - 1;
      assert (path + more)[..|path + more| - 1] == path + more[..k];
      PathStringIs(path, more[..k], name);
    }
  }

  // The number of types not on the ancestor stack.
  ghost function Left(r: Registry, above: seq<TypeId>): nat {
    |r.universe - Elements(above)|
  }

  lemma LeftDrops(r: Registry, above: seq<TypeId>, t: TypeId)
    requires t in r.universe && t !in above
    ensures Left(r, above + [t]) < Left(r, above)
  {
    var rest := r.universe - Elements(above);
    assert t in rest;
    assert r.universe - Elements(above + [t]) == rest - {t};
  }

  ghost function Gathered(r: Registry, t: TypeId, path: seq<string>, above: seq<TypeId>): seq<(TypeId, string)>
    requires Complete(r) && t in r.universe
    decreases Left(r, above), 1, 0
  {
    if t in above then [] else
      EdgesIn(r, t);
      [(t, PathString(path))] + GatheredOver(r, t, Edges(r, t), path, above)
  }

  // The same for the given edges out of t.
  ghost function GatheredOver(r: Registry, t: TypeId, es: seq<Edge>, path: seq<string>, above: seq<TypeId>): seq<(TypeId, string)>
    requires Complete(r) && t in r.universe && t !in above && InUniverse(r, es)
    decreases Left(r, above), 0, |es|
  {
    if es == [] then [] else
      var k := |es| - 1;
      LeftDrops(r, above, t);
      GatheredOver(r, t, es[..k], path, above) + Gathered(r, es[k].target, path + [es[k].name], above + [t])
  }

  lemma GatheredAppend(r: Registry, t: TypeId, es: seq<Edge>, e: Edge, path: seq<string>, above: seq<TypeId>)
    requires Complete(r) && t in r.universe && t !in above && InUniverse(r, es) && e.target in r.universe
    ensures InUniverse(r, es + [e])
    ensures GatheredOver(r, t, es + [e], path, above)
      == GatheredOver(r, t, es, path, above) + Gathered(r, e.target, path + [e.name], above + [t])
  {
    assert (es + [e])[..|es|] == es;
  }

  // es so far, and the edge (if any) of the next loop round.
  ghost predicate NextEdge(r: Registry, es: seq<Edge>, edge: seq<Edge>) {
    InUniverse(r, es) && (edge == [] || (edge == [edge[0]] && edge[0].target in r.universe))
  }

  lemma AttributeRound(r: Registry, t: TypeId, i: nat)
    requires Complete(r) && t in r.universe && i < |AttributesOf(r, t)|
    ensures NextEdge(r, AttributeEdges(r, t, i), AttributeEdge(r, AttributesOf(r, t)[i]))
    ensures AttributeEdges(r, t, i + 1) == AttributeEdges(r, t, i) + AttributeEdge(r, AttributesOf(r, t)[i])
  {
    AttributeEdgesIn(r, t, i);
    assert InUniverse(r, AttributeEdge(r, AttributesOf(r, t)[i]));
  }

  lemma ChildRound(r: Registry, t: TypeId, i: nat)
    requires Complete(r) && t in r.universe && i < |r.registered|
    ensures var es := AttributeEdges(r, t, |AttributesOf(r, t)|);
      && NextEdge(r, es + ChildEdges(r, t, i), ChildEdge(r, t, r.registered[i]))
      && es + ChildEdges(r, t, i + 1) == es + ChildEdges(r, t, i) + ChildEdge(r, t, r.registered[i])
  {
    AttributeEdgesIn(r, t, |AttributesOf(r, t)|);
    OtherEdgesIn(r, t, i);
  }

  lemma AggregateRound(r: Registry, t: TypeId, i: nat)
    requires Complete(r) && t in r.universe && i < |r.aggregates|
    ensures var es := AttributeEdges(r, t, |AttributesOf(r, t)|) + ChildEdges(r, t, |r.registered|);
      && NextEdge(r, es + AggregateEdges(r, t, i), AggregateEdge(t, r.aggregates[i]))
      && es + AggregateEdges(r, t, i + 1) == es + AggregateEdges(r, t, i) + AggregateEdge(t, r.aggregates[i])
  {
    AttributeEdgesIn(r, t, |AttributesOf(r, t)|);
    OtherEdgesIn(r, t, |r.registered|);
    OtherEdgesIn(r, t, i);
  }

  lemma GatheredStart(r: Registry, t: TypeId, path: seq<string>, above: seq<TypeId>)
    requires Complete(r) && t in r.universe
    ensures t in above ==> Gathered(r, t, path, above) == []
    ensures InUniverse(r, Edges(r, t)) && Edges(r, t)[..|Edges(r, t)|] == Edges(r, t) && InUniverse(r, Edges(r, t)[..0])
    ensures t !in above ==>
      && Gathered(r, t, path, above) == [(t, PathString(path))] + GatheredOver(r, t, Edges(r, t), path, above)
      && GatheredOver(r, t, Edges(r, t)[..0], path, above) == []
  {
    EdgesIn(r, t);
    hide Complete, Edges, PathString;
  }

  lemma LoopsJoin(r: Registry, t: TypeId)
    requires Complete(r) && t in r.universe
    ensures AttributeEdges(r, t, 0) == []
    ensures var es := AttributeEdges(r, t, |AttributesOf(r, t)|); es + ChildEdges(r, t, 0) == es
    ensures var es := AttributeEdges(r, t, |AttributesOf(r, t)|) + ChildEdges(r, t, |r.registered|);
      es + AggregateEdges(r, t, 0) == es && es + AggregateEdges(r, t, |r.aggregates|) == Edges(r, t)
    ensures InUniverse(r, []) && InUniverse(r, Edges(r, t))
  {
    EdgesIn(r, t);
    hide Complete;
  }

  // Inside DoGather(t), after following the edges es: output is out and what they gathered.
  ghost predicate After(r: Registry, t: TypeId, es: seq<Edge>, path: seq<string>, above: seq<TypeId>,
                        out: seq<(TypeId, string)>, output: seq<(TypeId, string)>)
    requires Complete(r) && t in r.universe
  {
    t !in above && InUniverse(r, es) && output == out + GatheredOver(r, t, es, path, above)
  }

  lemma AfterNone(r: Registry, t: TypeId, path: seq<string>, above: seq<TypeId>, out: seq<(TypeId, string)>)
    requires Complete(r) && t in r.universe && t !in above
    ensures After(r, t, [], path, above, out, out)
  {
  }

  lemma AfterAll(r: Registry, t: TypeId, path: seq<string>, above: seq<TypeId>, before: seq<(TypeId, string)>,
                 output: seq<(TypeId, string)>)
    requires Complete(r) && t in r.universe
    requires After(r, t, Edges(r, t), path, above, before + [(t, PathString(path))], output)
    ensures output == before + Gathered(r, t, path, above)
  {
  }

  lemma AfterOne(r: Registry, t: TypeId, es: seq<Edge>, edge: seq<Edge>, path: seq<string>, above: seq<TypeId>,
                 out: seq<(TypeId, string)>, output: seq<(TypeId, string)>)
    requires Complete(r) && t in r.universe && After(r, t, es, path, above, out, output) && NextEdge(r, es, edge)
    ensures edge == [] ==> After(r, t, es + edge, path, above, out, output)
    ensures edge != [] ==> edge[0].target in r.universe
    ensures edge != [] ==> Left(r, above + [t]) < Left(r, above)
    ensures edge != [] ==>
      After(r, t, es + edge, path, above, out, output + Gathered(r, edge[0].target, path + [edge[0].name], above + [t]))
  {
    hide Complete, Gathered, GatheredOver, Left, InUniverse;
    if edge == [] {
      assert es + edge == es;
    } else {
      var found := Gathered(r, edge[0].target, path + [edge[0].name], above + [t]);
      assert edge == [edge[0]];
      GatheredAppend(r, t, es, edge[0], path, above);
      LeftDrops(r, above, t);
      assert (out + GatheredOver(r, t, es, path, above)) + found == out + (GatheredOver(r, t, es, path, above) + found);
    }
  }

  class StaticInformation {
    var output: seq<(TypeId, string)>
    var currentPath: seq<string>
    var alreadyProcessed: seq<TypeId>

    constructor ()
      ensures output == [] && currentPath == [] && alreadyProcessed == []
    {
      output, currentPath, alreadyProcessed := [], [], [];
    }

    method GetCurrentPath() returns (s: string)
      ensures s == PathString(currentPath)
    {
      s := "";
      for i := 0 to |currentPath|
        invariant s == PathString(currentPath[..i])
      {
        assert currentPath[..i + 1][..i] == currentPath[..i];
        s := s + "/" + currentPath[i];
      }
      assert currentPath[..|currentPath|] == currentPath;
    }

    method HasAlreadyBeenProcessed(t: TypeId) returns (found: bool)
      ensures found <==> t in alreadyProcessed
    {
      for i := 0 to |alreadyProcessed|
        invariant t !in alreadyProcessed[..i]
      {
        if alreadyProcessed[i] == t {
          return true;
        }
      }
      return false;
    }

    method RecordOutput(t: TypeId)
      modifies this`output
      ensures output == old(output) + [(t, PathString(currentPath))]
    {
      var path := GetCurrentPath();
      output := output + [(t, path)];
    }

    method DoGather(r: Registry, t: TypeId)
      requires Complete(r) && t in r.universe
      modifies this
      ensures currentPath == old(currentPath) && alreadyProcessed == old(alreadyProcessed)
      ensures output == old(output) + Gathered(r, t, currentPath, alreadyProcessed)
      decreases Left(r, alreadyProcessed), 1
    {
      hide *;
      LoopsJoin(r, t);
      GatheredStart(r, t, currentPath, alreadyProcessed);
      var done := HasAlreadyBeenProcessed(t);
      if done {
        return;
      }
      RecordOutput(t);
      ghost var path, above, out := currentPath, alreadyProcessed, output;
      ghost var es: seq<Edge> := [];
      AfterNone(r, t, path, above, out);
      for i := 0 to |AttributesOf(r, t)|
        invariant es == AttributeEdges(r, t, i) && After(r, t, es, path, above, out, output)
        invariant currentPath == path && alreadyProcessed == above
      {
        AttributeRound(r, t, i);
        var edge := AttributeEdge(r, AttributesOf(r, t)[i]);
        MaybeFollow(r, t, edge, es, path, above, out);
        es := es + edge;
      }
      for i := 0 to |r.registered|
        invariant es == AttributeEdges(r, t, |AttributesOf(r, t)|) + ChildEdges(r, t, i) && After(r, t, es, path, above, out, output)
        invariant currentPath == path && alreadyProcessed == above
      {
        ChildRound(r, t, i);
        var edge := ChildEdge(r, t, r.registered[i]);
        MaybeFollow(r, t, edge, es, path, above, out);
        es := es + edge;
      }
      for i := 0 to |r.aggregates|
        invariant es == AttributeEdges(r, t, |AttributesOf(r, t)|) + ChildEdges(r, t, |r.registered|) + AggregateEdges(r, t, i)
        invariant After(r, t, es, path, above, out, output)
        invariant currentPath == path && alreadyProcessed == above
      {
        AggregateRound(r, t, i);
        var edge := AggregateEdge(t, r.aggregates[i]);
        MaybeFollow(r, t, edge, es, path, above, out);
        es := es + edge;
      }
      AfterAll(r, t, path, above, old(output), output);
    }

    // If the loop round has an edge: push the path component and the type, recurse, and pop both.
    method MaybeFollow(r: Registry, t: TypeId, edge: seq<Edge>, ghost es: seq<Edge>, ghost path: seq<string>,
                       ghost above: seq<TypeId>, ghost out: seq<(TypeId, string)>)
      requires Complete(r) && t in r.universe && NextEdge(r, es, edge)
      requires currentPath == path && alreadyProcessed == above && After(r, t, es, path, above, out, output)
      modifies this
      ensures currentPath == path && alreadyProcessed == above && After(r, t, es + edge, path, above, out, output)
      decreases Left(r, above), 0
    {
      hide *;
      AfterOne(r, t, es, edge, path, above, out, output);
      if edge == [] {
        return;
      }
      var e := edge[0];
      currentPath := currentPath + [e.name];
      alreadyProcessed := alreadyProcessed + [t];
      DoGather(r, e.target);
      alreadyProcessed := alreadyProcessed[..|alreadyProcessed| - 1];
      currentPath := currentPath[..|currentPath| - 1];
    }
  }

  // ---- One entry per walk ----

  // The types on the walk that follows the edges w (by their numbers) from t.
  ghost function TypesOn(r: Registry, t: TypeId, w: seq<nat>): seq<TypeId>
    requires IsWalk(r, t, w)
    decreases |w|
  {
    if w == [] then [t] else [t] + TypesOn(r, Edges(r, t)[w[0]].target, w[1..])
  }

  ghost predicate IsWalk(r: Registry, t: TypeId, w: seq<nat>)
    decreases |w|
  {
    w == [] || (w[0] < |Edges(r, t)| && IsWalk(r, Edges(r, t)[w[0]].target, w[1..]))
  }

  // The labels along the walk.
  ghost function LabelsOn(r: Registry, t: TypeId, w: seq<nat>): seq<string>
    requires IsWalk(r, t, w)
    decreases |w|
  {
    if w == [] then [] else [Edges(r, t)[w[0]].name] + LabelsOn(r, Edges(r, t)[w[0]].target, w[1..])
  }

  // The entry a walk deserves: the type it ends in, and the path of its labels.
  ghost function Entry(r: Registry, t: TypeId, path: seq<string>, w: seq<nat>): (TypeId, string)
    requires IsWalk(r, t, w)
  {
    var ts := TypesOn(r, t, w);
    (ts[|ts| - 1], PathString(path + LabelsOn(r, t, w)))
  }

  ghost predicate Avoids(ts: seq<TypeId>, above: seq<TypeId>) {
    forall i :: 0 <= i < |ts| ==> ts[i] !in above
  }

  // A walk that repeats no type and avoids those of above.
  ghost predicate Simple(r: Registry, t: TypeId, above: seq<TypeId>, w: seq<nat>) {
    IsWalk(r, t, w) && NoDup(TypesOn(r, t, w)) && Avoids(TypesOn(r, t, w), above)
  }

  // The simple walks from t, in the order DoGather takes them.
  ghost function Walks(r: Registry, t: TypeId, above: seq<TypeId>): seq<seq<nat>>
    requires Complete(r) && t in r.universe
    decreases Left(r, above), 1, 0
  {
    if t in above then [] else EdgesIn(r, t); [[]] + WalksOver(r, t, |Edges(r, t)|, above)
  }

  // Those that start with one of the first n edges.
  ghost function WalksOver(r: Registry, t: TypeId, n: nat, above: seq<TypeId>): seq<seq<nat>>
    requires Complete(r) && t in r.universe && t !in above && n <= |Edges(r, t)|
    decreases Left(r, above), 0, n
  {
    if n == 0 then [] else
      LeftDrops(r, above, t);
      EdgesIn(r, t);
      WalksOver(r, t, n - 1, above) + Prefixed(n - 1, Walks(r, Edges(r, t)[n - 1].target, above + [t]))
  }

  function Prefixed(k: nat, ws: seq<seq<nat>>): (ps: seq<seq<nat>>)
    ensures |ps| == |ws| && forall i :: 0 <= i < |ws| ==> ps[i] == [k] + ws[i]
  {
    seq(|ws|, i requires 0 <= i < |ws| => [k] + ws[i])
  }

  ghost predicate StartsWith(w: seq<nat>, k: nat) { w != [] && w[0] == k }

  lemma WalksNext(r: Registry, t: TypeId, n: nat, above: seq<TypeId>)
    requires Complete(r) && t in r.universe && t !in above && 0 < n <= |Edges(r, t)|
    ensures var u := Edges(r, t)[n - 1].target;
      && u in r.universe && Left(r, above + [t]) < Left(r, above)
      && WalksOver(r, t, n, above) == WalksOver(r, t, n - 1, above) + Prefixed(n - 1, Walks(r, u, above + [t]))
  {
    LeftDrops(r, above, t);
    EdgesIn(r, t);
    hide Complete, Edges, Left;
  }

  lemma WalksStart(r: Registry, t: TypeId, above: seq<TypeId>)
    requires Complete(r) && t in r.universe
    ensures t in above ==> Walks(r, t, above) == []
    ensures t !in above ==> Walks(r, t, above) == [[]] + WalksOver(r, t, |Edges(r, t)|, above)
    ensures t !in above ==> WalksOver(r, t, 0, above) == []
  {
    EdgesIn(r, t);
    hide Complete, Edges;
  }

  lemma InConcat(a: seq<seq<nat>>, b: seq<seq<nat>>, w: seq<nat>)
    ensures w in a + b <==> w in a || w in b
  {
  }

  lemma SimpleAt(r: Registry, t: TypeId, above: seq<TypeId>, w: seq<nat>)
    ensures t in above ==> !Simple(r, t, above, w)
    ensures t !in above ==> Simple(r, t, above, [])
    ensures w != [] && Simple(r, t, above, w) ==> w[0] < |Edges(r, t)|
  {
    if IsWalk(r, t, w) { assert TypesOn(r, t, w)[0] == t; }
    assert TypesOn(r, t, []) == [t];
    hide Edges;
  }

  // Walks lists exactly the simple walks ...
  lemma {:induction false} WalksExact(r: Registry, t: TypeId, above: seq<TypeId>, w: seq<nat>)
    requires Complete(r) && t in r.universe
    ensures w in Walks(r, t, above) <==> Simple(r, t, above, w)
    decreases Left(r, above), 1, 0
  {
    hide *;
    WalksStart(r, t, above);
    SimpleAt(r, t, above, w);
    if t !in above {
      WalksOverExact(r, t, |Edges(r, t)|, above, w);
      InConcat([[]], WalksOver(r, t, |Edges(r, t)|, above), w);
    }
  }

  lemma {:induction false} WalksOverExact(r: Registry, t: TypeId, n: nat, above: seq<TypeId>, w: seq<nat>)
    requires Complete(r) && t in r.universe && t !in above && n <= |Edges(r, t)|
    ensures w in WalksOver(r, t, n, above) <==> w != [] && w[0] < n && Simple(r, t, above, w)
    decreases Left(r, above), 0, n
  {
    hide Complete, Edges, Left, Simple, Walks, WalksOver, Prefixed;
    if n == 0 {
      WalksStart(r, t, above);
    } else {
      WalksNext(r, t, n, above);
      WalksOverExact(r, t, n - 1, above, w);
      var u := Edges(r, t)[n - 1].target;
      var ws := Walks(r, u, above + [t]);
      InConcat(WalksOver(r, t, n - 1, above), Prefixed(n - 1, ws), w);
      PrefixedExact(n - 1, ws, w);
      if StartsWith(w, n - 1) {
        WalksExact(r, u, above + [t], w[1..]);
        SimpleStep(r, t, above, w);
      }
    }
  }

  lemma PrefixedExact(k: nat, ws: seq<seq<nat>>, w: seq<nat>)
    ensures w in Prefixed(k, ws) <==> StartsWith(w, k) && w[1..] in ws
  {
    if StartsWith(w, k) && w[1..] in ws {
      var i :| 0 <= i < |ws| && ws[i] == w[1..];
      assert Prefixed(k, ws)[i] == w;
    }
  }

  // Walk-independent part: putting t before types that avoid above.
  lemma ConsSimple(t: TypeId, rest: seq<TypeId>, above: seq<TypeId>)
    requires t !in above
    ensures NoDup([t] + rest) && Avoids([t] + rest, above) <==> NoDup(rest) && Avoids(rest, above + [t])
  {
    var ts := [t] + rest;
    if NoDup(ts) && Avoids(ts, above) {
      forall i | 0 <= i < |rest| ensures rest[i] !in above + [t] { assert ts[i + 1] == rest[i] && ts[0] != ts[i + 1]; }
      forall i, j | 0 <= i < j < |rest| ensures rest[i] != rest[j] { assert ts[i + 1] != ts[j + 1]; }
    }
    if NoDup(rest) && Avoids(rest, above + [t]) {
      forall i | 0 <= i < |ts| ensures ts[i] !in above { if i > 0 { assert rest[i - 1] !in above + [t]; } }
      forall i, j | 0 <= i < j < |ts| ensures ts[i] != ts[j] { assert rest[j - 1] !in above + [t]; }
    }
  }

  lemma WalkStep(r: Registry, t: TypeId, w: seq<nat>)
    requires w != [] && w[0] < |Edges(r, t)|
    ensures IsWalk(r, t, w) <==> IsWalk(r, Edges(r, t)[w[0]].target, w[1..])
    ensures IsWalk(r, t, w) ==> TypesOn(r, t, w) == [t] + TypesOn(r, Edges(r, t)[w[0]].target, w[1..])
  {
    hide Edges;
  }

  lemma SimpleStep(r: Registry, t: TypeId, above: seq<TypeId>, w: seq<nat>)
    requires w != [] && w[0] < |Edges(r, t)| && t !in above
    ensures Simple(r, t, above, w) <==> Simple(r, Edges(r, t)[w[0]].target, above + [t], w[1..])
  {
    hide Edges, IsWalk, TypesOn, NoDup, Avoids;
    WalkStep(r, t, w);
    if IsWalk(r, t, w) {
      ConsSimple(t, TypesOn(r, Edges(r, t)[w[0]].target, w[1..]), above);
    }
  }

  lemma NoDupConcat(a: seq<seq<nat>>, b: seq<seq<nat>>)
    requires NoDup(a) && NoDup(b) && forall w :: w in a ==> w !in b
    ensures NoDup(a + b)
  {
    forall i, j | 0 <= i < j < |a + b| ensures (a + b)[i] != (a + b)[j] {
      if i < |a| <= j { assert (a + b)[i] in a && (a + b)[j] in b; }
    }
  }

  lemma PrefixedOnce(k: nat, ws: seq<seq<nat>>)
    requires NoDup(ws)
    ensures NoDup(Prefixed(k, ws))
  {
    forall i, j | 0 <= i < j < |ws| ensures Prefixed(k, ws)[i] != Prefixed(k, ws)[j] {
      assert Prefixed(k, ws)[i][1..] == ws[i] && Prefixed(k, ws)[j][1..] == ws[j];
    }
  }

  // ... each once ...
  lemma {:induction false} WalksOnce(r: Registry, t: TypeId, above: seq<TypeId>)
    requires Complete(r) && t in r.universe
    ensures NoDup(Walks(r, t, above))
    decreases Left(r, above), 1, 0
  {
    hide Complete, Edges, Left, Walks, WalksOver, Simple;
    WalksStart(r, t, above);
    if t !in above {
      var ws := WalksOver(r, t, |Edges(r, t)|, above);
      WalksOverOnce(r, t, |Edges(r, t)|, above);
      WalksOverExact(r, t, |Edges(r, t)|, above, []);
      var empty: seq<nat> := [];
      assert NoDup([empty]) && empty !in ws;
      NoDupConcat([empty], ws);
    }
  }

  lemma {:induction false} WalksOverOnce(r: Registry, t: TypeId, n: nat, above: seq<TypeId>)
    requires Complete(r) && t in r.universe && t !in above && n <= |Edges(r, t)|
    ensures NoDup(WalksOver(r, t, n, above))
    decreases Left(r, above), 0, n
  {
    hide Complete, Edges, Left, Walks, WalksOver, Simple, Prefixed;
    if n == 0 {
      WalksStart(r, t, above);
    } else {
      WalksNext(r, t, n, above);
      var ws := Walks(r, Edges(r, t)[n - 1].target, above + [t]);
      WalksOverOnce(r, t, n - 1, above);
      WalksOnce(r, Edges(r, t)[n - 1].target, above + [t]);
      hide NoDup;
      PrefixedOnce(n - 1, ws);
      var before, after := WalksOver(r, t, n - 1, above), Prefixed(n - 1, ws);
      forall w | w in before ensures w !in after {
        WalksOverExact(r, t, n - 1, above, w);
        PrefixedExact(n - 1, ws, w);
      }
      NoDupConcat(before, after);
    }
  }

  // ... and DoGather appends the entry of each, in this order.
  ghost predicate EntriesOf(r: Registry, t: TypeId, path: seq<string>, ws: seq<seq<nat>>, g: seq<(TypeId, string)>) {
    |g| == |ws| && forall i :: 0 <= i < |ws| ==> IsWalk(r, t, ws[i]) && g[i] == Entry(r, t, path, ws[i])
  }

  lemma GatheredNext(r: Registry, t: TypeId, n: nat, path: seq<string>, above: seq<TypeId>)
    requires Complete(r) && t in r.universe && t !in above && 0 < n <= |Edges(r, t)|
    ensures InUniverse(r, Edges(r, t)[..n]) && InUniverse(r, Edges(r, t)[..n - 1])
    ensures var e := Edges(r, t)[n - 1];
      && e.target in r.universe && Left(r, above + [t]) < Left(r, above)
      && GatheredOver(r, t, Edges(r, t)[..n], path, above) ==
           GatheredOver(r, t, Edges(r, t)[..n - 1], path, above) + Gathered(r, e.target, path + [e.name], above + [t])
  {
    hide *;
    EdgesIn(r, t);
    LeftDrops(r, above, t);
    TakeNext(r, Edges(r, t), n);
    GatheredAppend(r, t, Edges(r, t)[..n - 1], Edges(r, t)[n - 1], path, above);
  }

  lemma TakeNext(r: Registry, es: seq<Edge>, n: nat)
    requires InUniverse(r, es) && 0 < n <= |es|
    ensures es[..n] == es[..n - 1] + [es[n - 1]] && es[n - 1].target in r.universe
    ensures InUniverse(r, es[..n]) && InUniverse(r, es[..n - 1])
  {
  }

  lemma {:induction false} GatheredIsWalks(r: Registry, t: TypeId, path: seq<string>, above: seq<TypeId>)
    requires Complete(r) && t in r.universe
    ensures EntriesOf(r, t, path, Walks(r, t, above), Gathered(r, t, path, above))
    decreases Left(r, above), 1, 0
  {
    hide *;
    WalksStart(r, t, above);
    GatheredStart(r, t, path, above);
    if t in above {
      NoEntries(r, t, path);
    } else {
      var n := |Edges(r, t)|;
      GatheredOverIsWalks(r, t, n, path, above);
      EmptyEntry(r, t, path);
      EntriesConcat(r, t, path, [[]], [(t, PathString(path))], WalksOver(r, t, n, above),
                    GatheredOver(r, t, Edges(r, t)[..n], path, above));
    }
  }

  lemma NoEntries(r: Registry, t: TypeId, path: seq<string>)
    ensures EntriesOf(r, t, path, [], [])
  {
  }

  lemma EmptyEntry(r: Registry, t: TypeId, path: seq<string>)
    ensures EntriesOf(r, t, path, [[]], [(t, PathString(path))])
  {
    assert path + LabelsOn(r, t, []) == path;
  }

  lemma EntriesConcat(r: Registry, t: TypeId, path: seq<string>, ws: seq<seq<nat>>, g: seq<(TypeId, string)>,
                      ws': seq<seq<nat>>, g': seq<(TypeId, string)>)
    requires EntriesOf(r, t, path, ws, g) && EntriesOf(r, t, path, ws', g')
    ensures EntriesOf(r, t, path, ws + ws', g + g')
  {
    hide IsWalk, Entry;
  }

  lemma {:induction false} GatheredOverIsWalks(r: Registry, t: TypeId, n: nat, path: seq<string>, above: seq<TypeId>)
    requires Complete(r) && t in r.universe && t !in above && n <= |Edges(r, t)| && InUniverse(r, Edges(r, t)[..n])
    ensures EntriesOf(r, t, path, WalksOver(r, t, n, above), GatheredOver(r, t, Edges(r, t)[..n], path, above))
    decreases Left(r, above), 0, n
  {
    hide *;
    if n == 0 {
      WalksStart(r, t, above);
      GatheredStart(r, t, path, above);
      NoEntries(r, t, path);
    } else {
      WalksNext(r, t, n, above);
      GatheredNext(r, t, n, path, above);
      var e := Edges(r, t)[n - 1];
      var ws, g := Walks(r, e.target, above + [t]), Gathered(r, e.target, path + [e.name], above + [t]);
      GatheredOverIsWalks(r, t, n - 1, path, above);
      GatheredIsWalks(r, e.target, path + [e.name], above + [t]);
      EntriesPrefixed(r, t, path, n - 1, ws, g);
      EntriesConcat(r, t, path, WalksOver(r, t, n - 1, above), GatheredOver(r, t, Edges(r, t)[..n - 1], path, above),
                    Prefixed(n - 1, ws), g);
    }
  }

  lemma EntriesPrefixed(r: Registry, t: TypeId, path: seq<string>, k: nat, ws: seq<seq<nat>>, g: seq<(TypeId, string)>)
    requires k < |Edges(r, t)|
    requires EntriesOf(r, Edges(r, t)[k].target, path + [Edges(r, t)[k].name], ws, g)
    ensures EntriesOf(r, t, path, Prefixed(k, ws), g)
  {
    hide Edges, Entry;
    forall i | 0 <= i < |ws|
      ensures IsWalk(r, t, [k] + ws[i])
      ensures Entry(r, t, path, [k] + ws[i]) == Entry(r, Edges(r, t)[k].target, path + [Edges(r, t)[k].name], ws[i])
    {
      EntryStep(r, t, path, k, ws[i]);
    }
  }

  lemma EntryStep(r: Registry, t: TypeId, path: seq<string>, k: nat, w: seq<nat>)
    requires k < |Edges(r, t)| && IsWalk(r, Edges(r, t)[k].target, w)
    ensures IsWalk(r, t, [k] + w)
    ensures Entry(r, t, path, [k] + w) == Entry(r, Edges(r, t)[k].target, path + [Edges(r, t)[k].name], w)
  {
    hide Edges, PathString;
    var e := Edges(r, t)[k];
    assert ([k] + w)[1..] == w;
    var ts := TypesOn(r, e.target, w);
    assert |ts| > 0 && TypesOn(r, t, [k] + w) == [t] + ts;
    assert path + LabelsOn(r, t, [k] + w) == path + [e.name] + LabelsOn(r, e.target, w);
  }

  // From an empty stack: one entry per walk that repeats no type, and no other.
  lemma GatherListsSimpleWalks(r: Registry, root: TypeId)
    requires Complete(r) && root in r.universe
    ensures NoDup(Walks(r, root, []))
    ensures forall w :: w in Walks(r, root, []) <==> IsWalk(r, root, w) && NoDup(TypesOn(r, root, w))
    ensures EntriesOf(r, root, [], Walks(r, root, []), Gathered(r, root, [], []))
  {
    WalksOnce(r, root, []);
    GatheredIsWalks(r, root, [], []);
    forall w ensures w in Walks(r, root, []) <==> Simple(r, root, [], w) { WalksExact(r, root, [], w); }
  }
}
