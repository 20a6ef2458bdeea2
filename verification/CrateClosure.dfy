/** Which crates are linked into the desktop binary (companion/scripts/build_desktop.py):
    the worklist over each target's resolved dependency graph. */
module CrateClosure {

  type Id = string

  /** A dependency kind as cargo writes it: `Normal` is the missing kind. */
  datatype Kind = Normal | Other(name: string)

  datatype Dependency = Dependency(pkg: Id, kinds: seq<Kind>)

  datatype Package = Package(name: string, version: string, license: string)

  datatype Metadata = Metadata(packages: map<Id, Package>, nodes: map<Id, seq<Dependency>>, root: Id)

  predicate Linked(dependency: Dependency) { Normal in dependency.kinds }

  // ------------------------------------------------------------ reachability

  ghost predicate Edge(m: Metadata, a: Id, b: Id) {
    a in m.nodes && exists dependency | dependency in m.nodes[a] :: Normal in dependency.kinds && dependency.pkg == b
  }

  ghost predicate IsPath(m: Metadata, path: seq<Id>) {
    && |path| > 0 && path[0] == m.root
    && forall i | 0 < i < |path| :: Edge(m, path[i - 1], path[i])
  }

  ghost predicate PathTo(m: Metadata, path: seq<Id>, id: Id) {
    IsPath(m, path) && path[|path| - 1] == id
  }

  ghost predicate Reachable(m: Metadata, id: Id) {
    exists path :: PathTo(m, path, id)
  }

  lemma RootReachable(m: Metadata)
    ensures Reachable(m, m.root)
  {
    assert PathTo(m, [m.root], m.root);
  }

  lemma EdgeExtends(m: Metadata, a: Id, b: Id)
    requires Reachable(m, a) && Edge(m, a, b)
    ensures Reachable(m, b)
  {
    var path :| PathTo(m, path, a);
    assert PathTo(m, path + [b], b);
  }

  ghost predicate ClosedOver(m: Metadata, ids: set<Id>) {
    forall a, b | a in ids && Edge(m, a, b) :: b in ids
  }

  lemma {:induction false} PathStaysInside(m: Metadata, ids: set<Id>, path: seq<Id>)
    requires m.root in ids && ClosedOver(m, ids) && IsPath(m, path)
    ensures path[|path| - 1] in ids
  {
    if |path| > 1 {
      var shorter := path[..|path| - 1];
      PathStaysInside(m, ids, shorter);
      assert Edge(m, path[|path| - 2], path[|path| - 1]);
    }
  }

  /** A closed set that starts at the root and holds only reachable nodes is the reachable set. */
  lemma ClosedIsReachable(m: Metadata, ids: set<Id>)
    requires m.root in ids && ClosedOver(m, ids)
    requires forall id | id in ids :: Reachable(m, id)
    ensures forall id :: id in ids <==> Reachable(m, id)
  {
    forall id | Reachable(m, id) ensures id in ids {
      var path :| PathTo(m, path, id);
      PathStaysInside(m, ids, path);
    }
  }

  // ------------------------------------------------------------- the worklist

  /** Every id the graph mentions. */
  ghost function Mentioned(m: Metadata): set<Id> {
    {m.root} + set id, dependency | id in m.nodes && dependency in m.nodes[id] :: dependency.pkg
  }

  ghost predicate Expanded(m: Metadata, id: Id, seen: set<Id>) {
    id in m.nodes && forall dependency | dependency in m.nodes[id] && Normal in dependency.kinds :: dependency.pkg in seen
  }

  ghost predicate WorklistInvariant(m: Metadata, pending: seq<Id>, seen: set<Id>) {
    && m.root in seen && seen <= Mentioned(m)
    && (forall id | id in pending :: id in seen)
    && (forall id | id in seen :: Reachable(m, id))
    && (forall id | id in seen && id !in pending :: Expanded(m, id, seen))
  }

  /** The inner loop: the dependencies of one node, each new linked one seen and put aside. */
  method Expand(m: Metadata, id: Id, pending: seq<Id>, seen: set<Id>) returns (pending': seq<Id>, seen': set<Id>)
    requires id in m.nodes && WorklistInvariant(m, pending + [id], seen)
    ensures WorklistInvariant(m, pending', seen')
    ensures seen <= seen' && (seen == seen' ==> |pending'| == |pending|)
  {
    pending', seen' := pending, seen;
    var dependencies := m.nodes[id];
    for i := 0 to |dependencies|
      invariant seen <= seen' && (seen == seen' ==> |pending'| == |pending|)
      invariant WorklistInvariant(m, pending' + [id], seen')
      invariant forall j | 0 <= j < i && Linked(dependencies[j]) :: dependencies[j].pkg in seen'
    {
      var pkg := dependencies[i].pkg;
      if Linked(dependencies[i]) && pkg !in seen' {
        Discover(m, id, i, pending', seen');
        pending', seen' := pending' + [pkg], seen' + {pkg};
      }
    }
    Retire(m, id, pending', seen');
  }

  lemma Discover(m: Metadata, id: Id, i: nat, pending: seq<Id>, seen: set<Id>)
    requires id in m.nodes && i < |m.nodes[id]| && Linked(m.nodes[id][i])
    requires WorklistInvariant(m, pending + [id], seen)
    ensures WorklistInvariant(m, pending + [m.nodes[id][i].pkg] + [id], seen + {m.nodes[id][i].pkg})
  {
    var pkg := m.nodes[id][i].pkg;
    assert m.nodes[id][i] in m.nodes[id];
    assert id in pending + [id];
    EdgeExtends(m, id, pkg);
    forall other | other in seen + {pkg} && other !in pending + [pkg] + [id]
      ensures Expanded(m, other, seen + {pkg})
    {
      assert Expanded(m, other, seen);
    }
  }

  lemma Retire(m: Metadata, id: Id, pending: seq<Id>, seen: set<Id>)
    requires WorklistInvariant(m, pending + [id], seen) && Expanded(m, id, seen)
    ensures WorklistInvariant(m, pending, seen)
  {
    forall other | other in seen && other !in pending ensures Expanded(m, other, seen) {
      assert other != id ==> other !in pending + [id];
    }
  }

  /** Every reachable node is resolved; otherwise the script stops on a missing key. */
  ghost predicate Resolved(m: Metadata) {
    forall id | Reachable(m, id) :: id in m.nodes
  }

  /** The worklist ends on every graph, cyclic ones included, with exactly the reachable nodes. */
  method Collect(m: Metadata) returns (found: bool, seen: set<Id>)
    ensures found <==> Resolved(m)
    ensures found ==> forall id :: id in seen <==> Reachable(m, id)
  {
    RootReachable(m);
    var pending := [m.root];
    seen := {m.root};
    while pending != []
      invariant WorklistInvariant(m, pending, seen)
      decreases Mentioned(m) - seen, |pending|
    {
      var last := |pending| - 1;
      var id := pending[last];
      assert pending == pending[..last] + [id];
      if id !in m.nodes { return false, seen; }
      pending, seen := Expand(m, id, pending[..last], seen);
    }
    assert ClosedOver(m, seen) by {
      forall a, b | a in seen && Edge(m, a, b) ensures b in seen {
        assert Expanded(m, a, seen);
      }
    }
    ClosedIsReachable(m, seen);
    found := true;
  }

  // ------------------------------------------------------ across every target

  type Key = (string, string)

  function KeyOf(package: Package): Key { (package.name, package.version) }

  /** A crate other than the root that this target links. */
  ghost predicate Links(m: Metadata, id: Id) { id != m.root && Reachable(m, id) }

  ghost predicate Named(package: Package, key: Key) { package.name == key.0 && package.version == key.1 }

  ghost predicate LinksPackage(m: Metadata, package: Package) {
    exists id :: Links(m, id) && id in m.packages && m.packages[id] == package
  }

  ghost predicate LinksKey(m: Metadata, key: Key) {
    exists package :: LinksPackage(m, package) && package.name == key.0 && package.version == key.1
  }

  /** Every reachable node is resolved and every linked crate is described. */
  ghost predicate Complete(m: Metadata) {
    Resolved(m) && forall id | Links(m, id) :: id in m.packages
  }

  method AddTarget(m: Metadata, crates: map<Key, Package>) returns (found: bool, crates': map<Key, Package>)
    ensures found <==> Complete(m)
    ensures found ==> forall key :: key in crates' <==> key in crates || LinksKey(m, key)
    ensures found ==> forall key | key in crates' ::
      if LinksKey(m, key) then LinksPackage(m, crates'[key]) && Named(crates'[key], key) else crates'[key] == crates[key]
  {
    crates' := crates;
    var seen;
    found, seen := Collect(m);
    if !found { return; }
    var todo := seen - {m.root};
    while todo != {}
      invariant todo <= seen - {m.root}
      invariant forall id | id in seen - {m.root} - todo :: id in m.packages && KeyOf(m.packages[id]) in crates'
      invariant forall key :: key in crates' ==> key in crates || LinksKey(m, key)
      invariant forall key :: key in crates ==> key in crates'
      invariant forall key | key in crates' ::
        || (LinksPackage(m, crates'[key]) && KeyOf(crates'[key]) == key)
        || (key in crates && crates'[key] == crates[key] && forall id | id in seen - {m.root} - todo :: KeyOf(m.packages[id]) != key)
    {
      var id :| id in todo;
      assert Links(m, id);
      if id !in m.packages { return false, crates; }
      var package := m.packages[id];
      assert LinksPackage(m, package);
      todo := todo - {id};
      crates' := crates'[KeyOf(package) := package];
    }
  }

  ghost predicate LinkedSomewhere(targets: seq<Metadata>, key: Key) {
    exists i | 0 <= i < |targets| :: LinksKey(targets[i], key)
  }

  /** The package comes from the last target that links its name and version. */
  ghost predicate FromLastTarget(targets: seq<Metadata>, package: Package) {
    exists i | 0 <= i < |targets| ::
      LinksPackage(targets[i], package) && forall j | i < j < |targets| :: !LinksKey(targets[j], (package.name, package.version))
  }

  lemma LastTargetStays(targets: seq<Metadata>, m: Metadata, package: Package)
    requires FromLastTarget(targets, package) && !LinksKey(m, KeyOf(package))
    ensures FromLastTarget(targets + [m], package)
  {
    var i :| 0 <= i < |targets| && LinksPackage(targets[i], package) && forall j | i < j < |targets| :: !LinksKey(targets[j], KeyOf(package));
    assert (targets + [m])[i] == targets[i];
  }

  lemma LastTargetTakes(targets: seq<Metadata>, m: Metadata, package: Package)
    requires LinksPackage(m, package)
    ensures FromLastTarget(targets + [m], package)
  {
    assert (targets + [m])[|targets|] == m;
  }

  lemma SomewhereGrows(targets: seq<Metadata>, m: Metadata, key: Key)
    ensures LinkedSomewhere(targets + [m], key) <==> LinkedSomewhere(targets, key) || LinksKey(m, key)
  {
    var more := targets + [m];
    assert more[|targets|] == m;
    if LinkedSomewhere(targets, key) {
      var i :| 0 <= i < |targets| && LinksKey(targets[i], key);
      assert more[i] == targets[i];
    }
  }

  /** What has been collected from these targets. */
  ghost predicate Collected(targets: seq<Metadata>, crates: map<Key, Package>) {
    && (forall key :: key in crates <==> LinkedSomewhere(targets, key))
    && (forall key | key in crates :: Named(crates[key], key) && FromLastTarget(targets, crates[key]))
  }

  lemma TargetAdded(targets: seq<Metadata>, m: Metadata, crates: map<Key, Package>, crates': map<Key, Package>)
    requires Collected(targets, crates)
    requires forall key :: key in crates' <==> key in crates || LinksKey(m, key)
    requires forall key | key in crates' ::
      if LinksKey(m, key) then LinksPackage(m, crates'[key]) && Named(crates'[key], key) else crates'[key] == crates[key]
    ensures Collected(targets + [m], crates')
  {
    forall key ensures key in crates' <==> LinkedSomewhere(targets + [m], key) {
      SomewhereGrows(targets, m, key);
    }
    forall key | key in crates' ensures Named(crates'[key], key) && FromLastTarget(targets + [m], crates'[key]) {
      if LinksKey(m, key) { LastTargetTakes(targets, m, crates'[key]); }
      else { LastTargetStays(targets, m, crates'[key]); }
    }
  }

  /** The crates listed are exactly those some target links; it fails exactly when some
      target's metadata misses a node or a package it needs. */
  method LinkedCrates(targets: seq<Metadata>) returns (found: bool, crates: map<Key, Package>)
    ensures found <==> forall m | m in targets :: Complete(m)
    ensures found ==> Collected(targets, crates)
  {
    crates := map[];
    for i := 0 to |targets|
      invariant forall m | m in targets[..i] :: Complete(m)
      invariant Collected(targets[..i], crates)
    {
      assert targets[..i + 1] == targets[..i] + [targets[i]];
      ghost var before := crates;
      found, crates := AddTarget(targets[i], crates);
      if !found { return; }
      TargetAdded(targets[..i], targets[i], before, crates);
    }
    assert targets[..|targets|] == targets;
    found := true;
  }
}
