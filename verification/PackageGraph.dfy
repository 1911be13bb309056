/** The package policy: which packages Cargo resolved, what the EFI package depends on, and at which revisions. */
module PackageGraph {
  import opened Bytes

  datatype Node = Node(features: seq<string>, dependencies: seq<string>)

  type Graph = map<string, Node>

  // Reachability.

  /** A chain of dependencies; its last package need not have a node. */
  ghost predicate Path(nodes: Graph, path: seq<string>) {
    path != [] && forall i | 0 <= i < |path| - 1 :: path[i] in nodes && path[i + 1] in nodes[path[i]].dependencies
  }

  ghost predicate Reachable(nodes: Graph, from: string, to: string) {
    exists path :: Path(nodes, path) && path[0] == from && path[|path| - 1] == to
  }

  lemma ReachesItself(nodes: Graph, id: string)
    ensures Reachable(nodes, id, id)
  {
    var path := [id];
    assert Path(nodes, path) && path[0] == id && path[|path| - 1] == id;
  }

  lemma ReachesOn(nodes: Graph, from: string, id: string, next: string)
    requires Reachable(nodes, from, id) && id in nodes && next in nodes[id].dependencies
    ensures Reachable(nodes, from, next)
  {
    var path :| Path(nodes, path) && path[0] == from && path[|path| - 1] == id;
    var longer := path + [next];
    assert Path(nodes, longer) && longer[0] == from && longer[|longer| - 1] == next;
  }

  /** Every dependency of a package in the set is in the set. */
  predicate ClosedUnder(nodes: Graph, ids: set<string>) {
    forall id | id in ids :: id in nodes && forall next | next in nodes[id].dependencies :: next in ids
  }

  lemma {:induction false} PathStaysInside(nodes: Graph, ids: set<string>, path: seq<string>)
    requires ClosedUnder(nodes, ids) && Path(nodes, path) && path[0] in ids
    ensures path[|path| - 1] in ids
    decreases |path|
  {
    if |path| > 1 {
      assert path[1] in nodes[path[0]].dependencies;
      PathStaysInside(nodes, ids, path[1..]);
    }
  }

  /** A closed set that holds the start holds everything that can be reached from it. */
  lemma ClosedHoldsReachable(nodes: Graph, ids: set<string>, from: string, to: string)
    requires ClosedUnder(nodes, ids) && from in ids && Reachable(nodes, from, to)
    ensures to in ids
  {
    var path :| Path(nodes, path) && path[0] == from && path[|path| - 1] == to;
    PathStaysInside(nodes, ids, path);
  }

  /** The state of the search: everything found so far, and what is still to be looked at. */
  ghost predicate Frontier(nodes: Graph, start: string, visited: set<string>, pending: seq<string>) {
    && visited <= nodes.Keys && (start in visited || start in pending)
    && (forall id | id in visited || id in pending :: Reachable(nodes, start, id))
    && (forall id, next | id in visited && next in nodes[id].dependencies :: next in visited || next in pending)
  }

  lemma Skips(nodes: Graph, start: string, visited: set<string>, pending: seq<string>, id: string)
    requires Frontier(nodes, start, visited, pending + [id]) && id in visited
    ensures Frontier(nodes, start, visited, pending)
  {
    hide Reachable;
    assert forall k :: k in pending + [id] <==> k in pending || k == id;
  }

  lemma Expands(nodes: Graph, start: string, visited: set<string>, pending: seq<string>, id: string)
    requires Frontier(nodes, start, visited, pending + [id]) && id in nodes
    ensures Frontier(nodes, start, visited + {id}, pending + nodes[id].dependencies)
  {
    hide Reachable;
    var more := nodes[id].dependencies;
    assert forall k :: k in pending + [id] <==> k in pending || k == id;
    assert forall k :: k in pending + more <==> k in pending || k in more;
    forall next | next in more ensures Reachable(nodes, start, next) {
      ReachesOn(nodes, start, id, next);
    }
  }

  lemma Finds(nodes: Graph, start: string, visited: set<string>)
    requires Frontier(nodes, start, visited, [])
    ensures forall id :: id in visited <==> Reachable(nodes, start, id)
    ensures visited <= nodes.Keys
  {
    hide Reachable;
    forall id | Reachable(nodes, start, id) ensures id in visited {
      ClosedHoldsReachable(nodes, visited, start, id);
    }
  }

  lemma PendingReachable(nodes: Graph, start: string, visited: set<string>, pending: seq<string>, id: string)
    requires Frontier(nodes, start, visited, pending) && id in pending
    ensures Reachable(nodes, start, id)
  {
  }

  /**
   * The worklist ends on every graph, cyclic ones included. It finds exactly the reachable packages,
   * and fails exactly when one of them has no node.
   */
  method Closure(nodes: Graph, start: string) returns (r: Result<set<string>>)
    ensures r.Err? <==> exists id :: Reachable(nodes, start, id) && id !in nodes
    ensures r.Ok? ==> forall id :: id in r.value <==> Reachable(nodes, start, id)
  {
    hide Frontier, Reachable;
    var visited: set<string>, pending := {}, [start];
    StartsSearch(nodes, start);
    while pending != []
      invariant Frontier(nodes, start, visited, pending)
      decreases |nodes.Keys - visited|, |pending|
    {
      var id, rest := pending[|pending| - 1], pending[..|pending| - 1];
      assert pending == rest + [id];
      if id in visited {
        Skips(nodes, start, visited, rest, id);
        pending := rest;
      } else {
        PendingReachable(nodes, start, visited, pending, id);
        if id !in nodes {
          return Err("Cargo dependency graph is missing a selected package node");
        }
        Expands(nodes, start, visited, rest, id);
        Shrinks(nodes.Keys - (visited + {id}), nodes.Keys - visited);
        visited := visited + {id};
        pending := rest + nodes[id].dependencies;
      }
    }
    Finds(nodes, start, visited);
    r := Ok(visited);
  }

  lemma StartsSearch(nodes: Graph, start: string)
    ensures Frontier(nodes, start, {}, [start])
  {
    ReachesItself(nodes, start);
  }

  lemma Shrinks<T>(a: set<T>, b: set<T>)
    requires a < b
    ensures |a| < |b|
  {
    assert b == a + (b - a);
    assert b - a != {};
  }

  // The metadata.

  /** One resolved package: `local` when Cargo gives it no source, i.e. it is part of the workspace. */
  datatype Package = Package(name: string, id: string, manifest: string, local: bool)

  datatype Metadata = Metadata(packages: seq<Package>, members: seq<string>, nodes: Graph)

  /** The owners' table: the manifest each owned package must come from, and which are members. */
  datatype Owners = Owners(manifests: map<string, string>, primary: set<string>, root: string, service: string) {
    predicate Valid() { primary <= manifests.Keys && root in manifests && service in manifests }
  }

  const FEATURE := "arm-jit-memory-provider"

  function Names(packages: seq<Package>): set<string> { set p | p in packages :: p.name }

  function Elements<T>(s: seq<T>): set<T> { set x | x in s }

  predicate NoDuplicates<T(==)>(s: seq<T>) { forall i, j | 0 <= i < j < |s| :: s[i] != s[j] }

  /** As many different elements as places leaves no room for a repetition. */
  lemma {:induction false} AllDifferent<T>(s: seq<T>)
    ensures |Elements(s)| <= |s|
    ensures |Elements(s)| == |s| <==> NoDuplicates(s)
    decreases |s|
  {
    if s == [] {
      assert Elements(s) == {};
    } else {
      var front, last := s[..|s| - 1], s[|s| - 1];
      AllDifferent(front);
      assert s == front + [last];
      assert Elements(s) == Elements(front) + {last};
    }
  }

  /** The packages whose names are the policy's concern: those that begin with the prefix. */
  function Concerned(packages: seq<Package>, concern: string -> bool): seq<Package> {
    if packages == [] then []
    else
      var front := Concerned(packages[..|packages| - 1], concern);
      if concern(packages[|packages| - 1].name) then front + [packages[|packages| - 1]] else front
  }

  function NamesOf(packages: seq<Package>): seq<string> {
    seq(|packages|, i requires 0 <= i < |packages| => packages[i].name)
  }

  /** by_name[name] for a name that is among the packages: the last one wins. */
  function ByName(packages: seq<Package>, name: string): Package
    requires name in Names(packages)
    decreases |packages|
  {
    if packages[|packages| - 1].name == name then packages[|packages| - 1]
    else ByName(packages[..|packages| - 1], name)
  }

  lemma {:induction false} ByNameFinds(packages: seq<Package>, name: string)
    requires name in Names(packages)
    ensures ByName(packages, name) in packages && ByName(packages, name).name == name
    decreases |packages|
  {
    var n := |packages| - 1;
    if packages[n].name != name {
      var p :| p in packages && p.name == name;
      assert packages == packages[..n] + [packages[n]];
      assert p in packages[..n];
      ByNameFinds(packages[..n], name);
    }
  }

  /** With different names, every package is the one found under its name. */
  lemma ByNameUnique(packages: seq<Package>, p: Package)
    requires NoDuplicates(NamesOf(packages)) && p in packages
    ensures p.name in Names(packages) && ByName(packages, p.name) == p
  {
    ByNameFinds(packages, p.name);
    var q := ByName(packages, p.name);
    var i :| 0 <= i < |packages| && packages[i] == p;
    var j :| 0 <= j < |packages| && packages[j] == q;
    assert NamesOf(packages)[i] == NamesOf(packages)[j];
  }

  /** Each owned package is resolved, once. */
  ghost predicate OncePerName(ours: seq<Package>, owners: Owners) {
    Names(ours) == owners.manifests.Keys && NoDuplicates(NamesOf(ours))
  }

  lemma NamesAsSet(packages: seq<Package>)
    ensures Elements(NamesOf(packages)) == Names(packages)
  {
    forall name | name in Elements(NamesOf(packages)) ensures name in Names(packages) {
      var i :| 0 <= i < |packages| && NamesOf(packages)[i] == name;
      assert packages[i] in packages;
    }
    forall name | name in Names(packages) ensures name in Elements(NamesOf(packages)) {
      var i :| 0 <= i < |packages| && packages[i].name == name;
      assert NamesOf(packages)[i] == name;
    }
  }

  lemma CountsNames(ours: seq<Package>, owners: Owners)
    ensures OncePerName(ours, owners) <==> |ours| == |owners.manifests| && Names(ours) == owners.manifests.Keys
  {
    hide Elements, Names, NoDuplicates;
    AllDifferent(NamesOf(ours));
    NamesAsSet(ours);
    assert |owners.manifests| == |owners.manifests.Keys|;
  }

  /** The workspace members are the primary packages, without repetition. */
  ghost predicate MembersMatch(members: seq<string>, ours: seq<Package>, owners: Owners) {
    NoDuplicates(members)
    && forall id :: id in members <==> exists p | p in ours :: p.name in owners.primary && p.id == id
  }

  lemma CountsMembers(members: seq<string>, ours: seq<Package>, owners: Owners, expected: set<string>)
    requires owners.Valid() && OncePerName(ours, owners)
    requires expected == set name | name in owners.primary :: ByName(ours, name).id
    ensures MembersMatch(members, ours, owners) <==> Elements(members) == expected && |members| == |expected|
  {
    hide ByName, NoDuplicates, OncePerName;
    AllDifferent(members);
    OncePerNameMeans(ours, owners);
    forall id ensures id in expected <==> exists p | p in ours :: p.name in owners.primary && p.id == id {
      if id in expected {
        var name :| name in owners.primary && ByName(ours, name).id == id;
        ByNameFinds(ours, name);
      }
      if p :| p in ours && p.name in owners.primary && p.id == id {
        ByNameUnique(ours, p);
      }
    }
    assert forall id :: id in members <==> id in Elements(members);
    if MembersMatch(members, ours, owners) {
      assert Elements(members) == expected;
    }
  }

  lemma OncePerNameMeans(ours: seq<Package>, owners: Owners)
    requires OncePerName(ours, owners)
    ensures Names(ours) == owners.manifests.Keys && NoDuplicates(NamesOf(ours))
  {
  }

  /** Each package comes from the workspace and from the manifest of its owner. */
  ghost predicate FromOwners(ours: seq<Package>, owners: Owners) {
    forall p | p in ours ::
      p.local && exists name | name in owners.manifests && name == p.name :: owners.manifests[name] == p.manifest
  }

  lemma OwnedMeans(ours: seq<Package>, owners: Owners)
    ensures FromOwners(ours, owners) <==> forall i | 0 <= i < |ours| :: OwnedPackage(ours[i], owners)
  {
    if FromOwners(ours, owners) {
      forall i | 0 <= i < |ours| ensures OwnedPackage(ours[i], owners) {
        assert ours[i] in ours;
      }
    }
  }

  predicate OwnedPackage(p: Package, owners: Owners) {
    p.name in owners.manifests && p.local && p.manifest == owners.manifests[p.name]
  }

  /** The packages the root depends on all have nodes, the service is one of them, and the feature is on. */
  ghost predicate Selected(nodes: Graph, root: string, service: string) {
    && root in nodes && FEATURE in nodes[root].features
    && (forall id | Reachable(nodes, root, id) :: id in nodes)
    && Reachable(nodes, root, service)
  }

  /**
   * Accepts exactly the workspaces in which each owned package is resolved once, locally and from
   * its own manifest, the members are the primary packages without repetition, the feature is on,
   * every package the EFI package depends on has a node, and the memory service is one of them.
   */
  method ValidateMetadata(m: Metadata, owners: Owners, concern: string -> bool) returns (r: Result<()>)
    requires owners.Valid()
    ensures r.Ok? <==>
              var ours := Concerned(m.packages, concern);
              && OncePerName(ours, owners) && MembersMatch(m.members, ours, owners)
              && FromOwners(ours, owners)
              && Selected(m.nodes, ByName(ours, owners.root).id, ByName(ours, owners.service).id)
  {
    hide OncePerName, MembersMatch, ByName, Selected, NamesOf, Elements, Concerned, OwnedPackage, FromOwners;
    var ours := Concerned(m.packages, concern);
    CountsNames(ours, owners);
    if |ours| != |owners.manifests| || Names(ours) != owners.manifests.Keys {
      return Err("Cargo resolved unknown, missing or duplicate Nextcore packages");
    }
    var expected := set name | name in owners.primary :: ByName(ours, name).id;
    CountsMembers(m.members, ours, owners, expected);
    if Elements(m.members) != expected || |m.members| != |expected| {
      return Err("Cargo must resolve exactly seven primary workspace members");
    }
    OwnedMeans(ours, owners);
    for i := 0 to |ours|
      invariant forall k | 0 <= k < i :: OwnedPackage(ours[k], owners)
    {
      if !OwnedPackage(ours[i], owners) {
        return Err("Cargo did not resolve its local submodule owner");
      }
    }
    r := CheckSelection(m.nodes, ByName(ours, owners.root).id, ByName(ours, owners.service).id);
  }

  method CheckSelection(nodes: Graph, root: string, service: string) returns (r: Result<()>)
    ensures r.Ok? <==> Selected(nodes, root, service)
  {
    hide Reachable;
    if root !in nodes || FEATURE !in nodes[root].features {
      return Err("Cargo metadata must enable the EFI memory-provider feature");
    }
    var visited := Closure(nodes, root);
    if visited.Err? {
      return Err(visited.error);
    }
    if service !in visited.value {
      return Err("Cargo memory service is not selected by the EFI dependency graph");
    }
    r := Ok(());
  }

  // Revisions.

  /** One owner URL and the revision some manifest pins it to. */
  datatype Pin = Pin(url: string, revision: string)

  /** No URL is pinned to two revisions. */
  predicate Consistent(pins: seq<Pin>) {
    forall i, j | 0 <= i < j < |pins| :: pins[i].url == pins[j].url ==> pins[i].revision == pins[j].revision
  }

  /** The table holds exactly these pins. */
  predicate Tabulates(table: map<string, string>, pins: seq<Pin>) {
    && (forall i | 0 <= i < |pins| :: pins[i].url in table && table[pins[i].url] == pins[i].revision)
    && forall url | url in table :: Pin(url, table[url]) in pins
  }

  class Revisions {
    var table: map<string, string>
    /** Everything merged so far, in any order and any number of calls. */
    ghost var merged: seq<Pin>

    ghost predicate Valid()
      reads this
    {
      Consistent(merged) && Tabulates(table, merged)
    }

    constructor ()
      ensures Valid() && merged == [] && table == map[]
    {
      table, merged := map[], [];
    }

    /**
     * merge_revisions: succeeds exactly when no URL ends up with two revisions, whatever was merged
     * before; on failure the pins up to the conflict have been entered.
     */
    method Merge(pins: seq<Pin>) returns (conflict: bool)
      requires Valid()
      modifies this
      ensures Valid() && old(merged) <= merged <= old(merged) + pins
      ensures conflict <==> !Consistent(old(merged) + pins)
      ensures !conflict ==> merged == old(merged) + pins
    {
      hide Consistent, Tabulates;
      for i := 0 to |pins|
        invariant Valid() && merged == old(merged) + pins[..i]
      {
        var pin := pins[i];
        assert old(merged) + pins[..i + 1] == merged + [pin];
        OneMorePin(table, merged, pin);
        if pin.url in table && table[pin.url] != pin.revision {
          assert old(merged) + pins == (merged + [pin]) + pins[i + 1..];
          StaysInconsistent(merged + [pin], pins[i + 1..]);
          return true;
        }
        table := table[pin.url := pin.revision];
        merged := merged + [pin];
      }
      assert pins[..|pins|] == pins;
      conflict := false;
    }
  }

  lemma OneMorePin(table: map<string, string>, merged: seq<Pin>, pin: Pin)
    requires Consistent(merged) && Tabulates(table, merged)
    ensures Consistent(merged + [pin]) <==> (pin.url in table ==> table[pin.url] == pin.revision)
    ensures Consistent(merged + [pin]) ==> Tabulates(table[pin.url := pin.revision], merged + [pin])
  {
    var more := merged + [pin];
    assert more[|merged|] == pin && forall i | 0 <= i < |merged| :: more[i] == merged[i];
    if pin.url in table && table[pin.url] != pin.revision {
      var k :| 0 <= k < |merged| && merged[k] == Pin(pin.url, table[pin.url]);
      assert more[k].url == more[|merged|].url;
    }
  }

  lemma StaysInconsistent(pins: seq<Pin>, more: seq<Pin>)
    requires !Consistent(pins)
    ensures !Consistent(pins + more)
  {
    var i, j :| 0 <= i < j < |pins| && pins[i].url == pins[j].url && pins[i].revision != pins[j].revision;
    assert (pins + more)[i] == pins[i] && (pins + more)[j] == pins[j];
  }

  /** The order in which the manifests are read makes no difference to the verdict or to the table. */
  lemma MergeOrderIrrelevant(a: seq<Pin>, b: seq<Pin>, s: map<string, string>, t: map<string, string>)
    requires forall pin :: pin in a <==> pin in b
    ensures Consistent(a) <==> Consistent(b)
    ensures Tabulates(s, a) && Tabulates(t, b) ==> s == t
  {
    if Consistent(a) {
      SameConsistency(a, b);
    }
    if Consistent(b) {
      SameConsistency(b, a);
    }
    if Tabulates(s, a) && Tabulates(t, b) {
      forall url | url in s || url in t ensures url in s && url in t && s[url] == t[url] {
        if url in s {
          var i :| 0 <= i < |b| && b[i] == Pin(url, s[url]);
        }
      }
    }
  }

  lemma SameConsistency(a: seq<Pin>, b: seq<Pin>)
    requires Consistent(a) && forall pin :: pin in b ==> pin in a
    ensures Consistent(b)
  {
    forall i, j | 0 <= i < j < |b| && b[i].url == b[j].url ensures b[i].revision == b[j].revision {
      assert b[i] in a && b[j] in a;
      var k :| 0 <= k < |a| && a[k] == b[i];
      var l :| 0 <= l < |a| && a[l] == b[j];
      assert k < l || l < k || k == l;
    }
  }
}
