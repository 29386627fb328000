// The order a solution's projects are built in: a depth first visit that puts
// each project after its dependencies and refuses cycles.
module Solutions {
  import opened Sequences

  datatype Configuration = Configuration(name: string, platform: string)

  datatype ConfigurationMapping = ConfigurationMapping(
    solution: Configuration, project: Configuration, build: bool, deploy: bool)

  // What the build order reads of a project.
  datatype ProjectEntry = ProjectEntry(
    id: string, name: string, dependencies: seq<string>, configurations: seq<ConfigurationMapping>)
  {
    function Mapping(configuration: Configuration): ConfigurationMapping {
      FirstMapping(configurations, configuration)
    }
  }

  // The mapping listed for `configuration`; none listed, that to itself.
  function FirstMapping(mappings: seq<ConfigurationMapping>, configuration: Configuration): ConfigurationMapping {
    if mappings == [] then ConfigurationMapping(configuration, configuration, true, false)
    else if mappings[0].solution == configuration then mappings[0]
    else FirstMapping(mappings[1..], configuration)
  }

  // The first mapping listed for `configuration` is at `i`.
  ghost predicate IsFirstFor(mappings: seq<ConfigurationMapping>, configuration: Configuration, i: nat) {
    && i < |mappings| && mappings[i].solution == configuration
    && forall k :: 0 <= k < i ==> mappings[k].solution != configuration
  }

  ghost predicate IsListed(mappings: seq<ConfigurationMapping>, configuration: Configuration) {
    exists i :: 0 <= i < |mappings| && mappings[i].solution == configuration
  }

  // What is built under `configuration`: a project whose first mapping for it says
  // so, and one that lists none.
  ghost predicate Builds(p: ProjectEntry, configuration: Configuration) {
    IsListed(p.configurations, configuration) ==>
      exists i: nat :: IsFirstFor(p.configurations, configuration, i) && p.configurations[i].build
  }

  // The mapping is the first one listed; with none it names the configuration itself,
  // to be built and not deployed.
  lemma {:induction false} MappingMeans(mappings: seq<ConfigurationMapping>, configuration: Configuration)
    ensures var mapping := FirstMapping(mappings, configuration);
            && (IsListed(mappings, configuration) ==>
                  exists i: nat :: IsFirstFor(mappings, configuration, i) && mapping == mappings[i])
            && (!IsListed(mappings, configuration) ==>
                  mapping == ConfigurationMapping(configuration, configuration, true, false))
  {
    if mappings != [] && mappings[0].solution != configuration {
      var rest := mappings[1..];
      MappingMeans(rest, configuration);
      if IsListed(mappings, configuration) {
        var k :| 0 <= k < |mappings| && mappings[k].solution == configuration;
        assert rest[k - 1].solution == configuration;
        var i: nat :| IsFirstFor(rest, configuration, i) && FirstMapping(rest, configuration) == rest[i];
        assert IsFirstFor(mappings, configuration, i + 1);
      }
    } else if mappings != [] {
      assert IsFirstFor(mappings, configuration, 0);
    }
  }

  lemma BuildsIff(p: ProjectEntry, configuration: Configuration)
    ensures p.Mapping(configuration).build <==> Builds(p, configuration)
  {
    var mappings := p.configurations;
    MappingMeans(mappings, configuration);
    if IsListed(mappings, configuration) {
      var i: nat :| IsFirstFor(mappings, configuration, i) && FirstMapping(mappings, configuration) == mappings[i];
      assert forall k: nat :: IsFirstFor(mappings, configuration, k) ==> k == i;
    }
  }

  datatype ProjectError =
    | DependencyCycle(project: string)
    | UnknownDependency(project: string, dependency: string)

  datatype Result<+T> = Ok(value: T) | Err(error: ProjectError)

  datatype Solution = Solution(projects: seq<ProjectEntry>) {
    // The first project of `id`.
    function Project(id: string): Option<ProjectEntry> {
      FindProject(projects, id)
    }
  }

  function FindProject(projects: seq<ProjectEntry>, id: string): (found: Option<ProjectEntry>)
    ensures found.Some? ==> found.value in projects && found.value.id == id
    ensures found.None? ==> forall p :: p in projects ==> p.id != id
  {
    if projects == [] then None
    else if projects[0].id == id then Some(projects[0])
    else FindProject(projects[1..], id)
  }

  // -- The dependency graph -------------------------------------------------------

  predicate Edge(sol: Solution, from: string, to: string) {
    sol.Project(from).Some? && to in sol.Project(from).value.dependencies
  }

  predicate StepsOn(sol: Solution, path: seq<string>, i: nat)
    requires i + 1 < |path|
  {
    Edge(sol, path[i], path[i + 1])
  }

  ghost predicate IsPath(sol: Solution, path: seq<string>) {
    forall i: nat :: i + 1 < |path| ==> StepsOn(sol, path, i)
  }

  ghost predicate PathBetween(sol: Solution, from: string, to: string, path: seq<string>) {
    |path| >= 2 && path[0] == from && path[|path| - 1] == to && IsPath(sol, path)
  }

  // `from` depends on `to`, directly or through other projects.
  ghost predicate DependsOn(sol: Solution, from: string, to: string) {
    exists path :: PathBetween(sol, from, to, path)
  }

  ghost predicate Acyclic(sol: Solution) {
    forall id :: !DependsOn(sol, id, id)
  }

  ghost predicate DependenciesExist(sol: Solution) {
    forall from, to :: Edge(sol, from, to) ==> sol.Project(to).Some?
  }

  // -- What an order is ---------------------------------------------------------------

  ghost predicate Has(order: seq<ProjectEntry>, id: string) {
    exists i :: 0 <= i < |order| && order[i].id == id
  }

  ghost predicate HasFirst(order: seq<ProjectEntry>, ids: seq<string>, n: nat)
    requires n <= |ids|
  {
    forall k :: 0 <= k < n ==> Has(order, ids[k])
  }

  ghost predicate DistinctIds(order: seq<ProjectEntry>) {
    forall i, j :: 0 <= i < j < |order| ==> order[i].id != order[j].id
  }

  // Projects of the solution, each once, each after its direct dependencies.
  ghost predicate IsTopological(sol: Solution, order: seq<ProjectEntry>) {
    && DistinctIds(order)
    && (forall i :: 0 <= i < |order| ==> sol.Project(order[i].id) == Some(order[i]))
    && (forall i, d :: 0 <= i < |order| && d in order[i].dependencies ==> Has(order[..i], d))
  }

  // What is built under `configuration`, no more and no less, each once and after
  // all it depends on, through skipped projects too.
  ghost predicate IsBuildOrder(sol: Solution, configuration: Configuration, order: seq<ProjectEntry>) {
    && DistinctIds(order)
    && (forall p :: p in order <==>
          sol.Project(p.id) == Some(p) && Builds(p, configuration))
    && (forall i, j :: 0 <= i < |order| && 0 <= j < |order| && DependsOn(sol, order[i].id, order[j].id) ==> j < i)
  }

  ghost predicate IsError(sol: Solution, error: ProjectError) {
    match error
    case DependencyCycle(name) =>
      exists p :: p in sol.projects && p.name == name && DependsOn(sol, p.id, p.id)
    case UnknownDependency(name, dependency) =>
      exists p :: p in sol.projects && p.name == name && dependency in p.dependencies
                  && Edge(sol, p.id, dependency) && sol.Project(dependency).None?
  }

  // -- Facts about topological orders ---------------------------------------------------

  // What a project depends on stands before it, however far away it is.
  lemma {:induction false} DependenciesStandBefore(
    sol: Solution, order: seq<ProjectEntry>, i: nat, to: string, path: seq<string>)
    requires IsTopological(sol, order) && i < |order|
    requires PathBetween(sol, order[i].id, to, path)
    ensures Has(order[..i], to)
    decreases |path|
  {
    assert StepsOn(sol, path, 0);
    assert Has(order[..i], path[1]);
    if |path| > 2 {
      var j :| 0 <= j < |order[..i]| && order[..i][j].id == path[1];
      forall k: nat | k + 1 < |path[1..]|
        ensures StepsOn(sol, path[1..], k)
      {
        assert StepsOn(sol, path, k + 1);
      }
      DependenciesStandBefore(sol, order, j, to, path[1..]);
      var k :| 0 <= k < |order[..j]| && order[..j][k].id == to;
      assert order[..i][k].id == to;
    }
  }

  // An order of all projects proves that there is no cycle and nothing missing.
  lemma CompleteOrderIsProof(sol: Solution, order: seq<ProjectEntry>)
    requires IsTopological(sol, order)
    requires forall p :: p in sol.projects ==> Has(order, p.id)
    ensures Acyclic(sol) && DependenciesExist(sol)
  {
    forall id | DependsOn(sol, id, id)
      ensures false
    {
      var path :| PathBetween(sol, id, id, path);
      assert StepsOn(sol, path, 0);
      var i :| 0 <= i < |order| && order[i].id == id;
      DependenciesStandBefore(sol, order, i, id, path);
      assert false;
    }
    forall from, to | Edge(sol, from, to)
      ensures sol.Project(to).Some?
    {
      var i :| 0 <= i < |order| && order[i].id == from;
      assert Has(order[..i], to);
    }
  }

  function Retain(order: seq<ProjectEntry>, configuration: Configuration): (kept: seq<ProjectEntry>)
    ensures forall p :: p in kept <==> p in order && Builds(p, configuration)
  {
    if order == [] then []
    else
      var front, last := order[..|order| - 1], order[|order| - 1];
      BuildsIff(last, configuration);
      assert order == front + [last];
      Retain(front, configuration)
      + if last.Mapping(configuration).build then [last] else []
  }

  // Leaving projects out keeps the others apart and in order.
  lemma {:induction false} RetainKeepsOrder(sol: Solution, order: seq<ProjectEntry>, configuration: Configuration)
    requires DistinctIds(order)
    requires forall i, j :: 0 <= i <= j < |order| ==> !DependsOn(sol, order[i].id, order[j].id)
    ensures var kept := Retain(order, configuration);
            && DistinctIds(kept)
            && forall i, j :: 0 <= i <= j < |kept| ==> !DependsOn(sol, kept[i].id, kept[j].id)
  {
    if order != [] {
      var front := order[..|order| - 1];
      RetainKeepsOrder(sol, front, configuration);
      var kept := Retain(front, configuration);
      forall i | 0 <= i < |kept|
        ensures exists k :: 0 <= k < |order| - 1 && order[k] == kept[i]
      {
        assert kept[i] in front;
      }
    }
  }

  lemma TopologicalToBuildOrder(sol: Solution, configuration: Configuration, order: seq<ProjectEntry>)
    requires IsTopological(sol, order)
    requires forall p :: p in sol.projects ==> Has(order, p.id)
    ensures IsBuildOrder(sol, configuration, Retain(order, configuration))
  {
    forall i, j | 0 <= i <= j < |order|
      ensures !DependsOn(sol, order[i].id, order[j].id)
    {
      if DependsOn(sol, order[i].id, order[j].id) {
        var path :| PathBetween(sol, order[i].id, order[j].id, path);
        DependenciesStandBefore(sol, order, i, order[j].id, path);
      }
    }
    RetainKeepsOrder(sol, order, configuration);
    forall p: ProjectEntry | sol.Project(p.id) == Some(p)
      ensures p in order
    {
      var i :| 0 <= i < |order| && order[i].id == p.id;
      assert order[i] == p;
    }
  }

  // -- The visit ----------------------------------------------------------------------

  // `trail` is the chain of projects being visited, outermost first.
  ghost predicate Consistent(
    sol: Solution, done: set<string>, visiting: set<string>, order: seq<ProjectEntry>, trail: seq<string>)
  {
    && IsTopological(sol, order)
    && (forall id :: id in done <==> Has(order, id))
    && (forall id :: id in visiting <==> id in trail)
    && visiting !! done
    && IsPath(sol, trail)
  }

  lemma Entered(
    sol: Solution, done: set<string>, visiting: set<string>, order: seq<ProjectEntry>, trail: seq<string>, id: string)
    requires Consistent(sol, done, visiting, order, trail)
    requires id !in done && id !in visiting
    requires trail != [] ==> Edge(sol, trail[|trail| - 1], id)
    ensures Consistent(sol, done, visiting + {id}, order, trail + [id])
  {
    forall i: nat | i + 1 < |trail + [id]|
      ensures StepsOn(sol, trail + [id], i)
    {
      if i + 1 < |trail| {
        assert StepsOn(sol, trail, i);
      }
    }
  }

  lemma Left(
    sol: Solution, done: set<string>, visiting: set<string>, order: seq<ProjectEntry>, trail: seq<string>,
    project: ProjectEntry)
    requires project.id !in visiting
    requires Consistent(sol, done, visiting + {project.id}, order, trail + [project.id])
    requires forall id :: id in visiting <==> id in trail
    requires sol.Project(project.id) == Some(project)
    requires HasFirst(order, project.dependencies, |project.dependencies|)
    ensures Consistent(sol, done + {project.id}, visiting, order + [project], trail)
    ensures Has(order + [project], project.id)
  {
    Appended(sol, order, project);
    forall i: nat | i + 1 < |trail|
      ensures StepsOn(sol, trail, i)
    {
      assert StepsOn(sol, trail + [project.id], i);
    }
  }

  // The sets a visit changes in place.
  class Visit {
    const sol: Solution
    var done: set<string>
    var visiting: set<string>
    var order: seq<ProjectEntry>

    constructor (sol: Solution)
      ensures this.sol == sol && done == {} && visiting == {} && order == []
    {
      this.sol := sol;
      done, visiting, order := {}, {}, [];
    }

    ghost predicate Valid(trail: seq<string>)
      reads this
    {
      Consistent(sol, done, visiting, order, trail)
    }

    // Goes into `project`, unless it is placed already, and places it last.
    method Project(project: ProjectEntry, ghost trail: seq<string>) returns (result: Result<()>)
      requires Valid(trail)
      requires project in sol.projects
      requires project.id in done || sol.Project(project.id) == Some(project)
      requires trail != [] ==> Edge(sol, trail[|trail| - 1], project.id)
      modifies this
      ensures result.Ok? ==> Valid(trail) && visiting == old(visiting) && old(order) <= order && Has(order, project.id)
      ensures result.Err? ==> IsError(sol, result.error)
      decreases Unvisited(sol, visiting), 0
    {
      if project.id in done {
        return Ok(());
      }
      if project.id in visiting {
        assert IsError(sol, DependencyCycle(project.name)) by {
          CycleClosed(sol, trail, project);
        }
        return Err(DependencyCycle(project.name));
      }
      ghost var outer := visiting;
      VisitingGrows(sol, outer, project);
      Enter(project, trail);
      assert visiting == outer + {project.id};
      var visited := Dependencies(project, trail + [project.id]);
      if visited.Err? {
        return visited;
      }
      PrefixSnoc(old(order), order, project);
      Place(project, trail, outer);
      return Ok(());
    }

    // `project` is being visited.
    method Enter(project: ProjectEntry, ghost trail: seq<string>)
      requires Valid(trail)
      requires project.id !in done && project.id !in visiting
      requires trail != [] ==> Edge(sol, trail[|trail| - 1], project.id)
      modifies this`visiting
      ensures Valid(trail + [project.id]) && visiting == old(visiting) + {project.id}
    {
      Entered(sol, done, visiting, order, trail, project.id);
      visiting := visiting + {project.id};
    }

    // `project` is no longer being visited but done, and next in the order.
    method Place(project: ProjectEntry, ghost trail: seq<string>, ghost outer: set<string>)
      requires Valid(trail + [project.id])
      requires sol.Project(project.id) == Some(project)
      requires HasFirst(order, project.dependencies, |project.dependencies|)
      requires project.id !in outer && visiting == outer + {project.id}
      requires forall id :: id in outer <==> id in trail
      modifies this
      ensures Valid(trail) && visiting == outer
      ensures order == old(order) + [project] && Has(order, project.id)
    {
      Left(sol, done, outer, order, trail, project);
      visiting := visiting - {project.id};
      assert visiting == outer;
      done := done + {project.id};
      order := order + [project];
    }

    // The loop of the visit: every dependency of `project` into `order`.
    method Dependencies(project: ProjectEntry, ghost trail: seq<string>) returns (result: Result<()>)
      requires Valid(trail)
      requires sol.Project(project.id) == Some(project)
      requires trail != [] && trail[|trail| - 1] == project.id
      modifies this
      ensures result.Ok? ==> Valid(trail) && visiting == old(visiting) && old(order) <= order
      ensures result.Ok? ==> HasFirst(order, project.dependencies, |project.dependencies|)
      ensures result.Err? ==> IsError(sol, result.error)
      decreases Unvisited(sol, visiting), 1
    {
      for i := 0 to |project.dependencies|
        invariant Valid(trail)
        invariant visiting == old(visiting)
        invariant old(order) <= order
        invariant HasFirst(order, project.dependencies, i)
      {
        var dependency := project.dependencies[i];
        assert Edge(sol, project.id, dependency);
        var next := sol.Project(dependency);
        if next.None? {
          return Err(UnknownDependency(project.name, dependency));
        }
        ghost var before := order;
        var visited := Project(next.value, trail);
        if visited.Err? {
          return visited;
        }
        HasNext(before, order, project.dependencies, i);
      }
      return Ok(());
    }
  }

  function AllIds(sol: Solution): set<string> {
    set p | p in sol.projects :: p.id
  }

  // How many projects a visit can still go into.
  function Unvisited(sol: Solution, visiting: set<string>): nat {
    |AllIds(sol) - visiting|
  }

  lemma VisitingGrows(sol: Solution, visiting: set<string>, project: ProjectEntry)
    requires project in sol.projects && project.id !in visiting
    ensures Unvisited(sol, visiting + {project.id}) < Unvisited(sol, visiting)
  {
    assert project.id in AllIds(sol) - visiting;
    CardinalityStrict(AllIds(sol) - (visiting + {project.id}), AllIds(sol) - visiting);
  }

  lemma CardinalityStrict<T>(a: set<T>, b: set<T>)
    requires a < b
    ensures |a| < |b|
  {
    assert b == a + (b - a);
    assert b - a != {};
  }

  lemma PrefixSnoc<T>(start: seq<T>, s: seq<T>, last: T)
    requires start <= s
    ensures start <= s + [last]
  {
  }

  lemma HasMore(before: seq<ProjectEntry>, after: seq<ProjectEntry>)
    requires before <= after
    ensures forall id :: Has(before, id) ==> Has(after, id)
  {
    forall id | Has(before, id)
      ensures Has(after, id)
    {
      var i :| 0 <= i < |before| && before[i].id == id;
      assert after[i].id == id;
    }
  }

  lemma HasNext(before: seq<ProjectEntry>, after: seq<ProjectEntry>, ids: seq<string>, n: nat)
    requires before <= after && n < |ids| && HasFirst(before, ids, n) && Has(after, ids[n])
    ensures HasFirst(after, ids, n + 1)
  {
    HasMore(before, after);
  }

  // Coming back to a project being visited closes a cycle through it.
  lemma CycleClosed(sol: Solution, trail: seq<string>, project: ProjectEntry)
    requires IsPath(sol, trail) && project.id in trail
    requires Edge(sol, trail[|trail| - 1], project.id)
    requires project in sol.projects
    ensures IsError(sol, DependencyCycle(project.name))
  {
    var k :| 0 <= k < |trail| && trail[k] == project.id;
    var path := trail[k..] + [project.id];
    forall i: nat | i + 1 < |path|
      ensures StepsOn(sol, path, i)
    {
      if k + i + 1 < |trail| {
        assert StepsOn(sol, trail, k + i);
      }
    }
    assert PathBetween(sol, project.id, project.id, path);
  }

  lemma Appended(sol: Solution, order: seq<ProjectEntry>, project: ProjectEntry)
    requires IsTopological(sol, order) && !Has(order, project.id)
    requires sol.Project(project.id) == Some(project)
    requires forall d :: d in project.dependencies ==> Has(order, d)
    ensures IsTopological(sol, order + [project])
    ensures forall id :: Has(order + [project], id) <==> Has(order, id) || id == project.id
  {
    var longer := order + [project];
    assert longer[..|order|] == order;
    forall i, d | 0 <= i < |longer| && d in longer[i].dependencies
      ensures Has(longer[..i], d)
    {
      if i < |order| {
        assert longer[..i] == order[..i];
      }
    }
    HasMore(order, longer);
    assert longer[|order|].id == project.id;
  }

  // Visits every project and keeps those that are built.
  method BuildOrder(sol: Solution, configuration: Configuration) returns (result: Result<seq<ProjectEntry>>)
    ensures result.Ok? <==> Acyclic(sol) && DependenciesExist(sol)
    ensures result.Ok? ==> IsBuildOrder(sol, configuration, result.value)
    ensures result.Err? ==> IsError(sol, result.error)
  {
    var visit := new Visit(sol);
    for i := 0 to |sol.projects|
      invariant fresh(visit) && visit.sol == sol && visit.Valid([])
      invariant forall k :: 0 <= k < i ==> Has(visit.order, sol.projects[k].id)
    {
      ghost var before := visit.order;
      FirstOfId(sol.projects, i);
      var visited := visit.Project(sol.projects[i], []);
      if visited.Err? {
        return Err(visited.error);
      }
      HasMore(before, visit.order);
    }
    CompleteOrderIsProof(sol, visit.order);
    TopologicalToBuildOrder(sol, configuration, visit.order);
    return Ok(Retain(visit.order, configuration));
  }

  // A project is the one its id finds, unless an earlier one has the same id.
  lemma {:induction false} FirstOfId(projects: seq<ProjectEntry>, i: nat)
    requires i < |projects|
    ensures || FindProject(projects, projects[i].id) == Some(projects[i])
            || exists k :: 0 <= k < i && projects[k].id == projects[i].id
  {
    if i > 0 && projects[0].id != projects[i].id {
      FirstOfId(projects[1..], i - 1);
      if k :| 0 <= k < i - 1 && projects[1..][k].id == projects[1..][i - 1].id {
        assert projects[k + 1].id == projects[i].id;
      }
    }
  }

  // With unique ids, the order is of all the solution's projects that are built.
  lemma UniqueIdsOrderAll(sol: Solution, configuration: Configuration, order: seq<ProjectEntry>)
    requires DistinctIds(sol.projects) && IsBuildOrder(sol, configuration, order)
    ensures forall p :: p in order <==> p in sol.projects && Builds(p, configuration)
  {
    forall p | p in sol.projects
      ensures sol.Project(p.id) == Some(p)
    {
      var i :| 0 <= i < |sol.projects| && sol.projects[i] == p;
      FirstOfId(sol.projects, i);
    }
  }
}
