/** Automatic configuration (morepath/autosetup.py): find the distributions of
    the working set that depend on Morepath, directly or through other
    distributions, import the module each of them names, and scan it. */
module AutoSetup {
  import opened Wrappers

  /** A pkg_resources entry point `name = module_name:attrs`. */
  datatype EntryPoint = EntryPoint(moduleName: string, attrs: seq<string>)

  /** A distribution of the working set. `requirements` holds the project names of
      `dist.requires()`. `entryMap` maps an entry-point group to its entry
      points by name; it is None for an object without `get_entry_map`. */
  datatype Distribution = Distribution(
    projectName: string,
    requirements: seq<string>,
    entryMap: Option<map<string, map<string, EntryPoint>>>)

  /** The error raised when the module of a distribution cannot be imported;
      it names the distribution, not the module. */
  datatype AutoImportError = AutoImportError(projectName: string)

  /** One `Config.scan(package, ignore)` call made by `autoconfig`. */
  datatype ScanCall<M> = ScanCall(package: M, ignore: seq<string>)

  /** The requirement table `DependencyMap._d`: a project name to the project
      names its distributions require. */
  type Table = map<string, set<string>>

  /** `_d.get(p, set())`. */
  function Get(t: Table, p: string): set<string> {
    if p in t then t[p] else {}
  }

  function Elements(s: seq<string>): set<string> {
    set x | x in s
  }

  lemma ElementsSnoc(s: seq<string>, x: string)
    ensures Elements(s + [x]) == Elements(s) + {x}
  {
    assert forall y :: y in s + [x] <==> y in s || y == x;
  }

  // ---------------------------------------------------------------------------
  // DependencyMap.load: what the two tables hold afterwards

  /** The table after the requirements of one distribution have been added
      one at a time with `setdefault(name, set()).add(r)`: a distribution
      without requirements creates no entry. */
  function AddRequirements(t: Table, dist: Distribution): Table {
    if |dist.requirements| == 0 then t
    else t[dist.projectName := Get(t, dist.projectName) + Elements(dist.requirements)]
  }

  /** The requirement table after loading the working set `ws` into `t`. */
  function LoadTable(t: Table, ws: seq<Distribution>): Table
    decreases |ws|
  {
    if ws == [] then t
    else AddRequirements(LoadTable(t, ws[..|ws| - 1]), ws[|ws| - 1])
  }

  /** The table `_dists` after loading `ws` into `m`: `_dists[name] = dist`. */
  function Register(m: map<string, Distribution>, ws: seq<Distribution>): map<string, Distribution>
    decreases |ws|
  {
    if ws == [] then m
    else Register(m, ws[..|ws| - 1])[ws[|ws| - 1].projectName := ws[|ws| - 1]]
  }

  /** The requirement table of a fresh DependencyMap loaded from `ws`. */
  function RequirementTable(ws: seq<Distribution>): Table {
    LoadTable(map[], ws)
  }

  /** Every requirement that a distribution of `ws` named `p` declares. */
  ghost function RequirementsOf(ws: seq<Distribution>, p: string): set<string> {
    set i, r | 0 <= i < |ws| && ws[i].projectName == p && r in ws[i].requirements :: r
  }

  /** Some distribution of `ws` named `p` declares at least one requirement. */
  ghost predicate DeclaresRequirements(ws: seq<Distribution>, p: string) {
    exists i :: 0 <= i < |ws| && ws[i].projectName == p && |ws[i].requirements| > 0
  }

  /** `k` is the position of the last distribution of `ws` named `p`. */
  ghost predicate IsLastNamed(ws: seq<Distribution>, p: string, k: int) {
    0 <= k < |ws| && ws[k].projectName == p &&
    forall j :: k < j < |ws| ==> ws[j].projectName != p
  }

  lemma RequirementsOfSnoc(ws: seq<Distribution>, p: string)
    requires ws != []
    ensures RequirementsOf(ws, p) == RequirementsOf(ws[..|ws| - 1], p) +
      (if ws[|ws| - 1].projectName == p then Elements(ws[|ws| - 1].requirements) else {})
  {
    var n := |ws| - 1;
    var last := if ws[n].projectName == p then Elements(ws[n].requirements) else {};
    forall r | r in RequirementsOf(ws, p)
      ensures r in RequirementsOf(ws[..n], p) + last
    {
      var i :| 0 <= i < |ws| && ws[i].projectName == p && r in ws[i].requirements;
      if i < n {
        assert ws[..n][i] == ws[i];
      }
    }
    forall r | r in RequirementsOf(ws[..n], p)
      ensures r in RequirementsOf(ws, p)
    {
      var i :| 0 <= i < n && ws[..n][i].projectName == p && r in ws[..n][i].requirements;
      assert ws[i] == ws[..n][i];
    }
  }

  lemma DeclaresRequirementsSnoc(ws: seq<Distribution>, p: string)
    requires ws != []
    ensures DeclaresRequirements(ws, p) <==>
      DeclaresRequirements(ws[..|ws| - 1], p) || (ws[|ws| - 1].projectName == p && |ws[|ws| - 1].requirements| > 0)
  {
    var n := |ws| - 1;
    if DeclaresRequirements(ws[..n], p) {
      var i :| 0 <= i < n && ws[..n][i].projectName == p && |ws[..n][i].requirements| > 0;
      assert ws[i] == ws[..n][i];
    }
    if DeclaresRequirements(ws, p) {
      var i :| 0 <= i < |ws| && ws[i].projectName == p && |ws[i].requirements| > 0;
      if i < n {
        assert ws[..n][i] == ws[i];
      }
    }
  }

  /** After `load`, a project has an entry exactly when it had one before or
      one of its distributions declares a requirement, and the entry is the
      union of what it held before and every requirement declared by a
      distribution of that name. */
  lemma {:induction false} LoadTableEntry(t: Table, ws: seq<Distribution>, p: string)
    ensures p in LoadTable(t, ws) <==> p in t || DeclaresRequirements(ws, p)
    ensures p in LoadTable(t, ws) ==> LoadTable(t, ws)[p] == Get(t, p) + RequirementsOf(ws, p)
    decreases |ws|
  {
    if ws == [] {
      assert RequirementsOf(ws, p) == {};
    } else {
      var n := |ws| - 1;
      LoadTableEntry(t, ws[..n], p);
      RequirementsOfSnoc(ws, p);
      DeclaresRequirementsSnoc(ws, p);
      if ws[n].projectName == p && |ws[n].requirements| > 0 {
        assert ws[n].requirements[0] in Elements(ws[n].requirements);
      }
      if ws[n].projectName == p && |ws[n].requirements| == 0 {
        assert Elements(ws[n].requirements) == {};
      }
    }
  }

  /** After `load`, `_dists` knows exactly the names it knew before and the
      project names of the working set. */
  lemma {:induction false} RegisterKeys(m: map<string, Distribution>, ws: seq<Distribution>, p: string)
    ensures p in Register(m, ws) <==> p in m || exists i :: 0 <= i < |ws| && ws[i].projectName == p
    decreases |ws|
  {
    if ws != [] {
      var n := |ws| - 1;
      RegisterKeys(m, ws[..n], p);
      if exists i :: 0 <= i < n && ws[..n][i].projectName == p {
        var i :| 0 <= i < n && ws[..n][i].projectName == p;
        assert ws[i] == ws[..n][i];
      }
      if exists i :: 0 <= i < |ws| && ws[i].projectName == p {
        var i :| 0 <= i < |ws| && ws[i].projectName == p;
        if i < n {
          assert ws[..n][i] == ws[i];
        }
      }
    }
  }

  /** After `load`, `_dists` holds for a project name the last distribution
      of the working set with that name. */
  lemma {:induction false} RegisterLast(m: map<string, Distribution>, ws: seq<Distribution>, p: string, k: int)
    requires IsLastNamed(ws, p, k)
    ensures p in Register(m, ws) && Register(m, ws)[p] == ws[k]
    decreases |ws|
  {
    var n := |ws| - 1;
    if k < n {
      assert IsLastNamed(ws[..n], p, k);
      RegisterLast(m, ws[..n], p, k);
    }
  }

  /** A name that no distribution of the working set carries keeps its entry. */
  lemma {:induction false} RegisterUntouched(m: map<string, Distribution>, ws: seq<Distribution>, p: string)
    requires p in m && forall i :: 0 <= i < |ws| ==> ws[i].projectName != p
    ensures p in Register(m, ws) && Register(m, ws)[p] == m[p]
    decreases |ws|
  {
    if ws != [] {
      var n := |ws| - 1;
      forall i | 0 <= i < n
        ensures ws[..n][i].projectName != p
      {
        assert ws[..n][i] == ws[i];
      }
      RegisterUntouched(m, ws[..n], p);
    }
  }

  /** Every requirement a distribution declares is recorded for its project. */
  lemma DeclaredRequirementRecorded(ws: seq<Distribution>, i: int, r: string)
    requires 0 <= i < |ws| && r in ws[i].requirements
    ensures ws[i].projectName in RequirementTable(ws)
    ensures r in RequirementTable(ws)[ws[i].projectName]
  {
    LoadTableEntry(map[], ws, ws[i].projectName);
    assert r in RequirementsOf(ws, ws[i].projectName);
  }

  // ---------------------------------------------------------------------------
  // DependencyMap.depends: reachability in the requirement table

  /** `path` follows requirement edges of `t` from its first element on. */
  ghost predicate IsChain(t: Table, path: seq<string>) {
    forall i :: 0 <= i < |path| - 1 ==> path[i] in t && path[i + 1] in t[path[i]]
  }

  /** `q` can be reached from `p` along one or more requirement edges. */
  ghost predicate Reachable(t: Table, p: string, q: string) {
    exists path :: |path| >= 2 && path[0] == p && path[|path| - 1] == q && IsChain(t, path)
  }

  /** `rank` strictly decreases along every requirement edge of `t`. */
  ghost predicate Ranked(t: Table, rank: map<string, nat>) {
    forall p :: p in t ==> p in rank && forall n :: n in t[p] ==> n in rank && rank[n] < rank[p]
  }

  /** The requirement graph has no cycle: some ranking decreases along every
      edge. The recursion of `depends` terminates on such a graph. */
  ghost predicate Acyclic(t: Table) {
    exists rank :: Ranked(t, rank)
  }

  ghost function Rank(t: Table): map<string, nat>
    requires Acyclic(t)
  {
    var rank :| Ranked(t, rank); rank
  }

  /** The measure on which `depends` recurses. */
  ghost function Height(t: Table, p: string): nat
    requires Acyclic(t)
  {
    if p in t then 1 + Rank(t)[p] else 0
  }

  lemma HeightDecreases(t: Table, p: string, n: string)
    requires Acyclic(t) && p in t && n in t[p]
    ensures Height(t, n) < Height(t, p)
  {
    assert Ranked(t, Rank(t));
  }

  /** A direct requirement is a dependency. */
  lemma DirectRequirementReachable(t: Table, p: string, q: string)
    requires p in t && q in t[p]
    ensures Reachable(t, p, q)
  {
    assert IsChain(t, [p, q]);
  }

  /** A dependency of a direct requirement is a dependency. */
  lemma PrependReachable(t: Table, p: string, n: string, q: string)
    requires p in t && n in t[p] && Reachable(t, n, q)
    ensures Reachable(t, p, q)
  {
    var path :| |path| >= 2 && path[0] == n && path[|path| - 1] == q && IsChain(t, path);
    var longer := [p] + path;
    assert IsChain(t, longer) by {
      forall i | 0 <= i < |longer| - 1
        ensures longer[i] in t && longer[i + 1] in t[longer[i]]
      {
        if i > 0 {
          assert longer[i] == path[i - 1] && longer[i + 1] == path[i];
        }
      }
    }
  }

  /** The recursion of `depends` is exact: `q` is reachable from `p` if and
      only if it is a direct requirement of `p` or reachable from one. */
  lemma ReachableUnfold(t: Table, p: string, q: string)
    ensures Reachable(t, p, q) <==>
      p in t && (q in t[p] || exists n :: n in t[p] && Reachable(t, n, q))
  {
    if Reachable(t, p, q) {
      var path :| |path| >= 2 && path[0] == p && path[|path| - 1] == q && IsChain(t, path);
      if |path| > 2 {
        var rest := path[1..];
        assert IsChain(t, rest) by {
          forall i | 0 <= i < |rest| - 1
            ensures rest[i] in t && rest[i + 1] in t[rest[i]]
          {
            assert rest[i] == path[i + 1] && rest[i + 1] == path[i + 2];
          }
        }
        assert Reachable(t, path[1], q);
      }
    }
    if p in t && q in t[p] {
      DirectRequirementReachable(t, p, q);
    }
    if p in t && exists n :: n in t[p] && Reachable(t, n, q) {
      var n :| n in t[p] && Reachable(t, n, q);
      PrependReachable(t, p, n, q);
    }
  }

  /** `depends` is transitive. */
  lemma {:induction false} ReachableTransitive(t: Table, p: string, n: string, q: string)
    requires Reachable(t, p, n) && Reachable(t, n, q)
    ensures Reachable(t, p, q)
  {
    var left :| |left| >= 2 && left[0] == p && left[|left| - 1] == n && IsChain(t, left);
    var right :| |right| >= 2 && right[0] == n && right[|right| - 1] == q && IsChain(t, right);
    var path := left + right[1..];
    assert IsChain(t, path) by {
      forall i | 0 <= i < |path| - 1
        ensures path[i] in t && path[i + 1] in t[path[i]]
      {
        if i < |left| - 1 {
          assert path[i] == left[i] && path[i + 1] == left[i + 1];
        } else {
          var j := i - (|left| - 1);
          assert path[i] == right[j] && path[i + 1] == right[j + 1];
        }
      }
    }
    assert path[|path| - 1] == right[|right| - 1];
  }

  /** A project with no recorded requirements depends on nothing. */
  lemma NoRequirementsNoDependency(t: Table, p: string, q: string)
    requires p !in t
    ensures !Reachable(t, p, q)
  {
    ReachableUnfold(t, p, q);
  }

  lemma {:induction false} ChainDescends(t: Table, rank: map<string, nat>, path: seq<string>)
    requires Ranked(t, rank) && IsChain(t, path) && |path| >= 2
    ensures path[0] in rank && path[|path| - 1] in rank
    ensures rank[path[|path| - 1]] < rank[path[0]]
    decreases |path|
  {
    assert path[0] in t && path[1] in t[path[0]];
    if |path| > 2 {
      var rest := path[1..];
      assert IsChain(t, rest) by {
        forall i | 0 <= i < |rest| - 1
          ensures rest[i] in t && rest[i + 1] in t[rest[i]]
        {
          assert rest[i] == path[i + 1] && rest[i + 1] == path[i + 2];
        }
      }
      ChainDescends(t, rank, rest);
    }
  }

  /** On an acyclic requirement graph no project depends on itself. */
  lemma AcyclicNoSelfDependency(t: Table, p: string)
    requires Acyclic(t)
    ensures !Reachable(t, p, p)
  {
    if Reachable(t, p, p) {
      var path :| |path| >= 2 && path[0] == p && path[|path| - 1] == p && IsChain(t, path);
      ChainDescends(t, Rank(t), path);
    }
  }

  // ---------------------------------------------------------------------------
  // depends on a cyclic table

  /** The RecursionError CPython raises when its recursion limit is reached. */
  datatype RecursionError = RecursionError

  /** `depends(projectName, onProjectName)` as written, when the interpreter
      allows `limit` more nested calls: each call searches the requirements of
      its project and then recurses into each of them, in the set's
      iteration order. */
  ghost function DependsWithin(t: Table, p: string, q: string, limit: nat): Result<bool, RecursionError>
    decreases limit, 0
  {
    if limit == 0 then Failure(RecursionError)
    else if q in Get(t, p) then Success(true)
    else AnyDependsWithin(t, Get(t, p), q, limit - 1)
  }

  /** The loop `for n in dependent_project_names` of `depends`, over the
      requirements not yet tried. */
  ghost function AnyDependsWithin(t: Table, rest: set<string>, q: string, limit: nat): Result<bool, RecursionError>
    decreases limit, |rest| + 1
  {
    if rest == {} then Success(false)
    else
      var n := Pick(rest);
      match DependsWithin(t, n, q, limit)
      case Failure(e) => Failure(e)
      case Success(true) => Success(true)
      case Success(false) => AnyDependsWithin(t, rest - {n}, q, limit)
  }

  /** The requirement the loop tries next: some element of the set, the
      order of set iteration being left open. */
  ghost function Pick(rest: set<string>): (n: string)
    requires rest != {}
    ensures n in rest
  {
    var n :| n in rest; n
  }

  /** Wherever `depends` as written gives an answer, the answer is whether
      `q` is reachable from `p`, on every table, a cyclic one included. */
  lemma {:induction false} DependsWithinExact(t: Table, p: string, q: string, limit: nat)
    ensures DependsWithin(t, p, q, limit).Success? ==> DependsWithin(t, p, q, limit).value == Reachable(t, p, q)
    decreases limit, 0
  {
    ReachableUnfold(t, p, q);
    if limit > 0 && q !in Get(t, p) {
      AnyDependsWithinExact(t, Get(t, p), q, limit - 1);
    }
  }

  lemma {:induction false} AnyDependsWithinExact(t: Table, rest: set<string>, q: string, limit: nat)
    ensures AnyDependsWithin(t, rest, q, limit).Success? ==>
      (AnyDependsWithin(t, rest, q, limit).value <==> exists n :: n in rest && Reachable(t, n, q))
    decreases limit, |rest| + 1
  {
    if rest != {} {
      var n := Pick(rest);
      DependsWithinExact(t, n, q, limit);
      AnyDependsWithinExact(t, rest - {n}, q, limit);
      if exists m :: m in rest && Reachable(t, m, q) {
        var m :| m in rest && Reachable(t, m, q);
        if m != n {
          assert m in rest - {n};
        }
      }
    }
  }

  /** Two projects that require each other and nothing else. */
  function CycleTable(): Table {
    map["a" := {"b"}, "b" := {"a"}]
  }

  /** As written, `depends` on a cycle that does not reach the target ends in
      RecursionError, however high the recursion limit. */
  lemma {:induction false} CycleExhaustsRecursion(limit: nat)
    ensures DependsWithin(CycleTable(), "a", "morepath", limit) == Failure(RecursionError)
    ensures DependsWithin(CycleTable(), "b", "morepath", limit) == Failure(RecursionError)
  {
    if limit > 0 {
      CycleExhaustsRecursion(limit - 1);
      assert Get(CycleTable(), "a") == {"b"} && Get(CycleTable(), "b") == {"a"};
    }
  }

  /** Neither project of the cycle depends on `morepath`. */
  lemma CycleDoesNotReachMorepath()
    ensures !Reachable(CycleTable(), "a", "morepath") && !Reachable(CycleTable(), "b", "morepath")
  {
    var s := {"a", "b"};
    assert Get(CycleTable(), "a") == {"b"} && Get(CycleTable(), "b") == {"a"};
    ClosedUnreachable(CycleTable(), "a", "morepath", s);
    ClosedUnreachable(CycleTable(), "b", "morepath", s);
  }

  /** Every project named in the table, as a key or as a requirement. */
  ghost function Names(t: Table): set<string> {
    t.Keys + (set p, n | p in t && n in t[p] :: n)
  }

  lemma GetInNames(t: Table, p: string)
    ensures Get(t, p) <= Names(t)
  {
    forall n | n in Get(t, p)
      ensures n in Names(t)
    {
      assert p in t && n in t[p];
    }
  }

  lemma {:induction false} PathStaysIn(t: Table, p: string, s: set<string>, path: seq<string>, i: int)
    requires Get(t, p) <= s && forall v :: v in s ==> Get(t, v) <= s
    requires |path| >= 2 && path[0] == p && IsChain(t, path) && 1 <= i < |path|
    ensures path[i] in s
  {
    assert path[i - 1] in t && path[i] in t[path[i - 1]];
    if i > 1 {
      PathStaysIn(t, p, s, path, i - 1);
      assert path[i] in Get(t, path[i - 1]);
    }
  }

  /** A set holding the requirements of `p` and closed under requirements
      holds every dependency of `p`. */
  lemma ClosedUnreachable(t: Table, p: string, q: string, s: set<string>)
    requires Get(t, p) <= s && forall v :: v in s ==> Get(t, v) <= s
    requires q !in s
    ensures !Reachable(t, p, q)
  {
    forall path | |path| >= 2 && path[0] == p && IsChain(t, path)
      ensures path[|path| - 1] in s
    {
      PathStaysIn(t, p, s, path, |path| - 1);
    }
  }

  // ---------------------------------------------------------------------------
  // DependencyMap.relevant_dists: the working set filtered by `depends`

  /** The distributions of `ws` that depend on `q`, in working-set order. */
  ghost function DependentsOf(t: Table, ws: seq<Distribution>, q: string): seq<Distribution>
    decreases |ws|
  {
    if ws == [] then []
    else
      var front := DependentsOf(t, ws[..|ws| - 1], q);
      if Reachable(t, ws[|ws| - 1].projectName, q) then front + [ws[|ws| - 1]] else front
  }

  /** `a` is `b` with some elements left out and none reordered. */
  ghost predicate IsSubsequence<T>(a: seq<T>, b: seq<T>)
    decreases |b|
  {
    if a == [] then true
    else if b == [] then false
    else
      || (a[|a| - 1] == b[|b| - 1] && IsSubsequence(a[..|a| - 1], b[..|b| - 1]))
      || IsSubsequence(a, b[..|b| - 1])
  }

  /** `relevant_dists(q)` adds nothing and reorders nothing. */
  lemma {:induction false} DependentsOfSubsequence(t: Table, ws: seq<Distribution>, q: string)
    ensures IsSubsequence(DependentsOf(t, ws, q), ws)
    decreases |ws|
  {
    if ws != [] {
      var n := |ws| - 1;
      DependentsOfSubsequence(t, ws[..n], q);
      var r := DependentsOf(t, ws, q);
      var front := DependentsOf(t, ws[..n], q);
      assert ws[..|ws| - 1] == ws[..n];
      if Reachable(t, ws[n].projectName, q) {
        assert r == front + [ws[n]];
        assert r[..|r| - 1] == front && r[|r| - 1] == ws[n];
      } else {
        assert r == front;
        assert r == [] || IsSubsequence(r, ws[..|ws| - 1]);
      }
    }
  }

  /** `relevant_dists(q)` yields each distribution that depends on `q` as
      often as the working set holds it, and no other. */
  lemma {:induction false} DependentsOfCount(t: Table, ws: seq<Distribution>, q: string, x: Distribution)
    ensures multiset(DependentsOf(t, ws, q))[x] ==
      if Reachable(t, x.projectName, q) then multiset(ws)[x] else 0
    decreases |ws|
  {
    if ws != [] {
      var n := |ws| - 1;
      DependentsOfCount(t, ws[..n], q, x);
      assert ws == ws[..n] + [ws[n]];
      assert multiset(ws) == multiset(ws[..n]) + multiset{ws[n]};
    }
  }

  // ---------------------------------------------------------------------------
  // get_module_name and import_package

  /** `distribution.get_entry_map('morepath')`, or None for a distribution
      without `get_entry_map`; a missing group gives an empty map. */
  function MorepathEntryPoints(dist: Distribution): (r: Option<map<string, EntryPoint>>)
    ensures r.None? <==> dist.entryMap.None?
    ensures dist.entryMap.Some? && "morepath" in dist.entryMap.value ==> r == Some(dist.entryMap.value["morepath"])
    ensures dist.entryMap.Some? && "morepath" !in dist.entryMap.value ==> r == Some(map[])
  {
    match dist.entryMap
    case None => None
    case Some(groups) => Some(if "morepath" in groups then groups["morepath"] else map[])
  }

  /** The `scan` entry points of group `morepath`: none, or the one there is. */
  function ScanEntryPoints(dist: Distribution): set<EntryPoint> {
    match dist.entryMap
    case None => {}
    case Some(groups) =>
      if "morepath" in groups && "scan" in groups["morepath"] then {groups["morepath"]["scan"]} else {}
  }

  /** The module to import for a distribution: the module of its `scan`
      entry point in group `morepath`, otherwise its project name. */
  function GetModuleName(dist: Distribution): (name: string)
    ensures name == dist.projectName || exists ep :: ep in ScanEntryPoints(dist) && name == ep.moduleName
    ensures ScanEntryPoints(dist) == {} ==> name == dist.projectName
  {
    var entryPoints := MorepathEntryPoints(dist);
    if entryPoints.Some? && "scan" in entryPoints.value then entryPoints.value["scan"].moduleName
    else dist.projectName
  }

  /** The `scan` entry point of group `morepath` decides the module name. */
  lemma ScanEntryPointChosen(dist: Distribution, groups: map<string, map<string, EntryPoint>>)
    requires dist.entryMap == Some(groups) && "morepath" in groups && "scan" in groups["morepath"]
    ensures GetModuleName(dist) == groups["morepath"]["scan"].moduleName
  {
  }

  /** Without a `scan` entry point in group `morepath`, or without an entry
      map at all, the module name is the project name. */
  lemma ProjectNameByDefault(dist: Distribution)
    requires dist.entryMap.None? || "morepath" !in dist.entryMap.value ||
      "scan" !in dist.entryMap.value["morepath"]
    ensures GetModuleName(dist) == dist.projectName
  {
  }

  /** `import_package`: import the distribution's module; an import failure
      becomes an AutoImportError for the distribution's project name. The
      import machinery is the oracle `importer`, None for an ImportError. */
  function ImportPackage<M>(dist: Distribution, importer: string -> Option<M>): (r: Result<M, AutoImportError>)
    ensures r.Success? <==> importer(GetModuleName(dist)).Some?
    ensures r.Success? ==> importer(GetModuleName(dist)) == Some(r.value)
    ensures r.Failure? ==> r.error == AutoImportError(dist.projectName)
  {
    match importer(GetModuleName(dist))
    case Some(m) => Success(m)
    case None => Failure(AutoImportError(dist.projectName))
  }

  /** `k` is the first distribution of `dists` whose module cannot be imported. */
  ghost predicate FirstImportFailure<M>(dists: seq<Distribution>, importer: string -> Option<M>, k: int) {
    0 <= k < |dists| && importer(GetModuleName(dists[k])).None? &&
    forall j :: 0 <= j < k ==> importer(GetModuleName(dists[j])).Some?
  }

  /** Importing the distributions one after the other, stopping at the first
      AutoImportError, as iterating `morepath_packages()` does. */
  function ImportAll<M>(dists: seq<Distribution>, importer: string -> Option<M>): (r: Result<seq<M>, AutoImportError>)
    ensures r.Success? <==> forall k :: 0 <= k < |dists| ==> importer(GetModuleName(dists[k])).Some?
    ensures r.Success? ==> |r.value| == |dists|
    ensures r.Success? ==>
      forall k :: 0 <= k < |dists| ==> importer(GetModuleName(dists[k])) == Some(r.value[k])
    ensures r.Failure? ==>
      exists k :: FirstImportFailure(dists, importer, k) && r.error == AutoImportError(dists[k].projectName)
    decreases |dists|
  {
    if dists == [] then Success([])
    else
      var n := |dists| - 1;
      var front := ImportAll(dists[..n], importer);
      assert forall k :: 0 <= k < n ==> dists[..n][k] == dists[k];
      match front
      case Failure(e) => Failure(e)
      case Success(ms) =>
        match ImportPackage(dists[n], importer)
        case Failure(e) => Failure(e)
        case Success(m) => Success(ms + [m])
  }

  /** The first import failure after a run of successful imports is the
      error of the whole iteration. */
  lemma ImportAllStopsAtFailure<M>(dists: seq<Distribution>, importer: string -> Option<M>, i: int)
    requires 0 <= i < |dists| && ImportAll(dists[..i], importer).Success?
    requires importer(GetModuleName(dists[i])).None?
    ensures ImportAll(dists, importer) == Failure(AutoImportError(dists[i].projectName))
  {
    forall j | 0 <= j < i
      ensures importer(GetModuleName(dists[j])).Some?
    {
      assert dists[..i][j] == dists[j];
    }
    assert FirstImportFailure(dists, importer, i);
    var r := ImportAll(dists, importer);
    var k :| FirstImportFailure(dists, importer, k) && r.error == AutoImportError(dists[k].projectName);
    assert k == i;
  }

  // ---------------------------------------------------------------------------
  // autoconfig

  /** The ignore list `autoconfig` scans with: `.test` and `.tests` when none
      is given; a given list, even an empty one, is used unchanged. */
  function EffectiveIgnore(ignore: Option<seq<string>>): (r: seq<string>)
    ensures ignore.None? ==> r == [".test", ".tests"]
    ensures ignore.Some? ==> r == ignore.value
  {
    match ignore
    case None => [] + [".test", ".tests"]
    case Some(given) => given
  }

  /** `DependencyMap`: the requirement table `_d` and the distribution table
      `_dists`, filled by `load` from the working set. */
  class DependencyMap {
    var d: Table
    var dists: map<string, Distribution>

    constructor ()
      ensures d == map[] && dists == map[]
    {
      d := map[];
      dists := map[];
    }

    /** `load`: record every distribution under its project name and add
        each of its requirements to the entry for that name. */
    method Load(ws: seq<Distribution>)
      modifies this
      ensures d == LoadTable(old(d), ws)
      ensures dists == Register(old(dists), ws)
    {
      for i := 0 to |ws|
        invariant d == LoadTable(old(d), ws[..i])
        invariant dists == Register(old(dists), ws[..i])
      {
        var dist := ws[i];
        assert ws[..i + 1][..i] == ws[..i] && ws[..i + 1][i] == dist;
        dists := dists[dist.projectName := dist];
        ghost var before, registered := d, dists;
        for j := 0 to |dist.requirements|
          invariant dists == registered
          invariant d == if j == 0 then before
            else before[dist.projectName := Get(before, dist.projectName) + Elements(dist.requirements[..j])]
        {
          var r := dist.requirements[j];
          assert dist.requirements[..j + 1] == dist.requirements[..j] + [r];
          ElementsSnoc(dist.requirements[..j], r);
          assert Elements(dist.requirements[..j + 1]) == Elements(dist.requirements[..j]) + {r};
          ghost var grown := Get(before, dist.projectName) + Elements(dist.requirements[..j + 1]);
          if j == 0 {
            assert Elements(dist.requirements[..j]) == {};
            assert Get(d, dist.projectName) + {r} == grown;
          } else {
            assert Get(d, dist.projectName) == Get(before, dist.projectName) + Elements(dist.requirements[..j]);
            assert Get(d, dist.projectName) + {r} == grown;
          }
          d := d[dist.projectName := Get(d, dist.projectName) + {r}];
          assert d == before[dist.projectName := grown];
        }
        assert dist.requirements[..|dist.requirements|] == dist.requirements;
      }
      assert ws[..|ws|] == ws;
    }

    /** `depends(projectName, onProjectName)`: search the requirements of
        `projectName`, then recursively the requirements of each of them. */
    method Depends(projectName: string, onProjectName: string) returns (b: bool)
      requires Acyclic(d)
      ensures b == Reachable(d, projectName, onProjectName)
      decreases Height(d, projectName)
    {
      var dependents := Get(d, projectName);
      if onProjectName in dependents {
        DirectRequirementReachable(d, projectName, onProjectName);
        return true;
      }
      var rest := dependents;
      while rest != {}
        invariant rest <= dependents
        invariant forall n :: n in dependents - rest ==> !Reachable(d, n, onProjectName)
        decreases rest
      {
        var n :| n in rest;
        HeightDecreases(d, projectName, n);
        var found := Depends(n, onProjectName);
        if found {
          PrependReachable(d, projectName, n, onProjectName);
          return true;
        }
        rest := rest - {n};
      }
      ReachableUnfold(d, projectName, onProjectName);
      return false;
    }

    /** `depends` as intended: the same search, remembering the projects
        already searched, so that it ends on every table, a cyclic one
        included. */
    method DependsSeen(projectName: string, onProjectName: string) returns (b: bool)
      ensures b == Reachable(d, projectName, onProjectName)
    {
      ghost var names := Names(d);
      var visited: set<string> := {};
      var todo := Get(d, projectName);
      GetInNames(d, projectName);
      forall n | n in todo
        ensures Reachable(d, projectName, n)
      {
        DirectRequirementReachable(d, projectName, n);
      }
      while todo != {}
        invariant todo <= names && visited <= names
        invariant forall n :: n in todo + visited ==> Reachable(d, projectName, n)
        invariant onProjectName !in visited
        invariant Get(d, projectName) <= todo + visited
        invariant forall v :: v in visited ==> Get(d, v) <= todo + visited
        decreases names - visited, todo
      {
        var n :| n in todo;
        if n == onProjectName {
          return true;
        }
        todo := todo - {n};
        if n !in visited {
          GetInNames(d, n);
          forall m | m in Get(d, n)
            ensures Reachable(d, projectName, m)
          {
            DirectRequirementReachable(d, n, m);
            ReachableTransitive(d, projectName, n, m);
          }
          visited := visited + {n};
          todo := todo + (Get(d, n) - visited);
        }
      }
      ClosedUnreachable(d, projectName, onProjectName, visited);
      return false;
    }

    /** `relevant_dists(onProjectName)`: the distributions of the working set
        that depend on `onProjectName`, in order. It asks the corrected
        `DependsSeen`, which agrees with `depends` wherever the latter ends. */
    method RelevantDists(ws: seq<Distribution>, onProjectName: string) returns (r: seq<Distribution>)
      ensures r == DependentsOf(d, ws, onProjectName)
    {
      r := [];
      for i := 0 to |ws|
        invariant r == DependentsOf(d, ws[..i], onProjectName)
      {
        assert ws[..i + 1][..i] == ws[..i];
        var relevant := DependsSeen(ws[i].projectName, onProjectName);
        if relevant {
          r := r + [ws[i]];
        }
      }
      assert ws[..|ws|] == ws;
    }
  }

  /** What iterating `morepath_packages()` over the working set `ws` gives:
      the imported modules, or the first AutoImportError. */
  ghost function MorepathModules<M>(ws: seq<Distribution>, importer: string -> Option<M>): Result<seq<M>, AutoImportError> {
    ImportAll(DependentsOf(RequirementTable(ws), ws, "morepath"), importer)
  }

  /** `morepath_packages()`: load a DependencyMap from the working set and
      import the module of every distribution that depends on `morepath`,
      in working-set order, stopping at the first import failure. */
  method MorepathPackages<M>(ws: seq<Distribution>, importer: string -> Option<M>)
    returns (r: Result<seq<M>, AutoImportError>)
    ensures r == MorepathModules(ws, importer)
  {
    var m := new DependencyMap();
    m.Load(ws);
    var relevant := m.RelevantDists(ws, "morepath");
    var modules: seq<M> := [];
    for i := 0 to |relevant|
      invariant ImportAll(relevant[..i], importer) == Success(modules)
    {
      assert relevant[..i + 1][..i] == relevant[..i];
      var imported := ImportPackage(relevant[i], importer);
      if imported.Failure? {
        ImportAllStopsAtFailure(relevant, importer, i);
        return Failure(imported.error);
      }
      modules := modules + [imported.value];
    }
    assert relevant[..|relevant|] == relevant;
    return Success(modules);
  }

  /** The scan calls made for the outcome of `morepath_packages()`: one per
      package, in order, each with the same ignore list; an AutoImportError
      is passed on. */
  function ScanAll<M>(packages: Result<seq<M>, AutoImportError>, ignore: seq<string>): (r: Result<seq<ScanCall<M>>, AutoImportError>)
    ensures packages.Failure? ==> r == Failure(packages.error)
    ensures packages.Success? ==> r.Success? && |r.value| == |packages.value|
    ensures packages.Success? ==>
      forall k :: 0 <= k < |packages.value| ==>
        r.Success? && k < |r.value| && r.value[k] == ScanCall(packages.value[k], ignore)
  {
    match packages
    case Failure(e) => Failure(e)
    case Success(ms) => Success(seq(|ms|, k requires 0 <= k < |ms| => ScanCall(ms[k], ignore)))
  }

  /** The loop of `autoconfig`: `c.scan(package, ignore)` for each package. */
  method ScanPackages<M>(packages: seq<M>, ignore: seq<string>) returns (scans: seq<ScanCall<M>>)
    ensures Success(scans) == ScanAll(Success(packages), ignore)
  {
    scans := [];
    for i := 0 to |packages|
      invariant |scans| == i
      invariant forall k :: 0 <= k < i ==> scans[k] == ScanCall(packages[k], ignore)
    {
      scans := scans + [ScanCall(packages[i], ignore)];
    }
    assert scans == ScanAll(Success(packages), ignore).value;
  }

  /** `autoconfig(ignore)`: scan every package `morepath_packages()` yields,
      in order, with the effective ignore list. An AutoImportError ends the
      call and the configuration built so far is lost with it. */
  method AutoConfig<M>(ignore: Option<seq<string>>, ws: seq<Distribution>, importer: string -> Option<M>)
    returns (r: Result<seq<ScanCall<M>>, AutoImportError>)
    ensures r == ScanAll(MorepathModules(ws, importer), EffectiveIgnore(ignore))
  {
    var effective := EffectiveIgnore(ignore);
    var packages := MorepathPackages(ws, importer);
    if packages.Failure? {
      return Failure(packages.error);
    }
    var scans := ScanPackages(packages.value, effective);
    return Success(scans);
  }

  // ---------------------------------------------------------------------------
  // The entry-point fixture package

  /** fixture_packages/entry-point/setup.py as written: its entry point in
      group `morepath` is named `autoimport`. */
  function EntryPointFixture(): Distribution {
    Distribution("entry-point", ["setuptools", "morepath"],
      Some(map["morepath" := map["autoimport" := EntryPoint("entrypoint", [])]]))
  }

  /** As written, the fixture's module name falls back to its project name,
      `entry-point`, which is not the importable module `entrypoint`. */
  lemma EntryPointFixtureIgnoresEntryPoint()
    ensures GetModuleName(EntryPointFixture()) == "entry-point"
    ensures GetModuleName(EntryPointFixture()) != "entrypoint"
  {
  }

  /** As written, importing the fixture fails: no module named `entry-point` is
      installed, so `import_package` raises AutoImportError where
      the module `entrypoint` was expected. */
  lemma EntryPointFixtureImportFails<M>(importer: string -> Option<M>)
    requires importer("entry-point").None?
    ensures ImportPackage(EntryPointFixture(), importer) == Failure(AutoImportError("entry-point"))
  {
    EntryPointFixtureIgnoresEntryPoint();
  }

  /** The fixture with its entry point named `scan`, as `get_module_name`
      reads it. */
  function ScanEntryPointFixture(): Distribution {
    Distribution("entry-point", ["setuptools", "morepath"],
      Some(map["morepath" := map["scan" := EntryPoint("entrypoint", [])]]))
  }

  /** With a `scan` entry point the fixture resolves to module `entrypoint`. */
  lemma ScanEntryPointFixtureModule()
    ensures GetModuleName(ScanEntryPointFixture()) == "entrypoint"
  {
  }

  /** With a `scan` entry point the fixture imports the module `entrypoint`. */
  lemma ScanEntryPointFixtureImports<M>(importer: string -> Option<M>, m: M)
    requires importer("entrypoint") == Some(m)
    ensures ImportPackage(ScanEntryPointFixture(), importer) == Success(m)
  {
    ScanEntryPointFixtureModule();
  }

  /** fixture_packages/ns2/setup.py as written: a distribution `ns2` with no
      entry points; the test imports its module as `ns.real2`. */
  function Ns2Fixture(): Distribution {
    Distribution("ns2", ["setuptools", "morepath"], Some(map[]))
  }

  /** As written, the module name of `ns2` is its project name, and importing
      it raises AutoImportError where the module `ns.real2` was expected. */
  lemma Ns2FixtureImportFails<M>(importer: string -> Option<M>)
    requires importer("ns2").None?
    ensures GetModuleName(Ns2Fixture()) == "ns2"
    ensures ImportPackage(Ns2Fixture(), importer) == Failure(AutoImportError("ns2"))
  {
  }

  /** The fixture with a `scan` entry point naming its module. */
  function Ns2ScanFixture(): Distribution {
    Distribution("ns2", ["setuptools", "morepath"], Some(map["morepath" := map["scan" := EntryPoint("ns.real2", [])]]))
  }

  /** With a `scan` entry point, importing `ns2` gives the module `ns.real2`. */
  lemma Ns2ScanFixtureImports<M>(importer: string -> Option<M>, m: M)
    requires importer("ns.real2") == Some(m)
    ensures ImportPackage(Ns2ScanFixture(), importer) == Success(m)
  {
  }
}
