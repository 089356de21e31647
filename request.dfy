/** Links and views across applications (morepath/request.py): following
    deferred applications, climbing the chain of mounted applications to build
    a path, assembling the URL, calling a view inside another application, and
    the callbacks run after a request. */
module Request {
  import opened Wrappers

  /** The query parameters of a link. */
  type Params = map<string, string>

  /** A callable registered with `after`, by identity. */
  type Callback = nat

  /** An application instance: its identity, its class, the lookup its
      generic functions dispatch on, and the application it is mounted in.
      The mount chain is finite because an application is mounted in an
      existing one. */
  datatype App = App(id: nat, cls: nat, lookup: nat, parent: Option<App>)

  /** What `generic.path` is asked for: a model instance, or a mounted
      application within its parent. */
  datatype Target<O> = ModelTarget(model: O) | AppTarget(app: App)

  /** The path and the query parameters `generic.path` gives. */
  datatype PathInfo = PathInfo(path: string, params: Params)

  /** The causes of a LinkError. */
  datatype LinkError = AppIsNone | CannotLinkTo | CircularDefer

  /** The `app` argument of `link` and `view`: SAME_APP, None, or an app. */
  datatype AppChoice = SameApp | NoApp | UseApp(app: App)

  /** What `view` can raise: a LinkError, or whatever the view raised. */
  datatype ViewError<E> = ViewLinkError(error: LinkError) | Raised(exception: E)

  // ---------------------------------------------------------------------------
  // _follow_defers

  /** The `k`-th application of the chain that starts at `start` and goes on
      by `step`; None once the chain has ended. */
  ghost function ChainAt(step: App -> Option<App>, start: Option<App>, k: nat): Option<App> {
    if k == 0 then start
    else match ChainAt(step, start, k - 1)
      case None => None
      case Some(a) => step(a)
  }

  /** `apps` holds every application `step` leads to from one in `apps`. */
  ghost predicate Closed(step: App -> Option<App>, apps: set<App>) {
    forall a :: a in apps && step(a).Some? ==> step(a).value in apps
  }

  /** The first `k` applications of the deferral chain exist and find nothing. */
  ghost predicate Misses<R>(find: App -> Option<R>, deferred: App -> Option<App>, start: Option<App>, k: nat) {
    forall j :: 0 <= j < k ==> ChainAt(deferred, start, j).Some? && find(ChainAt(deferred, start, j).value).None?
  }

  /** The first `k` entries of the deferral chain are pairwise different. */
  ghost predicate Distinct(deferred: App -> Option<App>, start: Option<App>, k: nat) {
    forall i, j :: 0 <= i < j < k ==> ChainAt(deferred, start, i) != ChainAt(deferred, start, j)
  }

  /** `seen` holds exactly the first `k` applications of the deferral chain. */
  ghost predicate SeenBefore(deferred: App -> Option<App>, start: Option<App>, k: nat, seen: set<App>) {
    forall a :: a in seen <==> exists j :: 0 <= j < k && ChainAt(deferred, start, j) == Some(a)
  }

  /** The outcome `r` is where the deferral chain stops after its first `k`
      applications, all different and finding nothing: a result `(x, a)`
      says the `k`-th application `a` finds `x`; `(None, None)` says the chain
      has ended; a LinkError says the `k`-th application came back. */
  ghost predicate StopsAt<R>(find: App -> Option<R>, deferred: App -> Option<App>, start: Option<App>,
                             r: Result<Option<(R, App)>, LinkError>, k: nat) {
    Misses(find, deferred, start, k) && Distinct(deferred, start, k) &&
    match r
    case Success(Some((x, a))) =>
      Distinct(deferred, start, k + 1) && ChainAt(deferred, start, k) == Some(a) && find(a) == Some(x)
    case Success(None) =>
      ChainAt(deferred, start, k) == None
    case Failure(e) =>
      e == CircularDefer && exists j :: 0 <= j < k && ChainAt(deferred, start, j) == ChainAt(deferred, start, k)
  }

  /** What `_follow_defers` promises: its outcome is where the deferral chain
      stops. */
  ghost predicate DeferOutcome<R>(find: App -> Option<R>, deferred: App -> Option<App>, start: Option<App>,
                                  r: Result<Option<(R, App)>, LinkError>) {
    exists k: nat :: StopsAt(find, deferred, start, r, k)
  }

  /** The loop of `_follow_defers`, from application `app` with the set
      `seen` of applications already tried. `apps` is the finite set of all
      application instances. */
  ghost function Follow<R>(find: App -> Option<R>, deferred: App -> Option<App>, app: Option<App>,
                           seen: set<App>, apps: set<App>): Result<Option<(R, App)>, LinkError>
    requires seen <= apps && Closed(deferred, apps) && (app.Some? ==> app.value in apps)
    decreases apps - seen
  {
    match app
    case None => Success(None)
    case Some(a) =>
      if a in seen then Failure(CircularDefer)
      else match find(a)
        case Some(x) => Success(Some((x, a)))
        case None => Follow(find, deferred, deferred(a), seen + {a}, apps)
  }

  lemma {:induction false} ChainInApps(deferred: App -> Option<App>, start: Option<App>, apps: set<App>, k: nat)
    requires Closed(deferred, apps) && (start.Some? ==> start.value in apps)
    ensures ChainAt(deferred, start, k).Some? ==> ChainAt(deferred, start, k).value in apps
  {
    if k > 0 {
      ChainInApps(deferred, start, apps, k - 1);
    }
  }

  /** One more application of the chain, different from those seen, keeps
      the chain free of repeats. */
  lemma DistinctExtend(deferred: App -> Option<App>, start: Option<App>, k: nat, seen: set<App>, a: App)
    requires Distinct(deferred, start, k) && SeenBefore(deferred, start, k, seen)
    requires ChainAt(deferred, start, k) == Some(a) && a !in seen
    ensures Distinct(deferred, start, k + 1)
  {
    forall i, j | 0 <= i < j < k + 1
      ensures ChainAt(deferred, start, i) != ChainAt(deferred, start, j)
    {
      if j == k && ChainAt(deferred, start, i).Some? {
        assert ChainAt(deferred, start, i).value in seen;
      }
    }
  }

  /** Adding the `k`-th application to `seen` keeps it the set of those tried. */
  lemma SeenExtend(deferred: App -> Option<App>, start: Option<App>, k: nat, seen: set<App>, a: App)
    requires SeenBefore(deferred, start, k, seen) && ChainAt(deferred, start, k) == Some(a)
    ensures SeenBefore(deferred, start, k + 1, seen + {a})
  {
    forall b | b in seen + {a}
      ensures exists j :: 0 <= j < k + 1 && ChainAt(deferred, start, j) == Some(b)
    {
      if b == a {
        assert ChainAt(deferred, start, k) == Some(b);
      } else {
        var j :| 0 <= j < k && ChainAt(deferred, start, j) == Some(b);
        assert 0 <= j < k + 1;
      }
    }
    forall b, j | 0 <= j < k + 1 && ChainAt(deferred, start, j) == Some(b)
      ensures b in seen + {a}
    {
      if j < k {
        assert b in seen;
      }
    }
  }

  /** The chain ends after `k` applications that found nothing. */
  lemma EndOutcome<R>(find: App -> Option<R>, deferred: App -> Option<App>, start: Option<App>, k: nat)
    requires Misses(find, deferred, start, k) && Distinct(deferred, start, k) && ChainAt(deferred, start, k) == None
    ensures DeferOutcome(find, deferred, start, Success(None))
  {
    assert StopsAt(find, deferred, start, Success(None), k);
  }

  /** The `k`-th application finds `x` after `k` that found nothing. */
  lemma FoundOutcome<R>(find: App -> Option<R>, deferred: App -> Option<App>, start: Option<App>, k: nat, a: App, x: R)
    requires Misses(find, deferred, start, k) && Distinct(deferred, start, k + 1)
    requires ChainAt(deferred, start, k) == Some(a) && find(a) == Some(x)
    ensures DeferOutcome(find, deferred, start, Success(Some((x, a))))
  {
    assert StopsAt(find, deferred, start, Success(Some((x, a))), k);
  }

  /** The `k`-th application is one tried before. */
  lemma CircularOutcome<R>(find: App -> Option<R>, deferred: App -> Option<App>, start: Option<App>, k: nat, j: nat)
    requires Misses(find, deferred, start, k) && Distinct(deferred, start, k)
    requires j < k && ChainAt(deferred, start, j) == ChainAt(deferred, start, k)
    ensures DeferOutcome(find, deferred, start, Failure(CircularDefer))
  {
    assert StopsAt(find, deferred, start, Failure(CircularDefer), k);
  }

  /** Where the loop stops at the `k`-th application, its outcome meets the
      promise of `_follow_defers`. */
  lemma FollowStops<R>(find: App -> Option<R>, deferred: App -> Option<App>, start: Option<App>,
                       apps: set<App>, k: nat, seen: set<App>)
    requires Closed(deferred, apps) && seen <= apps
    requires ChainAt(deferred, start, k).Some? ==> ChainAt(deferred, start, k).value in apps
    requires Misses(find, deferred, start, k) && Distinct(deferred, start, k)
    requires SeenBefore(deferred, start, k, seen)
    requires ChainAt(deferred, start, k).Some? && ChainAt(deferred, start, k).value !in seen ==>
      find(ChainAt(deferred, start, k).value).Some?
    ensures DeferOutcome(find, deferred, start, Follow(find, deferred, ChainAt(deferred, start, k), seen, apps))
  {
    var app := ChainAt(deferred, start, k);
    if app.None? {
      assert Follow(find, deferred, app, seen, apps) == Success(None);
      EndOutcome(find, deferred, start, k);
    } else {
      var a := app.value;
      if a in seen {
        assert Follow(find, deferred, app, seen, apps) == Failure(CircularDefer);
        var j :| 0 <= j < k && ChainAt(deferred, start, j) == Some(a);
        CircularOutcome(find, deferred, start, k, j);
      } else {
        DistinctExtend(deferred, start, k, seen, a);
        assert Follow(find, deferred, app, seen, apps) == Success(Some((find(a).value, a)));
        FoundOutcome(find, deferred, start, k, a, find(a).value);
      }
    }
  }

  /** Where the loop goes on past the `k`-th application, the next round
      starts from the next application, with one more tried. */
  lemma FollowAdvance<R>(find: App -> Option<R>, deferred: App -> Option<App>, start: Option<App>,
                         apps: set<App>, k: nat, seen: set<App>, a: App)
    requires Closed(deferred, apps) && seen <= apps && a in apps
    requires Misses(find, deferred, start, k) && Distinct(deferred, start, k)
    requires SeenBefore(deferred, start, k, seen)
    requires ChainAt(deferred, start, k) == Some(a) && a !in seen && find(a).None?
    ensures Misses(find, deferred, start, k + 1) && Distinct(deferred, start, k + 1)
    ensures SeenBefore(deferred, start, k + 1, seen + {a}) && ChainAt(deferred, start, k + 1) == deferred(a)
    ensures Follow(find, deferred, Some(a), seen, apps) == Follow(find, deferred, deferred(a), seen + {a}, apps)
  {
    DistinctExtend(deferred, start, k, seen, a);
    SeenExtend(deferred, start, k, seen, a);
  }

  /** From the `k`-th application of the chain, with the first `k` tried in
      `seen` and none of them finding anything, the loop meets the promise of
      `_follow_defers`. */
  lemma {:induction false} FollowFrom<R>(find: App -> Option<R>, deferred: App -> Option<App>, start: Option<App>,
                                         apps: set<App>, k: nat, seen: set<App>)
    requires Closed(deferred, apps) && seen <= apps && (start.Some? ==> start.value in apps)
    requires Misses(find, deferred, start, k) && Distinct(deferred, start, k)
    requires SeenBefore(deferred, start, k, seen)
    ensures ChainAt(deferred, start, k).Some? ==> ChainAt(deferred, start, k).value in apps
    ensures DeferOutcome(find, deferred, start, Follow(find, deferred, ChainAt(deferred, start, k), seen, apps))
    decreases apps - seen
  {
    ChainInApps(deferred, start, apps, k);
    var app := ChainAt(deferred, start, k);
    if app.Some? && app.value !in seen && find(app.value).None? {
      var a := app.value;
      FollowAdvance(find, deferred, start, apps, k, seen, a);
      FollowFrom(find, deferred, start, apps, k + 1, seen + {a});
    } else {
      FollowStops(find, deferred, start, apps, k, seen);
    }
  }

  /** `_follow_defers` meets its promise on every input. */
  lemma FollowMeetsOutcome<R>(find: App -> Option<R>, deferred: App -> Option<App>, start: Option<App>, apps: set<App>)
    requires Closed(deferred, apps) && (start.Some? ==> start.value in apps)
    ensures DeferOutcome(find, deferred, start, Follow(find, deferred, start, {}, apps))
  {
    FollowFrom(find, deferred, start, apps, 0, {});
  }

  /** An application that defers to itself without finding anything is a
      circular defer. */
  lemma SelfDeferIsCircular<R>(find: App -> Option<R>, deferred: App -> Option<App>, a: App, apps: set<App>)
    requires Closed(deferred, apps) && a in apps
    requires find(a).None? && deferred(a) == Some(a)
    ensures Follow(find, deferred, Some(a), {}, apps) == Failure(CircularDefer)
  {
    assert Follow(find, deferred, Some(a), {}, apps) == Follow(find, deferred, Some(a), {a}, apps);
  }

  /** The promise of `_follow_defers` leaves no choice: two outcomes that
      both meet it are the same. */
  lemma DeferOutcomeDeterministic<R>(find: App -> Option<R>, deferred: App -> Option<App>, start: Option<App>,
                                     r1: Result<Option<(R, App)>, LinkError>, r2: Result<Option<(R, App)>, LinkError>)
    requires DeferOutcome(find, deferred, start, r1) && DeferOutcome(find, deferred, start, r2)
    ensures r1 == r2
  {
    var k1: nat :| StopsAt(find, deferred, start, r1, k1);
    var k2: nat :| StopsAt(find, deferred, start, r2, k2);
    if k1 < k2 {
      assert false;
    } else if k2 < k1 {
      assert false;
    }
  }

  /** `_follow_defers(find, app, obj)`: try `find` on `app`, then on the app
      each deferral leads to, until something is found, the chain ends, or an
      application comes back. */
  method FollowDefers<R>(find: App -> Option<R>, deferred: App -> Option<App>, start: Option<App>, ghost apps: set<App>)
    returns (r: Result<Option<(R, App)>, LinkError>)
    requires Closed(deferred, apps) && (start.Some? ==> start.value in apps)
    ensures r == Follow(find, deferred, start, {}, apps)
    ensures DeferOutcome(find, deferred, start, r)
  {
    FollowMeetsOutcome(find, deferred, start, apps);
    var seen: set<App> := {};
    var app := start;
    while app.Some?
      invariant seen <= apps && (app.Some? ==> app.value in apps)
      invariant Follow(find, deferred, app, seen, apps) == Follow(find, deferred, start, {}, apps)
      decreases apps - seen
    {
      var a := app.value;
      if a in seen {
        return Failure(CircularDefer);
      }
      var result := find(a);
      if result.Some? {
        return Success(Some((result.value, a)));
      }
      seen := seen + {a};
      app := deferred(a);
    }
    return Success(None);
  }

  // ---------------------------------------------------------------------------
  // String helpers of link

  /** `s` reversed, as `list.reverse()` leaves it. */
  function Reverse<T>(s: seq<T>): (r: seq<T>)
    ensures |r| == |s|
    ensures forall k :: 0 <= k < |s| ==> r[k] == s[|s| - 1 - k]
  {
    if s == [] then [] else [s[|s| - 1]] + Reverse(s[..|s| - 1])
  }

  /** `'/'.join(parts)`. */
  function JoinSlash(parts: seq<string>): string {
    if |parts| == 0 then ""
    else if |parts| == 1 then parts[0]
    else parts[0] + "/" + JoinSlash(parts[1..])
  }

  /** Every character of `s` is a slash. */
  ghost predicate AllSlashes(s: string) {
    forall k :: 0 <= k < |s| ==> s[k] == '/'
  }

  /** `s.lstrip('/')`. */
  function StripLeading(s: string): (r: string)
    ensures |r| <= |s| && r == s[|s| - |r|..]
    ensures AllSlashes(s[..|s| - |r|])
    ensures r == [] || r[0] != '/'
  {
    if |s| > 0 && s[0] == '/' then StripLeading(s[1..]) else s
  }

  /** `s.rstrip('/')`. */
  function StripTrailing(s: string): (r: string)
    ensures |r| <= |s| && r == s[..|r|]
    ensures AllSlashes(s[|r|..])
    ensures r == [] || r[|r| - 1] != '/'
  {
    if |s| > 0 && s[|s| - 1] == '/' then StripTrailing(s[..|s| - 1]) else s
  }

  /** `s.strip('/')`: `s` without the slashes at either end. */
  function StripSlashes(s: string): (r: string)
    ensures r == [] || (r[0] != '/' && r[|r| - 1] != '/')
    ensures exists i :: StrippedAt(s, r, i)
  {
    var inner := StripLeading(s);
    var r := StripTrailing(inner);
    StripBoth(s, inner, r);
    r
  }

  /** Stripping the start and then the end leaves a middle part of `s`. */
  lemma StripBoth(s: string, inner: string, r: string)
    requires |inner| <= |s| && inner == s[|s| - |inner|..] && AllSlashes(s[..|s| - |inner|])
    requires |r| <= |inner| && r == inner[..|r|] && AllSlashes(inner[|r|..])
    ensures StrippedAt(s, r, |s| - |inner|)
  {
    var i := |s| - |inner|;
    assert s[i..][..|r|] == s[i..i + |r|];
    assert s[i + |r|..] == inner[|r|..];
  }

  /** `r` is `s[i..]` up to `|r|` characters, with only slashes around it. */
  ghost predicate StrippedAt(s: string, r: string, i: int) {
    0 <= i <= i + |r| <= |s| && r == s[i..i + |r|] && AllSlashes(s[..i]) && AllSlashes(s[i + |r|..])
  }

  // ---------------------------------------------------------------------------
  // The module-level link

  /** The (model, application) pairs the loop of `link` visits, innermost
      first: the model in `app`, then `app` in its parent, and so on up to
      the root application. */
  function Levels<O>(target: Target<O>, app: Option<App>): seq<(Target<O>, App)>
    decreases app
  {
    match app
    case None => []
    case Some(a) => [(target, a)] + Levels(AppTarget(a), a.parent)
  }

  /** The levels climb the mount chain: each level after the first is the
      previous application within its parent, and the last is a root. */
  lemma {:induction false} LevelsClimb<O>(target: Target<O>, app: Option<App>, k: nat)
    requires k < |Levels(target, app)|
    ensures app.Some? && Levels(target, app)[0] == (target, app.value)
    ensures k + 1 < |Levels(target, app)| ==>
      Levels(target, app)[k].1.parent.Some? &&
      Levels(target, app)[k + 1] == (AppTarget(Levels(target, app)[k].1), Levels(target, app)[k].1.parent.value)
    ensures k + 1 == |Levels(target, app)| ==> Levels(target, app)[k].1.parent.None?
    decreases app
  {
    var a := app.value;
    if k > 0 {
      LevelsClimb<O>(AppTarget(a), a.parent, k - 1);
    } else if 1 < |Levels(target, app)| {
      LevelsClimb<O>(AppTarget(a), a.parent, 0);
    }
  }

  /** The paths of `infos`, in the same order. */
  function Paths(infos: seq<PathInfo>): seq<string> {
    seq(|infos|, k requires 0 <= k < |infos| => infos[k].path)
  }

  /** The parameters after `parameters.update(params)` for each level in turn. */
  function MergeParams(infos: seq<PathInfo>): Params
    decreases |infos|
  {
    if infos == [] then map[] else MergeParams(infos[..|infos| - 1]) + infos[|infos| - 1].params
  }

  /** `k` is the last level whose parameters hold `key`. */
  ghost predicate LastWithKey(infos: seq<PathInfo>, key: string, k: int) {
    0 <= k < |infos| && key in infos[k].params &&
    forall j :: k < j < |infos| ==> key !in infos[j].params
  }

  /** The merged parameters hold exactly the keys given at some level. */
  lemma {:induction false} MergeParamsKeys(infos: seq<PathInfo>, key: string)
    ensures key in MergeParams(infos) <==> exists k :: 0 <= k < |infos| && key in infos[k].params
    decreases |infos|
  {
    if infos != [] {
      var n := |infos| - 1;
      MergeParamsKeys(infos[..n], key);
      if exists k :: 0 <= k < n && key in infos[..n][k].params {
        var k :| 0 <= k < n && key in infos[..n][k].params;
        assert infos[k] == infos[..n][k];
      }
      if exists k :: 0 <= k < |infos| && key in infos[k].params {
        var k :| 0 <= k < |infos| && key in infos[k].params;
        if k < n {
          assert infos[..n][k] == infos[k];
        }
      }
    }
  }

  /** For a key given at several levels, the outermost of them wins. */
  lemma {:induction false} MergeParamsOuterWins(infos: seq<PathInfo>, key: string, k: int)
    requires LastWithKey(infos, key, k)
    ensures key in MergeParams(infos) && MergeParams(infos)[key] == infos[k].params[key]
    decreases |infos|
  {
    var n := |infos| - 1;
    if k < n {
      assert LastWithKey(infos[..n], key, k);
      MergeParamsOuterWins(infos[..n], key, k);
    }
  }

  /** The path info of a level, or an empty one where there is none. */
  function InfoOrEmpty(info: Option<PathInfo>): PathInfo {
    match info
    case Some(i) => i
    case None => PathInfo("", map[])
  }

  /** What the module-level `link(request, model, app)` computes: None if
      some level has no path; otherwise the paths of all levels root first,
      joined with `/` and stripped of `/` at both ends, and the parameters
      of all levels merged with the outer level winning. */
  function LinkPath<O>(pathOf: (Target<O>, App) -> Option<PathInfo>, target: Target<O>, app: Option<App>): Option<PathInfo> {
    var levels := Levels(target, app);
    if exists k :: 0 <= k < |levels| && pathOf(levels[k].0, levels[k].1).None? then None
    else
      var infos := seq(|levels|, k requires 0 <= k < |levels| => InfoOrEmpty(pathOf(levels[k].0, levels[k].1)));
      Some(PathInfo(StripSlashes(JoinSlash(Reverse(Paths(infos)))), MergeParams(infos)))
  }

  /** When every level has a path, the link is built from those paths. */
  lemma LinkPathOfInfos<O>(pathOf: (Target<O>, App) -> Option<PathInfo>, target: Target<O>, app: Option<App>,
                           infos: seq<PathInfo>)
    requires |infos| == |Levels(target, app)|
    requires forall k :: 0 <= k < |infos| ==> pathOf(Levels(target, app)[k].0, Levels(target, app)[k].1) == Some(infos[k])
    ensures LinkPath(pathOf, target, app) == Some(PathInfo(StripSlashes(JoinSlash(Reverse(Paths(infos)))), MergeParams(infos)))
  {
    var levels := Levels(target, app);
    assert infos == seq(|levels|, k requires 0 <= k < |levels| => InfoOrEmpty(pathOf(levels[k].0, levels[k].1)));
  }

  /** For a root application, the link is the model's own path without
      slashes at either end, with the model's own parameters. */
  lemma LinkPathRoot<O>(pathOf: (Target<O>, App) -> Option<PathInfo>, target: Target<O>, a: App)
    requires a.parent.None?
    ensures pathOf(target, a).None? ==> LinkPath(pathOf, target, Some(a)) == None
    ensures pathOf(target, a).Some? ==>
      LinkPath(pathOf, target, Some(a)) ==
      Some(PathInfo(StripSlashes(pathOf(target, a).value.path), pathOf(target, a).value.params))
  {
    assert Levels<O>(AppTarget(a), a.parent) == [];
    assert Levels(target, Some(a)) == [(target, a)];
    if pathOf(target, a).Some? {
      var info := pathOf(target, a).value;
      LinkPathOfInfos(pathOf, target, Some(a), [info]);
      OneLevel(info);
    }
  }

  /** The paths and parameters of a single level. */
  lemma OneLevel(info: PathInfo)
    ensures JoinSlash(Reverse(Paths([info]))) == info.path
    ensures MergeParams([info]) == info.params
  {
    assert Reverse(Paths([info])) == [info.path];
    assert MergeParams([info]) == map[] + info.params;
    assert map[] + info.params == info.params;
  }

  /** For an application `a` mounted in a root application, the link is the
      path of `a` within the root followed by the model's path within `a`, and
      a parameter given at both levels takes the root level's value. */
  lemma LinkPathMounted<O>(pathOf: (Target<O>, App) -> Option<PathInfo>, target: Target<O>, a: App, inner: PathInfo, outer: PathInfo)
    requires a.parent.Some? && a.parent.value.parent.None?
    requires pathOf(target, a) == Some(inner) && pathOf(AppTarget(a), a.parent.value) == Some(outer)
    ensures LinkPath(pathOf, target, Some(a)) == Some(PathInfo(StripSlashes(outer.path + "/" + inner.path), inner.params + outer.params))
  {
    var p := a.parent.value;
    assert Levels<O>(AppTarget(p), p.parent) == [];
    assert Levels<O>(AppTarget(a), a.parent) == [(AppTarget(a), p)];
    assert Levels(target, Some(a)) == [(target, a), (AppTarget(a), p)];
    LinkPathOfInfos(pathOf, target, Some(a), [inner, outer]);
    TwoLevels(inner, outer);
  }

  /** The paths and parameters of two levels, inner first. */
  lemma TwoLevels(inner: PathInfo, outer: PathInfo)
    ensures JoinSlash(Reverse(Paths([inner, outer]))) == outer.path + "/" + inner.path
    ensures MergeParams([inner, outer]) == inner.params + outer.params
  {
    var paths := Reverse(Paths([inner, outer]));
    assert paths == [outer.path, inner.path];
    assert paths[1..] == [inner.path];
    assert [inner, outer][..1] == [inner];
    assert MergeParams([inner]) == map[] + inner.params;
    assert map[] + inner.params == inner.params;
  }

  /** A level without a path leaves no link. */
  lemma LinkPathMissing<O>(pathOf: (Target<O>, App) -> Option<PathInfo>, target: Target<O>, app: Option<App>, k: nat)
    requires k < |Levels(target, app)| && pathOf(Levels(target, app)[k].0, Levels(target, app)[k].1).None?
    ensures LinkPath(pathOf, target, app) == None
  {
  }

  /** The loop of `link` takes the next level off the remaining ones. */
  lemma LevelsStep<O>(model: Target<O>, app: Option<App>, visited: seq<(Target<O>, App)>, current: Target<O>, a: App)
    requires Levels(model, app) == visited + Levels(current, Some(a))
    ensures Levels(model, app) == (visited + [(current, a)]) + Levels(AppTarget(a), a.parent)
    ensures Levels(model, app)[|visited|] == (current, a)
  {
    assert Levels(current, Some(a)) == [(current, a)] + Levels(AppTarget(a), a.parent);
  }

  /** One more level adds its path at the end and its parameters on top. */
  lemma SnocInfo(infos: seq<PathInfo>, info: PathInfo)
    ensures Paths(infos + [info]) == Paths(infos) + [info.path]
    ensures MergeParams(infos + [info]) == MergeParams(infos) + info.params
  {
    assert (infos + [info])[..|infos|] == infos;
  }

  /** The module-level `link(request, model, app)`: climb from `app` to the
      root, collecting the path of the model, then of each application within
      its parent, and merging the parameters; reverse the paths and join them. */
  method Link<O>(pathOf: (Target<O>, App) -> Option<PathInfo>, model: Target<O>, app: Option<App>)
    returns (r: Option<PathInfo>)
    ensures r == LinkPath(pathOf, model, app)
  {
    var result: seq<string> := [];
    var parameters: Params := map[];
    var current, at := model, app;
    ghost var visited: seq<(Target<O>, App)> := [];
    ghost var infos: seq<PathInfo> := [];
    while at.Some?
      invariant Levels(model, app) == visited + Levels(current, at)
      invariant |infos| == |visited|
      invariant forall k :: 0 <= k < |visited| ==> pathOf(visited[k].0, visited[k].1) == Some(infos[k])
      invariant result == Paths(infos) && parameters == MergeParams(infos)
      decreases at
    {
      var a := at.value;
      var pathInfo := pathOf(current, a);
      LevelsStep(model, app, visited, current, a);
      if pathInfo.None? {
        LinkPathMissing(pathOf, model, app, |visited|);
        return None;
      }
      result := result + [pathInfo.value.path];
      parameters := parameters + pathInfo.value.params;
      SnocInfo(infos, pathInfo.value);
      visited, infos := visited + [(current, a)], infos + [pathInfo.value];
      current, at := AppTarget(a), a.parent;
    }
    LinkPathOfInfos(pathOf, model, app, infos);
    result := Reverse(result);
    return Some(PathInfo(StripSlashes(JoinSlash(result)), parameters));
  }

  // ---------------------------------------------------------------------------
  // Request.link: assembling the URL

  /** `'?' + urlencode(parameters, True)` when there are parameters, else
      nothing; `encode` stands for `urlencode`. */
  function QueryString(params: Params, encode: Params -> string): (q: string)
    ensures q == "" <==> params == map[]
    ensures params != map[] ==> q == "?" + encode(params)
  {
    if params != map[] then "?" + encode(params) else ""
  }

  /** `link_prefix() + '/' + '/'.join(parts)` and the query string, where
      `parts` holds the path if it is not empty and then the view name if it
      is not empty. */
  function AssembleLink(prefix: string, info: PathInfo, name: string, encode: Params -> string): (url: string)
    ensures info.path == "" && name == "" ==> url == prefix + "/" + QueryString(info.params, encode)
    ensures info.path != "" && name == "" ==> url == prefix + "/" + info.path + QueryString(info.params, encode)
    ensures info.path == "" && name != "" ==> url == prefix + "/" + name + QueryString(info.params, encode)
    ensures info.path != "" && name != "" ==>
      url == prefix + "/" + info.path + "/" + name + QueryString(info.params, encode)
  {
    var parts := (if info.path != "" then [info.path] else []) + (if name != "" then [name] else []);
    assert info.path != "" && name != "" ==> parts == [info.path, name] && JoinSlash(parts) == info.path + "/" + name by {
      if info.path != "" && name != "" {
        assert parts == [info.path, name];
        assert parts[1..] == [name];
      }
    }
    prefix + "/" + JoinSlash(parts) + QueryString(info.params, encode)
  }

  /** The application `link` and `view` start from, when it is not None. */
  function Chosen(choice: AppChoice, current: App): App
    requires !choice.NoApp?
  {
    if choice.SameApp? then current else choice.app
  }

  /** `LinkPathRoot` for every root application. */
  lemma LinkFinderRoot<O>(pathOf: (Target<O>, App) -> Option<PathInfo>, obj: O)
    ensures forall a: App | a.parent.None? :: RootLink(pathOf, obj, a, LinkPath(pathOf, ModelTarget(obj), Some(a)))
  {
    forall a: App | a.parent.None?
      ensures RootLink(pathOf, obj, a, LinkPath(pathOf, ModelTarget(obj), Some(a)))
    {
      LinkPathRoot(pathOf, ModelTarget(obj), a);
    }
  }

  /** `info` is the link to `obj` in the root application `a`: none without a
      path, otherwise the model's own path stripped of `/`, with its own
      parameters. */
  ghost predicate RootLink<O>(pathOf: (Target<O>, App) -> Option<PathInfo>, obj: O, a: App, info: Option<PathInfo>) {
    match pathOf(ModelTarget(obj), a)
    case None => info.None?
    case Some(own) => info == Some(PathInfo(StripSlashes(own.path), own.params))
  }

  /** The `find` of `Request.link`: the module-level link of `obj` from an app. */
  function LinkFinder<O>(pathOf: (Target<O>, App) -> Option<PathInfo>, obj: O): (find: App -> Option<PathInfo>)
    ensures forall a: App | a.parent.None? :: RootLink(pathOf, obj, a, find(a))
  {
    LinkFinderRoot(pathOf, obj);
    a => LinkPath(pathOf, ModelTarget(obj), Some(a))
  }

  /** The link prefix `link_prefix` gives: the cached one for the class of
      the request's app, or a fresh one from the request's lookup. */
  function CachedPrefix(cache: map<nat, string>, cls: nat, computed: string): string {
    if cls in cache then cache[cls] else computed
  }

  /** The request's app, the chosen app and every application a deferral leads to from them lie in `apps`. */
  ghost predicate AppsKnown(deferred: App -> Option<App>, apps: set<App>, current: App, choice: AppChoice) {
    Closed(deferred, apps) && current in apps && (choice.UseApp? ==> choice.app in apps)
  }

  // ---------------------------------------------------------------------------
  // The request

  /** The state of a request that the core reads and changes: the app and
      lookup being handled, the callbacks registered with `after`, and the
      link prefix cached per app class. */
  class Request {
    var app: App
    var lookup: nat
    var afterCallbacks: seq<Callback>
    var linkPrefixCache: map<nat, string>

    constructor (app: App)
      ensures this.app == app && lookup == app.lookup
      ensures afterCallbacks == [] && linkPrefixCache == map[]
    {
      this.app := app;
      lookup := app.lookup;
      afterCallbacks := [];
      linkPrefixCache := map[];
    }

    /** `link_prefix()`: the prefix cached for the class of the request's
        app, or else `generic.link_prefix` for the request's lookup, cached.
        `prefixOf` stands for `generic.link_prefix`. */
    method LinkPrefix(prefixOf: nat -> string) returns (prefix: string)
      modifies this`linkPrefixCache
      ensures prefix == CachedPrefix(old(linkPrefixCache), app.cls, prefixOf(lookup))
      ensures linkPrefixCache == old(linkPrefixCache)[app.cls := prefix]
    {
      if app.cls in linkPrefixCache {
        prefix := linkPrefixCache[app.cls];
        return;
      }
      prefix := prefixOf(lookup);
      linkPrefixCache := linkPrefixCache[app.cls := prefix];
    }

    /** `link(obj, name, default, app)`. `pathOf` stands for `generic.path`,
        `deferred` for `generic.deferred_link_app` on `obj`, `encode` for
        `urlencode`. */
    method Link<O>(obj: Option<O>, name: string, default: Option<string>, choice: AppChoice,
                   pathOf: (Target<O>, App) -> Option<PathInfo>, deferred: App -> Option<App>, ghost apps: set<App>,
                   prefixOf: nat -> string, encode: Params -> string)
      returns (r: Result<Option<string>, LinkError>)
      requires AppsKnown(deferred, apps, app, choice)
      modifies this`linkPrefixCache
      ensures obj.None? ==> r == Success(default) && linkPrefixCache == old(linkPrefixCache)
      ensures obj.Some? && choice.NoApp? ==> r == Failure(AppIsNone) && linkPrefixCache == old(linkPrefixCache)
      ensures obj.Some? && !choice.NoApp? ==>
        var found := Follow(LinkFinder(pathOf, obj.value), deferred, Some(Chosen(choice, app)), {}, apps);
        match found
        case Failure(e) => r == Failure(e) && linkPrefixCache == old(linkPrefixCache)
        case Success(None) => r == Failure(CannotLinkTo) && linkPrefixCache == old(linkPrefixCache)
        case Success(Some((info, _))) =>
          var prefix := CachedPrefix(old(linkPrefixCache), app.cls, prefixOf(lookup));
          r == Success(Some(AssembleLink(prefix, info, name, encode))) &&
          linkPrefixCache == old(linkPrefixCache)[app.cls := prefix]
    {
      if obj.None? {
        return Success(default);
      }
      if choice.NoApp? {
        return Failure(AppIsNone);
      }
      var start := Chosen(choice, app);
      var found := FollowDefers(LinkFinder(pathOf, obj.value), deferred, Some(start), apps);
      if found.Failure? {
        return Failure(found.error);
      }
      if found.value.None? {
        return Failure(CannotLinkTo);
      }
      var info := found.value.value.0;
      var prefix := LinkPrefix(prefixOf);
      return Success(Some(AssembleLink(prefix, info, name, encode)));
    }

    /** `view(obj, default, app, **predicates)`. `findView` stands for the
        view lookup with the predicates, `deferred` for
        `generic.deferred_link_app` on `obj`, and `call` for calling the view
        found, which sees the request's app and lookup as they are during the
        call. The app and lookup are restored only when the view returns. */
    method View<O, V, Res, E>(obj: O, default: Res, choice: AppChoice, findView: App -> Option<V>,
                              deferred: App -> Option<App>, ghost apps: set<App>,
                              call: (V, App, nat, O) -> Result<Res, E>)
      returns (r: Result<Res, ViewError<E>>)
      requires AppsKnown(deferred, apps, app, choice)
      modifies this`app, this`lookup
      ensures choice.NoApp? ==> r == Failure(ViewLinkError(AppIsNone)) && app == old(app) && lookup == old(lookup)
      ensures !choice.NoApp? ==>
        match Follow(findView, deferred, Some(Chosen(choice, old(app))), {}, apps)
        case Failure(e) => r == Failure(ViewLinkError(e)) && app == old(app) && lookup == old(lookup)
        case Success(None) => r == Success(default) && app == old(app) && lookup == old(lookup)
        case Success(Some((v, a))) =>
          match call(v, a, a.lookup, obj)
          case Success(x) => r == Success(x) && app == old(app) && lookup == old(lookup)
          case Failure(e) => r == Failure(Raised(e)) && app == a && lookup == a.lookup
    {
      if choice.NoApp? {
        return Failure(ViewLinkError(AppIsNone));
      }
      var start := Chosen(choice, app);
      var found := FollowDefers(findView, deferred, Some(start), apps);
      if found.Failure? {
        return Failure(ViewLinkError(found.error));
      }
      if found.value.None? {
        return Success(default);
      }
      var (v, a) := found.value.value;
      var oldApp, oldLookup := app, lookup;
      app, lookup := a, a.lookup;
      var result := call(v, app, lookup, obj);
      if result.Failure? {
        return Failure(Raised(result.error));
      }
      app, lookup := oldApp, oldLookup;
      return Success(result.value);
    }

    /** `after(func)`: register `func` to be called with the response, and
        return it unchanged. */
    method After(func: Callback) returns (r: Callback)
      modifies this`afterCallbacks
      ensures r == func
      ensures afterCallbacks == old(afterCallbacks) + [func]
    {
      afterCallbacks := afterCallbacks + [func];
      return func;
    }

    /** `run_after(response)`: call every registered callback with the
        response, in registration order. `apply` gives the response as a
        callback leaves it. */
    method RunAfter<Resp>(apply: (Callback, Resp) -> Resp, response: Resp) returns (r: Resp)
      ensures r == ApplyAll(apply, afterCallbacks, response)
    {
      r := response;
      for i := 0 to |afterCallbacks|
        invariant r == ApplyAll(apply, afterCallbacks[..i], response)
      {
        assert afterCallbacks[..i + 1][..i] == afterCallbacks[..i];
        r := apply(afterCallbacks[i], r);
      }
      assert afterCallbacks[..|afterCallbacks|] == afterCallbacks;
    }

    /** `clear_after()`: forget every registered callback. */
    method ClearAfter()
      modifies this`afterCallbacks
      ensures afterCallbacks == []
    {
      afterCallbacks := [];
    }
  }

  /** The response after the callbacks `cbs` have been called on it in order. */
  function ApplyAll<Resp>(apply: (Callback, Resp) -> Resp, cbs: seq<Callback>, response: Resp): Resp
    decreases |cbs|
  {
    if cbs == [] then response else apply(cbs[|cbs| - 1], ApplyAll(apply, cbs[..|cbs| - 1], response))
  }

  /** Callbacks registered earlier run before those registered later. */
  lemma {:induction false} ApplyAllInOrder<Resp>(apply: (Callback, Resp) -> Resp, first: seq<Callback>,
                                                 later: seq<Callback>, response: Resp)
    ensures ApplyAll(apply, first + later, response) == ApplyAll(apply, later, ApplyAll(apply, first, response))
    decreases |later|
  {
    if later != [] {
      var n := |later| - 1;
      assert (first + later)[..|first + later| - 1] == first + later[..n];
      ApplyAllInOrder(apply, first, later[..n], response);
    } else {
      assert first + later == first;
    }
  }
}
