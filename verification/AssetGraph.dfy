/**
 The memoised depth-first resolver of `pkg/cluster/graph/graph.go`.

 A catalog fixes, for every asset type, its dependency list and what its generator returns
 when it is handed a map of parent assets.  Assets are told apart by their type name, which
 is the key the source uses.  A generator that draws random numbers is covered too: the
 resolver calls each generator at most once, so one run never sees two answers.
 */
module AssetGraph {
  import opened Wrappers

  type TypeName = string

  datatype Catalog<!V> = Catalog(
    deps: TypeName -> seq<TypeName>,
    generate: (TypeName, map<TypeName, V>) -> Result<V, string>)

  /** What a run leaves: the map, the generator calls in order, and the returned error. */
  datatype Outcome<V> = Outcome(assets: map<TypeName, V>, calls: seq<TypeName>, status: Status<string>)

  /** `rank` strictly decreases along every dependency of an asset that is not seeded. */
  ghost predicate Acyclic<V>(c: Catalog<V>, roots: set<TypeName>, rank: TypeName -> nat) {
    forall t, d :: t !in roots && d in c.deps(t) ==> rank(d) < rank(t)
  }

  /** Each generator's answer is determined by its declared dependencies. */
  ghost predicate ReadsOnlyDependencies<V(!new)>(c: Catalog<V>) {
    forall t, p: map<TypeName, V>, q: map<TypeName, V> {:trigger c.generate(t, p), c.generate(t, q)} ::
      (forall d :: d in c.deps(t) ==> d in p && d in q && p[d] == q[d]) ==>
        c.generate(t, p) == c.generate(t, q)
  }

  // ---------------------------------------------------------------- the resolver as a function

  ghost function Dfs<V>(c: Catalog<V>, roots: set<TypeName>, rank: TypeName -> nat,
                        g: map<TypeName, V>, t: TypeName): (o: Outcome<V>)
    requires Acyclic(c, roots, rank) && roots <= g.Keys
    ensures g.Keys <= o.assets.Keys
    decreases rank(t), |c.deps(t)| + 1
  {
    if t in g then
      Outcome(g, [], Done)
    else
      var o := DfsAll(c, roots, rank, rank(t), g, c.deps(t));
      if o.status.Failed? then o
      else
        match c.generate(t, o.assets)
        case Failure(e) => Outcome(o.assets, o.calls + [t], Failed(e))
        case Success(v) => Outcome(o.assets[t := v], o.calls + [t], Done)
  }

  ghost function DfsAll<V>(c: Catalog<V>, roots: set<TypeName>, rank: TypeName -> nat, bound: nat,
                           g: map<TypeName, V>, ts: seq<TypeName>): (o: Outcome<V>)
    requires Acyclic(c, roots, rank) && roots <= g.Keys
    requires forall t :: t in ts ==> rank(t) < bound
    ensures g.Keys <= o.assets.Keys
    decreases bound, |ts|
  {
    if ts == [] then
      Outcome(g, [], Done)
    else
      var o := Dfs(c, roots, rank, g, ts[0]);
      if o.status.Failed? then o
      else
        var p := DfsAll(c, roots, rank, bound, o.assets, ts[1..]);
        Outcome(p.assets, o.calls + p.calls, p.status)
  }

  /** A bound above the rank of every target, for the outermost loop. */
  ghost function RankBound(rank: TypeName -> nat, ts: seq<TypeName>): (b: nat)
    ensures forall t :: t in ts ==> rank(t) < b
  {
    if ts == [] then 0
    else
      var b := RankBound(rank, ts[1..]);
      if b <= rank(ts[0]) then rank(ts[0]) + 1 else b
  }

  ghost function Targets<V>(c: Catalog<V>, roots: set<TypeName>, rank: TypeName -> nat,
                            g: map<TypeName, V>, ts: seq<TypeName>): (o: Outcome<V>)
    requires Acyclic(c, roots, rank) && roots <= g.Keys
  {
    DfsAll(c, roots, rank, RankBound(rank, ts), g, ts)
  }

  // ---------------------------------------------------------------- the memo-free meaning

  /** The value of an asset: its seed, or what its generator makes of its dependencies' values.
      There is no shared map here: every dependency is evaluated from scratch. */
  ghost function Meaning<V>(c: Catalog<V>, seeds: map<TypeName, V>, rank: TypeName -> nat,
                            t: TypeName): (r: Result<V, string>)
    requires Acyclic(c, seeds.Keys, rank)
    decreases rank(t), |c.deps(t)| + 1
  {
    if t in seeds then Success(seeds[t])
    else
      match Meanings(c, seeds, rank, rank(t), c.deps(t))
      case Failure(e) => Failure(e)
      case Success(parents) => c.generate(t, parents)
  }

  ghost function Meanings<V>(c: Catalog<V>, seeds: map<TypeName, V>, rank: TypeName -> nat, bound: nat,
                             ts: seq<TypeName>): (r: Result<map<TypeName, V>, string>)
    requires Acyclic(c, seeds.Keys, rank)
    requires forall t :: t in ts ==> rank(t) < bound
    ensures r.Success? ==> forall t :: t in ts ==>
                             t in r.value && Meaning(c, seeds, rank, t) == Success(r.value[t])
    ensures r.Failure? ==> exists t :: t in ts && Meaning(c, seeds, rank, t) == Failure(r.error)
    decreases bound, |ts|
  {
    if ts == [] then Success(map[])
    else
      match Meaning(c, seeds, rank, ts[0])
      case Failure(e) => Failure(e)
      case Success(v) =>
        match Meanings(c, seeds, rank, bound, ts[1..])
        case Failure(e) => Failure(e)
        case Success(m) => Success(m[ts[0] := v])
  }

  ghost function Verdict<T>(r: Result<T, string>): Status<string> {
    match r
    case Success(_) => Done
    case Failure(e) => Failed(e)
  }

  /** The state every run keeps: seeds untouched, every entry has its meaning, and every
      generated entry has all its dependencies beside it. */
  ghost predicate Sound<V>(c: Catalog<V>, seeds: map<TypeName, V>, rank: TypeName -> nat, g: map<TypeName, V>)
    requires Acyclic(c, seeds.Keys, rank)
  {
    && seeds.Keys <= g.Keys
    && (forall k :: k in g ==> Meaning(c, seeds, rank, k) == Success(g[k]))
    && (forall k, d :: k in g && k !in seeds && d in c.deps(k) ==> d in g)
  }

  // ---------------------------------------------------------------- refinement

  lemma {:induction false} DfsRefinesMeaning<V(!new)>(c: Catalog<V>, seeds: map<TypeName, V>, rank: TypeName -> nat,
                                                      g: map<TypeName, V>, t: TypeName)
    requires Acyclic(c, seeds.Keys, rank) && ReadsOnlyDependencies(c) && Sound(c, seeds, rank, g)
    ensures var o := Dfs(c, seeds.Keys, rank, g, t);
            && o.status == Verdict(Meaning(c, seeds, rank, t))
            && Sound(c, seeds, rank, o.assets)
            && (o.status.Done? ==> t in o.assets)
    decreases rank(t), |c.deps(t)| + 1
  {
    if t !in g {
      var o := DfsAll(c, seeds.Keys, rank, rank(t), g, c.deps(t));
      DfsAllRefinesMeanings(c, seeds, rank, rank(t), g, c.deps(t));
      if o.status.Done? {
        var parents := Meanings(c, seeds, rank, rank(t), c.deps(t)).value;
        assert c.generate(t, o.assets) == c.generate(t, parents);
      }
    }
  }

  lemma {:induction false} DfsAllRefinesMeanings<V(!new)>(c: Catalog<V>, seeds: map<TypeName, V>, rank: TypeName -> nat,
                                                          bound: nat, g: map<TypeName, V>, ts: seq<TypeName>)
    requires Acyclic(c, seeds.Keys, rank) && ReadsOnlyDependencies(c) && Sound(c, seeds, rank, g)
    requires forall t :: t in ts ==> rank(t) < bound
    ensures var o := DfsAll(c, seeds.Keys, rank, bound, g, ts);
            && o.status == Verdict(Meanings(c, seeds, rank, bound, ts))
            && Sound(c, seeds, rank, o.assets)
            && (o.status.Done? ==> forall t :: t in ts ==> t in o.assets)
    decreases bound, |ts|
  {
    if ts != [] {
      var o := Dfs(c, seeds.Keys, rank, g, ts[0]);
      DfsRefinesMeaning(c, seeds, rank, g, ts[0]);
      if o.status.Done? {
        DfsAllRefinesMeanings(c, seeds, rank, bound, o.assets, ts[1..]);
      }
    }
  }

  /** A whole run from the seeds: it succeeds exactly when every target has a value, it returns
      the first failing target's own error, and the map holds nothing but meanings. */
  lemma {:induction false} ResolveComputesMeaning<V(!new)>(c: Catalog<V>, seeds: map<TypeName, V>, rank: TypeName -> nat,
                                                           ts: seq<TypeName>)
    requires Acyclic(c, seeds.Keys, rank) && ReadsOnlyDependencies(c)
    ensures var o := Targets(c, seeds.Keys, rank, seeds, ts);
            && Sound(c, seeds, rank, o.assets)
            && (o.status.Done? <==> forall t :: t in ts ==> Meaning(c, seeds, rank, t).Success?)
            && (o.status.Done? ==> forall t :: t in ts ==> t in o.assets)
            && (o.status.Failed? ==> exists i :: FirstFailure(c, seeds, rank, ts, i, o.status.error))
  {
    DfsAllRefinesMeanings(c, seeds, rank, RankBound(rank, ts), seeds, ts);
    if Targets(c, seeds.Keys, rank, seeds, ts).status.Failed? {
      var i := FirstFailureOf(c, seeds, rank, RankBound(rank, ts), ts);
    }
  }

  /** Target i has no value, for this reason, and all the targets before it have one. */
  ghost predicate FirstFailure<V>(c: Catalog<V>, seeds: map<TypeName, V>, rank: TypeName -> nat,
                                  ts: seq<TypeName>, i: nat, e: string)
    requires Acyclic(c, seeds.Keys, rank)
  {
    && i < |ts| && Meaning(c, seeds, rank, ts[i]) == Failure(e)
    && forall j :: 0 <= j < i ==> Meaning(c, seeds, rank, ts[j]).Success?
  }

  lemma {:induction false} FirstFailureOf<V>(c: Catalog<V>, seeds: map<TypeName, V>, rank: TypeName -> nat,
                                             bound: nat, ts: seq<TypeName>) returns (i: nat)
    requires Acyclic(c, seeds.Keys, rank) && forall t :: t in ts ==> rank(t) < bound
    requires Meanings(c, seeds, rank, bound, ts).Failure?
    ensures FirstFailure(c, seeds, rank, ts, i, Meanings(c, seeds, rank, bound, ts).error)
  {
    if Meaning(c, seeds, rank, ts[0]).Failure? {
      i := 0;
    } else {
      i := FirstFailureOf(c, seeds, rank, bound, ts[1..]);
      FailureShifts(c, seeds, rank, ts, i, Meanings(c, seeds, rank, bound, ts[1..]).error);
      i := i + 1;
    }
  }

  lemma {:induction false} FailureShifts<V>(c: Catalog<V>, seeds: map<TypeName, V>, rank: TypeName -> nat,
                                            ts: seq<TypeName>, i: nat, e: string)
    requires Acyclic(c, seeds.Keys, rank) && ts != []
    requires Meaning(c, seeds, rank, ts[0]).Success? && FirstFailure(c, seeds, rank, ts[1..], i, e)
    ensures FirstFailure(c, seeds, rank, ts, i + 1, e)
  {
    forall j | 0 <= j < i + 1
      ensures Meaning(c, seeds, rank, ts[j]).Success?
    {
      assert j > 0 ==> ts[j] == ts[1..][j - 1];
    }
  }

  // ---------------------------------------------------------------- trace

  /** A call history over a starting key set: nobody already present is generated, nobody is
      generated twice, and everybody's dependencies came first. */
  ghost predicate Topological<V>(c: Catalog<V>, base: set<TypeName>, calls: seq<TypeName>) {
    forall i :: 0 <= i < |calls| ==>
      && calls[i] !in base
      && calls[i] !in calls[..i]
      && (forall d :: d in c.deps(calls[i]) ==> d in base || d in calls[..i])
  }

  ghost function Elements(ts: seq<TypeName>): set<TypeName> {
    set t | t in ts
  }

  ghost predicate Preserves<V>(g: map<TypeName, V>, h: map<TypeName, V>) {
    forall k :: k in g ==> k in h && h[k] == g[k]
  }

  /** Every call but a failing last one added its key, and nothing else was added. */
  ghost predicate AccountsFor<V>(c: Catalog<V>, g: map<TypeName, V>, o: Outcome<V>) {
    match o.status
    case Done => o.assets.Keys == g.Keys + Elements(o.calls)
    case Failed(e) =>
      && o.calls != []
      && o.assets.Keys == g.Keys + Elements(o.calls[..|o.calls| - 1])
      && c.generate(o.calls[|o.calls| - 1], o.assets) == Failure(e)
  }

  /** What one run did to the map `g`, in terms of its generator calls. */
  ghost predicate TracedBy<V>(c: Catalog<V>, g: map<TypeName, V>, o: Outcome<V>) {
    Topological(c, g.Keys, o.calls) && Preserves(g, o.assets) && AccountsFor(c, g, o)
  }

  lemma {:induction false} TopologicalAppend<V>(c: Catalog<V>, base: set<TypeName>, xs: seq<TypeName>, ys: seq<TypeName>)
    requires Topological(c, base, xs) && Topological(c, base + Elements(xs), ys)
    ensures Topological(c, base, xs + ys)
  {
    var zs := xs + ys;
    forall i | 0 <= i < |zs|
      ensures zs[i] !in base && zs[i] !in zs[..i]
      ensures forall d :: d in c.deps(zs[i]) ==> d in base || d in zs[..i]
    {
      if i < |xs| {
        assert zs[..i] == xs[..i];
      } else {
        assert zs[..i] == xs + ys[..i - |xs|];
        assert zs[i] == ys[i - |xs|];
      }
    }
  }

  lemma {:induction false} ElementsAppend(xs: seq<TypeName>, ys: seq<TypeName>)
    ensures Elements(xs + ys) == Elements(xs) + Elements(ys)
  {
  }

  lemma {:induction false} AccountsForThen<V>(c: Catalog<V>, g: map<TypeName, V>, o: Outcome<V>, p: Outcome<V>)
    requires AccountsFor(c, g, o) && o.status.Done? && AccountsFor(c, o.assets, p)
    ensures AccountsFor(c, g, Outcome(p.assets, o.calls + p.calls, p.status))
  {
    var calls := o.calls + p.calls;
    if p.status.Failed? {
      var earlier := p.calls[..|p.calls| - 1];
      assert calls[..|calls| - 1] == o.calls + earlier;
      ElementsAppend(o.calls, earlier);
    } else {
      ElementsAppend(o.calls, p.calls);
    }
  }

  lemma {:induction false} TraceThen<V>(c: Catalog<V>, g: map<TypeName, V>, o: Outcome<V>, p: Outcome<V>)
    requires TracedBy(c, g, o) && o.status.Done? && TracedBy(c, o.assets, p)
    ensures TracedBy(c, g, Outcome(p.assets, o.calls + p.calls, p.status))
  {
    AccountsForThen(c, g, o, p);
    assert o.assets.Keys == g.Keys + Elements(o.calls);
    TopologicalAppend(c, g.Keys, o.calls, p.calls);
  }

  /** One generator call as a trace of its own. */
  ghost function Generate<V>(c: Catalog<V>, g: map<TypeName, V>, t: TypeName): Outcome<V> {
    match c.generate(t, g)
    case Failure(e) => Outcome(g, [t], Failed(e))
    case Success(v) => Outcome(g[t := v], [t], Done)
  }

  lemma {:induction false} GenerateIsTraced<V>(c: Catalog<V>, g: map<TypeName, V>, t: TypeName)
    requires t !in g && forall d :: d in c.deps(t) ==> d in g
    ensures TracedBy(c, g, Generate(c, g, t))
  {
    assert Elements([t]) == {t};
    assert [t][..0] == [];
    assert Elements([]) == {};
  }

  lemma {:induction false} NothingIsTraced<V>(c: Catalog<V>, g: map<TypeName, V>)
    ensures TracedBy(c, g, Outcome(g, [], Done))
  {
    assert Elements([]) == {};
  }

  lemma {:induction false} DfsIsTraced<V>(c: Catalog<V>, roots: set<TypeName>, rank: TypeName -> nat,
                                          g: map<TypeName, V>, t: TypeName)
    requires Acyclic(c, roots, rank) && roots <= g.Keys
    ensures var o := Dfs(c, roots, rank, g, t);
            && TracedBy(c, g, o)
            && (o.status.Done? ==> t in o.assets)
            && (forall x :: x in o.calls ==> rank(x) <= rank(t))
    decreases rank(t), |c.deps(t)| + 1
  {
    if t in g {
      NothingIsTraced(c, g);
    } else {
      var o := DfsAll(c, roots, rank, rank(t), g, c.deps(t));
      DfsAllIsTraced(c, roots, rank, rank(t), g, c.deps(t));
      if o.status.Done? {
        var p := Generate(c, o.assets, t);
        assert Dfs(c, roots, rank, g, t) == Outcome(p.assets, o.calls + p.calls, p.status);
        assert TracedBy(c, g, Outcome(p.assets, o.calls + p.calls, p.status)) by {
          assert t !in o.calls;
          assert t !in o.assets;
          GenerateIsTraced(c, o.assets, t);
          TraceThen(c, g, o, p);
        }
      }
    }
  }

  lemma {:induction false} DfsAllIsTraced<V>(c: Catalog<V>, roots: set<TypeName>, rank: TypeName -> nat, bound: nat,
                                             g: map<TypeName, V>, ts: seq<TypeName>)
    requires Acyclic(c, roots, rank) && roots <= g.Keys
    requires forall t :: t in ts ==> rank(t) < bound
    ensures var o := DfsAll(c, roots, rank, bound, g, ts);
            && TracedBy(c, g, o)
            && (o.status.Done? ==> forall t :: t in ts ==> t in o.assets)
            && (forall x :: x in o.calls ==> rank(x) < bound)
    decreases bound, |ts|
  {
    if ts == [] {
      NothingIsTraced(c, g);
    } else {
      var o := Dfs(c, roots, rank, g, ts[0]);
      DfsIsTraced(c, roots, rank, g, ts[0]);
      if o.status.Done? {
        DfsAllIsTraced(c, roots, rank, bound, o.assets, ts[1..]);
        TraceThen(c, g, o, DfsAll(c, roots, rank, bound, o.assets, ts[1..]));
      }
    }
  }

  lemma {:induction false} CalledHasDependencies<V>(c: Catalog<V>, base: set<TypeName>, calls: seq<TypeName>,
                                                   i: nat, d: TypeName)
    requires Topological(c, base, calls) && i < |calls| && d in c.deps(calls[i])
    ensures d in base || exists j: nat :: j < i && calls[j] == d
  {
    if d !in base {
      assert d in calls[..i];
      var j: nat :| j < i && calls[..i][j] == d;
      assert calls[j] == d;
    }
  }

  /** Whatever happens, a generator failure included, nobody added by the run lacks a dependency. */
  lemma {:induction false} AddedEntriesAreClosed<V>(c: Catalog<V>, g: map<TypeName, V>, o: Outcome<V>)
    requires TracedBy(c, g, o)
    ensures forall k, d :: k in o.assets && k !in g && d in c.deps(k) ==> d in o.assets
  {
    var n := if o.status.Done? then |o.calls| else |o.calls| - 1;
    assert o.calls[..|o.calls|] == o.calls;
    assert o.assets.Keys == g.Keys + Elements(o.calls[..n]);
    forall k, d | k in o.assets && k !in g && d in c.deps(k)
      ensures d in o.assets
    {
      assert k in o.calls[..n];
      var i: nat :| i < n && o.calls[..n][i] == k;
      CalledHasDependencies(c, g.Keys, o.calls, i, d);
      if d !in g {
        var j: nat :| j < i && o.calls[j] == d;
        assert o.calls[..n][j] == d;
      }
    }
  }

  // ---------------------------------------------------------------- closure

  /** A walk along dependencies that never steps on an asset of `base`. */
  ghost predicate Path<V>(c: Catalog<V>, base: set<TypeName>, p: seq<TypeName>) {
    && p != []
    && (forall i :: 0 <= i < |p| ==> p[i] !in base)
    && (forall i :: 1 <= i < |p| ==> p[i] in c.deps(p[i - 1]))
  }

  ghost predicate Reachable<V>(c: Catalog<V>, base: set<TypeName>, t: TypeName, k: TypeName) {
    exists p :: Path(c, base, p) && p[0] == t && p[|p| - 1] == k
  }

  lemma {:induction false} ReachableFromDependency<V>(c: Catalog<V>, base: set<TypeName>, t: TypeName, d: TypeName, k: TypeName)
    requires t !in base && d in c.deps(t) && Reachable(c, base, d, k)
    ensures Reachable(c, base, t, k)
  {
    var p :| Path(c, base, p) && p[0] == d && p[|p| - 1] == k;
    assert Path(c, base, [t] + p);
  }

  lemma {:induction false} ReachableInSmallerBase<V>(c: Catalog<V>, base: set<TypeName>, larger: set<TypeName>,
                                                     t: TypeName, k: TypeName)
    requires base <= larger && Reachable(c, larger, t, k)
    ensures Reachable(c, base, t, k)
  {
    var p :| Path(c, larger, p) && p[0] == t && p[|p| - 1] == k;
    assert Path(c, base, p);
  }

  lemma {:induction false} CallsAreReachable<V>(c: Catalog<V>, roots: set<TypeName>, rank: TypeName -> nat,
                                                g: map<TypeName, V>, t: TypeName, x: TypeName)
    requires Acyclic(c, roots, rank) && roots <= g.Keys
    requires x in Dfs(c, roots, rank, g, t).calls
    ensures Reachable(c, g.Keys, t, x)
    decreases rank(t), |c.deps(t)| + 1
  {
    if x == t {
      assert Path(c, g.Keys, [t]);
    } else {
      var d := CallsAreReachableFromSome(c, roots, rank, rank(t), g, c.deps(t), x);
      ReachableFromDependency(c, g.Keys, t, d, x);
    }
  }

  lemma {:induction false} CallsAreReachableFromSome<V>(c: Catalog<V>, roots: set<TypeName>, rank: TypeName -> nat, bound: nat,
                                                        g: map<TypeName, V>, ts: seq<TypeName>, x: TypeName)
      returns (t: TypeName)
    requires Acyclic(c, roots, rank) && roots <= g.Keys
    requires forall t :: t in ts ==> rank(t) < bound
    requires x in DfsAll(c, roots, rank, bound, g, ts).calls
    ensures t in ts && Reachable(c, g.Keys, t, x)
    decreases bound, |ts|
  {
    var o := Dfs(c, roots, rank, g, ts[0]);
    if x in o.calls {
      t := ts[0];
      CallsAreReachable(c, roots, rank, g, t, x);
    } else {
      t := CallsAreReachableFromSome(c, roots, rank, bound, o.assets, ts[1..], x);
      ReachableInSmallerBase(c, g.Keys, o.assets.Keys, t, x);
    }
  }

  lemma {:induction false} WalkStaysInside<V>(c: Catalog<V>, base: set<TypeName>, keys: set<TypeName>, p: seq<TypeName>)
    requires Path(c, base, p) && p[0] in keys
    requires forall k, d :: k in keys && k !in base && d in c.deps(k) ==> d in keys
    ensures p[|p| - 1] in keys
    decreases |p|
  {
    if |p| > 1 {
      assert p[1] in c.deps(p[0]);
      assert Path(c, base, p[1..]) by {
        forall i | 1 <= i < |p| - 1
          ensures p[1..][i] in c.deps(p[1..][i - 1])
        {
          assert p[i + 1] in c.deps(p[i]);
        }
      }
      WalkStaysInside(c, base, keys, p[1..]);
    }
  }

  /** On success the map holds exactly what was there plus what the targets reach without
      passing through anything that was there. */
  lemma {:induction false} FinalKeysAreReachable<V>(c: Catalog<V>, roots: set<TypeName>, rank: TypeName -> nat,
                                                    g: map<TypeName, V>, ts: seq<TypeName>)
    requires Acyclic(c, roots, rank) && roots <= g.Keys
    ensures var o := Targets(c, roots, rank, g, ts);
            o.status.Done? ==>
              forall k :: k in o.assets <==> k in g || exists t :: t in ts && Reachable(c, g.Keys, t, k)
  {
    var bound := RankBound(rank, ts);
    var o := Targets(c, roots, rank, g, ts);
    DfsAllIsTraced(c, roots, rank, bound, g, ts);
    if o.status.Done? {
      AddedEntriesAreClosed(c, g, o);
      forall k | k in o.assets && k !in g
        ensures exists t :: t in ts && Reachable(c, g.Keys, t, k)
      {
        assert k in o.calls;
        var t := CallsAreReachableFromSome(c, roots, rank, bound, g, ts, k);
      }
      forall k, t | t in ts && Reachable(c, g.Keys, t, k)
        ensures k in o.assets
      {
        var p :| Path(c, g.Keys, p) && p[0] == t && p[|p| - 1] == k;
        WalkStaysInside(c, g.Keys, o.assets.Keys, p);
      }
    }
  }

  /** Asking again for targets that are present calls no generator and changes nothing. */
  lemma {:induction false} ResolvingAgainIsFree<V>(c: Catalog<V>, roots: set<TypeName>, rank: TypeName -> nat, bound: nat,
                                                   g: map<TypeName, V>, ts: seq<TypeName>)
    requires Acyclic(c, roots, rank) && roots <= g.Keys
    requires forall t :: t in ts ==> rank(t) < bound && t in g
    ensures DfsAll(c, roots, rank, bound, g, ts) == Outcome(g, [], Done)
    decreases |ts|
  {
    if ts != [] {
      ResolvingAgainIsFree(c, roots, rank, bound, g, ts[1..]);
    }
  }

  // ---------------------------------------------------------------- order independence

  /** Two catalogs with the same generators and, for every asset, the same dependencies listed
      in any order and with any repetitions. */
  ghost predicate SameUpToOrder<V>(c: Catalog<V>, c': Catalog<V>) {
    && c.generate == c'.generate
    && (forall t, d :: d in c.deps(t) <==> d in c'.deps(t))
  }

  lemma {:induction false} ReadsOnlyDependenciesIgnoresOrder<V(!new)>(c: Catalog<V>, c': Catalog<V>)
    requires SameUpToOrder(c, c') && ReadsOnlyDependencies(c)
    ensures ReadsOnlyDependencies(c')
  {
    forall t, p: map<TypeName, V>, q: map<TypeName, V> | forall d :: d in c'.deps(t) ==> d in p && d in q && p[d] == q[d]
      ensures c'.generate(t, p) == c'.generate(t, q)
    {
      assert forall d :: d in c.deps(t) ==> d in c'.deps(t);
      assert c.generate(t, p) == c.generate(t, q);
    }
  }

  lemma {:induction false} MeaningIgnoresOrder<V(!new)>(c: Catalog<V>, c': Catalog<V>, seeds: map<TypeName, V>,
                                                        rank: TypeName -> nat, t: TypeName)
    requires SameUpToOrder(c, c') && ReadsOnlyDependencies(c)
    requires Acyclic(c, seeds.Keys, rank) && Acyclic(c', seeds.Keys, rank)
    requires Meaning(c, seeds, rank, t).Success?
    ensures Meaning(c', seeds, rank, t) == Meaning(c, seeds, rank, t)
    decreases rank(t)
  {
    if t !in seeds {
      var parents := Meanings(c, seeds, rank, rank(t), c.deps(t)).value;
      forall d | d in c'.deps(t)
        ensures Meaning(c', seeds, rank, d) == Meaning(c, seeds, rank, d) == Success(parents[d])
      {
        assert d in c.deps(t);
        MeaningIgnoresOrder(c, c', seeds, rank, d);
      }
      var parents' := Meanings(c', seeds, rank, rank(t), c'.deps(t)).value;
      assert forall d :: d in c.deps(t) ==> d in c'.deps(t);
      assert c.generate(t, parents) == c.generate(t, parents');
    }
  }

  lemma {:induction false} ReachableIgnoresOrder<V>(c: Catalog<V>, c': Catalog<V>, base: set<TypeName>,
                                                    t: TypeName, k: TypeName)
    requires SameUpToOrder(c, c') && Reachable(c, base, t, k)
    ensures Reachable(c', base, t, k)
  {
    var p :| Path(c, base, p) && p[0] == t && p[|p| - 1] == k;
    assert Path(c', base, p);
  }

  lemma {:induction false} SuccessIgnoresOrder<V(!new)>(c: Catalog<V>, c': Catalog<V>, seeds: map<TypeName, V>,
                                                        rank: TypeName -> nat, ts: seq<TypeName>, ts': seq<TypeName>)
    requires SameUpToOrder(c, c') && ReadsOnlyDependencies(c) && ReadsOnlyDependencies(c')
    requires Acyclic(c, seeds.Keys, rank) && Acyclic(c', seeds.Keys, rank)
    requires forall t :: t in ts' ==> t in ts
    requires Targets(c, seeds.Keys, rank, seeds, ts).status.Done?
    ensures Targets(c', seeds.Keys, rank, seeds, ts').status.Done?
  {
    ResolveComputesMeaning(c, seeds, rank, ts);
    ResolveComputesMeaning(c', seeds, rank, ts');
    forall t | t in ts'
      ensures Meaning(c', seeds, rank, t).Success?
    {
      MeaningIgnoresOrder(c, c', seeds, rank, t);
    }
  }

  /** The map a successful resolution leaves depends neither on the order of the targets nor on
      the order in which generators list their dependencies; nor does whether it succeeds. */
  lemma {:induction false} ResolutionIgnoresOrder<V(!new)>(c: Catalog<V>, c': Catalog<V>, seeds: map<TypeName, V>,
                                                           rank: TypeName -> nat, ts: seq<TypeName>, ts': seq<TypeName>)
    requires SameUpToOrder(c, c') && ReadsOnlyDependencies(c)
    requires Acyclic(c, seeds.Keys, rank) && Acyclic(c', seeds.Keys, rank)
    requires forall t :: t in ts <==> t in ts'
    ensures var o, o' := Targets(c, seeds.Keys, rank, seeds, ts), Targets(c', seeds.Keys, rank, seeds, ts');
            && (o.status.Done? <==> o'.status.Done?)
            && (o.status.Done? ==> o.assets == o'.assets)
  {
    var o, o' := Targets(c, seeds.Keys, rank, seeds, ts), Targets(c', seeds.Keys, rank, seeds, ts');
    ReadsOnlyDependenciesIgnoresOrder(c, c');
    if o.status.Done? { SuccessIgnoresOrder(c, c', seeds, rank, ts, ts'); }
    if o'.status.Done? { SuccessIgnoresOrder(c', c, seeds, rank, ts', ts); }
    if o.status.Done? {
      SameKeys(c, c', seeds, rank, ts, ts');
      SameKeys(c', c, seeds, rank, ts', ts);
      ResolveComputesMeaning(c, seeds, rank, ts);
      ResolveComputesMeaning(c', seeds, rank, ts');
      forall k | k in o.assets
        ensures o.assets[k] == o'.assets[k]
      {
        MeaningIgnoresOrder(c, c', seeds, rank, k);
      }
    }
  }

  lemma {:induction false} SameKeys<V>(c: Catalog<V>, c': Catalog<V>, seeds: map<TypeName, V>,
                                       rank: TypeName -> nat, ts: seq<TypeName>, ts': seq<TypeName>)
    requires SameUpToOrder(c, c')
    requires Acyclic(c, seeds.Keys, rank) && Acyclic(c', seeds.Keys, rank)
    requires forall t :: t in ts ==> t in ts'
    requires Targets(c, seeds.Keys, rank, seeds, ts).status.Done?
    requires Targets(c', seeds.Keys, rank, seeds, ts').status.Done?
    ensures Targets(c, seeds.Keys, rank, seeds, ts).assets.Keys
         <= Targets(c', seeds.Keys, rank, seeds, ts').assets.Keys
  {
    FinalKeysAreReachable(c, seeds.Keys, rank, seeds, ts);
    FinalKeysAreReachable(c', seeds.Keys, rank, seeds, ts');
    forall k | k in Targets(c, seeds.Keys, rank, seeds, ts).assets && k !in seeds
      ensures k in Targets(c', seeds.Keys, rank, seeds, ts').assets
    {
      var t :| t in ts && Reachable(c, seeds.Keys, t, k);
      ReachableIgnoresOrder(c, c', seeds.Keys, t, k);
    }
  }

  /** Why generators must read only what they declare: the source hands each of them the whole
      map, and one that peeks at an undeclared asset answers differently when targets swap. */
  ghost function Peeking(): Catalog<bool> {
    Catalog(t => [], (t: TypeName, parents: map<TypeName, bool>) => Success(t == "a" && "b" in parents))
  }

  ghost function Flat(): TypeName -> nat {
    t => 0
  }

  /** A run over two assets without dependencies. */
  lemma {:induction false} ResolvingTwo<V>(c: Catalog<V>, rank: TypeName -> nat, x: TypeName, y: TypeName, v: V, w: V)
    requires Acyclic(c, {}, rank) && x != y && c.deps(x) == [] && c.deps(y) == []
    requires c.generate(x, map[]) == Success(v) && c.generate(y, map[x := v]) == Success(w)
    ensures Targets(c, {}, rank, map[], [x, y]).assets == map[x := v, y := w]
  {
    var bound := RankBound(rank, [x, y]);
    assert x in [x, y] && y in [x, y] && [x, y][1..] == [y] && [y][1..] == [];
    var none: map<TypeName, V> := map[];
    assert Dfs(c, {}, rank, none, x) == Outcome(map[x := v], [x], Done);
    assert Dfs(c, {}, rank, map[x := v], y) == Outcome(map[x := v, y := w], [y], Done);
    assert DfsAll(c, {}, rank, bound, map[x := v], [y]).assets == map[x := v, y := w];
    assert DfsAll(c, {}, rank, bound, none, [x, y]).assets == map[x := v, y := w];
  }

  lemma {:induction false} UndeclaredReadsDependOnOrder()
    ensures var c, rank := Peeking(), Flat();
            && Acyclic(c, {}, rank)
            && !ReadsOnlyDependencies(c)
            && Targets(c, {}, rank, map[], ["a", "b"]).assets == map["a" := false, "b" := false]
            && Targets(c, {}, rank, map[], ["b", "a"]).assets == map["b" := false, "a" := true]
  {
    var c, rank := Peeking(), Flat();
    var none: map<TypeName, bool> := map[];
    assert c.generate("a", none) != c.generate("a", map["b" := true]);
    ResolvingTwo(c, rank, "a", "b", false, false);
    ResolvingTwo(c, rank, "b", "a", false, true);
  }

  // ---------------------------------------------------------------- the resolver itself

  class Graph<V> {
    var assets: map<TypeName, V>
    ghost var calls: seq<TypeName>

    constructor ()
      ensures assets == map[] && calls == []
    {
      assets, calls := map[], [];
    }

    method Get(t: TypeName) returns (v: Option<V>)
      ensures v == if t in assets then Some(assets[t]) else None
    {
      v := if t in assets then Some(assets[t]) else None;
    }

    method Set(t: TypeName, v: V)
      modifies this`assets
      ensures assets == old(assets)[t := v]
    {
      assets := assets[t := v];
    }

    method Resolve(c: Catalog<V>, ghost roots: set<TypeName>, ghost rank: TypeName -> nat, t: TypeName)
        returns (status: Status<string>)
      requires Acyclic(c, roots, rank) && roots <= assets.Keys
      modifies this
      ensures var o := Dfs(c, roots, rank, old(assets), t);
              assets == o.assets && calls == old(calls) + o.calls && status == o.status
      decreases rank(t), |c.deps(t)| + 1
    {
      var present := Get(t);
      if present.Some? {
        return Done;
      }
      var deps := c.deps(t);
      status := ResolveEach(c, roots, rank, rank(t), deps);
      if status.Failed? {
        return;
      }
      var generated := c.generate(t, assets);
      calls := calls + [t];
      match generated
      case Failure(e) => return Failed(e);
      case Success(v) => Set(t, v);
    }

    /** The loop over the dependencies, and likewise the outermost loop over the targets. */
    method ResolveEach(c: Catalog<V>, ghost roots: set<TypeName>, ghost rank: TypeName -> nat, ghost bound: nat,
                       ts: seq<TypeName>)
        returns (status: Status<string>)
      requires Acyclic(c, roots, rank) && roots <= assets.Keys
      requires forall t :: t in ts ==> rank(t) < bound
      modifies this
      ensures var o := DfsAll(c, roots, rank, bound, old(assets), ts);
              assets == o.assets && calls == old(calls) + o.calls && status == o.status
      decreases bound, |ts|
    {
      ghost var whole := DfsAll(c, roots, rank, bound, assets, ts);
      var i := 0;
      while i < |ts|
        invariant i <= |ts| && roots <= assets.Keys
        invariant Remaining(old(calls), whole, calls, DfsAll(c, roots, rank, bound, assets, ts[i..]))
      {
        DfsAllUnfolds(c, roots, rank, bound, assets, ts, i);
        status := Resolve(c, roots, rank, ts[i]);
        if status.Failed? {
          return;
        }
        i := i + 1;
      }
      status := Done;
    }
  }

  /** What is left to do completes what has been done to the whole. */
  ghost predicate Remaining<V>(before: seq<TypeName>, whole: Outcome<V>, calls: seq<TypeName>, rest: Outcome<V>) {
    && whole.assets == rest.assets
    && whole.status == rest.status
    && before + whole.calls == calls + rest.calls
  }

  lemma {:induction false} DfsAllUnfolds<V>(c: Catalog<V>, roots: set<TypeName>, rank: TypeName -> nat, bound: nat,
                                            g: map<TypeName, V>, ts: seq<TypeName>, i: nat)
    requires Acyclic(c, roots, rank) && roots <= g.Keys
    requires i < |ts| && forall t :: t in ts ==> rank(t) < bound
    ensures var o := Dfs(c, roots, rank, g, ts[i]);
            if o.status.Failed? then DfsAll(c, roots, rank, bound, g, ts[i..]) == o
            else
              forall calls ::
                var rest := DfsAll(c, roots, rank, bound, o.assets, ts[i + 1..]);
                var all := DfsAll(c, roots, rank, bound, g, ts[i..]);
                all.assets == rest.assets && all.status == rest.status && calls + all.calls == (calls + o.calls) + rest.calls
  {
    assert ts[i..][0] == ts[i] && ts[i..][1..] == ts[i + 1..];
  }
}
