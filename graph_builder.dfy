/** The dependency-graph builder `create_graph`: a breadth-first walk over a
    first-in-first-out queue of assets that numbers every dependency
    occurrence with a fresh id. Nothing is deduplicated: a module reached
    twice, or a specifier listed twice, becomes two assets. */
module GraphBuilder {
  import opened Outcomes
  import opened Platform
  import opened SwcSolution

  // ---------------------------------------------------------------------------
  // One step of the walk

  /** The asset created for the dependency `dep` of the asset whose canonical
      name is `filename`: the parent directory of `filename` joined with `dep`,
      converted back to a string, then loaded under `id`. */
  function ChildAsset(h: Host, filename: string, dep: string, id: nat): (r: Outcome<Asset>)
    ensures h.parent(filename).None? ==> r == Err(NoDirname(filename))
    ensures h.parent(filename).Some? && h.toStr(h.join(h.parent(filename).value, dep)).None? ==>
      r == Err(NoDirname(filename))
    ensures r.Ok? ==> r.value.id == id && r.value.mapping == map[]
  {
    match h.parent(filename)
    case None => Err(NoDirname(filename))
    case Some(dirname) =>
      match h.toStr(h.join(dirname, dep))
      case None => Err(NoDirname(filename))
      case Some(absolutePath) => CreateAsset(h, absolutePath, id)
  }

  /** Loading the child for a specifier of a parent, under a given id. The
      structural facts about the walk are stated for any such loader; the
      walk itself uses `ChildLoader`. */
  type Loader = (string, string, nat) -> Outcome<Asset>

  function ChildLoader(h: Host): Loader
  {
    (filename: string, dep: string, id: nat) => ChildAsset(h, filename, dep, id)
  }

  /** Once the parent directory and the joined path are known, the child is
      whatever loading that path gives. */
  lemma ChildAssetAt(h: Host, filename: string, dep: string, id: nat, dirname: OsPath, absolutePath: string)
    requires h.parent(filename) == Some(dirname)
    requires h.toStr(h.join(dirname, dep)) == Some(absolutePath)
    ensures ChildAsset(h, filename, dep, id) == CreateAsset(h, absolutePath, id)
  {
  }

  /** The id only names the child; everything else about it is fixed by its
      parent's file name and the specifier. */
  lemma ChildAssetIgnoresId(h: Host, filename: string, dep: string, i: nat, j: nat)
    ensures ChildAsset(h, filename, dep, i).Ok? <==> ChildAsset(h, filename, dep, j).Ok?
    ensures !ChildAsset(h, filename, dep, i).Ok? ==>
      ChildAsset(h, filename, dep, i) == ChildAsset(h, filename, dep, j)
    ensures ChildAsset(h, filename, dep, i).Ok? ==>
      ChildAsset(h, filename, dep, j).value == ChildAsset(h, filename, dep, i).value.(id := j)
  {
    match h.parent(filename)
    case None =>
    case Some(dirname) =>
      match h.toStr(h.join(dirname, dep))
      case None =>
      case Some(absolutePath) => CreateAssetIgnoresId(h, absolutePath, i, j);
  }

  // ---------------------------------------------------------------------------
  // Termination: the source loops forever on a dependency cycle, so the walk
  // is only modelled on hosts whose dependency relation is well founded.

  /** `rank` strictly decreases from every (file name, dependency list) pair to
      each child that pair's dependencies load. This ranges over the whole
      host, so a cycle anywhere, even one the entry never reaches, rules
      the host out. */
  ghost predicate Ranked(h: Host, rank: (string, seq<string>) -> nat)
  {
    forall f: string, deps: seq<string>, k: nat {:trigger ChildAsset(h, f, deps[k], 0)} ::
      k < |deps| && ChildAsset(h, f, deps[k], 0).Ok? ==>
        var c := ChildAsset(h, f, deps[k], 0).value;
        rank(c.filename, c.dependencies) < rank(f, deps)
  }

  /** The number of assets the walk creates below and including an asset with
      this file name and dependency list, counting every occurrence. */
  ghost function Size(h: Host, rank: (string, seq<string>) -> nat, f: string, deps: seq<string>): nat
    decreases rank(f, deps), 1, 0
  {
    1 + ChildrenSize(h, rank, f, deps, 0)
  }

  ghost function ChildrenSize(h: Host, rank: (string, seq<string>) -> nat, f: string, deps: seq<string>, k: nat): nat
    decreases rank(f, deps), 0, |deps| - k
  {
    if k >= |deps| then 0
    else
      var below := match ChildAsset(h, f, deps[k], 0)
        case Ok(c) => if rank(c.filename, c.dependencies) < rank(f, deps) then Size(h, rank, c.filename, c.dependencies) else 0
        case _ => 0;
      below + ChildrenSize(h, rank, f, deps, k + 1)
  }

  ghost function SumSize(h: Host, rank: (string, seq<string>) -> nat, queue: seq<Asset>): nat
  {
    if queue == [] then 0
    else Size(h, rank, queue[0].filename, queue[0].dependencies) + SumSize(h, rank, queue[1..])
  }

  lemma {:induction false} SumSizeAppend(h: Host, rank: (string, seq<string>) -> nat, a: seq<Asset>, b: seq<Asset>)
    ensures SumSize(h, rank, a + b) == SumSize(h, rank, a) + SumSize(h, rank, b)
  {
    if a == [] {
      assert a + b == b;
    } else {
      assert (a + b)[1..] == a[1..] + b;
      SumSizeAppend(h, rank, a[1..], b);
    }
  }

  // ---------------------------------------------------------------------------
  // When the walk succeeds

  /** Every step below an asset with this file name and dependency list
      succeeds: its parent directory exists and every dependency resolves and
      loads, recursively. */
  ghost predicate Completes(h: Host, rank: (string, seq<string>) -> nat, f: string, deps: seq<string>)
    decreases rank(f, deps), 1, 0
  {
    h.parent(f).Some? && ChildrenComplete(h, rank, f, deps, 0)
  }

  ghost predicate ChildrenComplete(h: Host, rank: (string, seq<string>) -> nat, f: string, deps: seq<string>, k: nat)
    decreases rank(f, deps), 0, |deps| - k
  {
    if k >= |deps| then true
    else
      match ChildAsset(h, f, deps[k], 0)
      case Ok(c) =>
        && rank(c.filename, c.dependencies) < rank(f, deps)
        && Completes(h, rank, c.filename, c.dependencies)
        && ChildrenComplete(h, rank, f, deps, k + 1)
      case _ => false
  }

  ghost predicate AllComplete(h: Host, rank: (string, seq<string>) -> nat, queue: seq<Asset>)
  {
    forall j :: 0 <= j < |queue| ==> Completes(h, rank, queue[j].filename, queue[j].dependencies)
  }

  /** The build succeeds: the entry loads and nothing below it fails. */
  ghost predicate BuildSucceeds(h: Host, rank: (string, seq<string>) -> nat, path: string)
  {
    && CreateAsset(h, path, 0).Ok?
    && Completes(h, rank, CreateAsset(h, path, 0).value.filename, CreateAsset(h, path, 0).value.dependencies)
  }

  // ---------------------------------------------------------------------------
  // The shape of a finished graph

  /** The total number of dependency entries of the first `i` assets. */
  function DepsBefore(assets: seq<Asset>, i: nat): nat
    requires i <= |assets|
  {
    if i == 0 then 0 else DepsBefore(assets, i - 1) + |assets[i - 1].dependencies|
  }

  /** `deps[k]` does not occur again in `deps` before position `bound`. */
  predicate IsLastBefore(deps: seq<string>, k: nat, bound: nat)
    requires k < bound <= |deps|
  {
    forall j :: k < j < bound ==> deps[j] != deps[k]
  }

  /** The mapping the walk builds for an asset whose children get the ids
      `first`, `first + 1`, ...: one insertion per dependency, in order, after
      the first `k` of them. */
  function MappingFor(deps: seq<string>, first: nat, k: nat): map<string, nat>
    requires k <= |deps|
  {
    if k == 0 then map[] else MappingFor(deps, first, k - 1)[deps[k - 1] := first + k - 1]
  }

  /** Recording the child of the next dependency extends the mapping by one
      step. */
  lemma MappingForNext(deps: seq<string>, first: nat, k: nat, mapping: map<string, nat>, dep: string, id: nat)
    requires k < |deps| && mapping == MappingFor(deps, first, k)
    requires dep == deps[k] && id == first + k
    ensures mapping[dep := id] == MappingFor(deps, first, k + 1)
  {
  }

  /** The keys of the mapping are exactly the specifiers seen so far, and each
      maps to the id of the child made for its last occurrence among them. */
  lemma {:induction false} MappingForMeaning(deps: seq<string>, first: nat, k: nat)
    requires k <= |deps|
    ensures forall d :: d in MappingFor(deps, first, k) <==> d in deps[..k]
    ensures forall j :: 0 <= j < k && IsLastBefore(deps, j, k) ==> MappingFor(deps, first, k)[deps[j]] == first + j
  {
    if k > 0 {
      MappingForMeaning(deps, first, k - 1);
      assert deps[..k] == deps[..k - 1] + [deps[k - 1]];
      forall j | 0 <= j < k && IsLastBefore(deps, j, k)
        ensures MappingFor(deps, first, k)[deps[j]] == first + j
      {
        if j < k - 1 {
          assert deps[k - 1] != deps[j];
          assert IsLastBefore(deps, j, k - 1);
        }
      }
    }
  }

  /** Every key of the mapping comes from the last occurrence of that
      specifier among the first `k` dependencies, and maps to the id of the
      child made for it. */
  lemma {:induction false} MappingForSource(deps: seq<string>, first: nat, k: nat, d: string) returns (j: nat)
    requires k <= |deps| && d in MappingFor(deps, first, k)
    ensures j < k && deps[j] == d && IsLastBefore(deps, j, k)
    ensures MappingFor(deps, first, k)[d] == first + j
  {
    if deps[k - 1] == d {
      j := k - 1;
    } else {
      j := MappingForSource(deps, first, k - 1, d);
    }
  }

  function Unmapped(a: Asset): Asset
  {
    a.(mapping := map[])
  }

  /** Asset `i` has been processed: its parent directory exists, the children
      of its dependencies sit at the consecutive positions `first`,
      `first + 1`, ..., the mapping has exactly its specifiers as keys, and each
      specifier maps to the child made for its last occurrence. */
  ghost predicate ResolvedAt(h: Host, load: Loader, assets: seq<Asset>, i: nat, first: nat)
    requires i < |assets|
  {
    var a := assets[i];
    && i < first
    && first + |a.dependencies| <= |assets|
    && h.parent(a.filename).Some?
    && (forall k :: 0 <= k < |a.dependencies| ==>
          load(a.filename, a.dependencies[k], first + k) == Ok(Unmapped(assets[first + k])))
    && a.mapping == MappingFor(a.dependencies, first, |a.dependencies|)
  }

  /** Asset `i` is resolved with its children placed after the children of
      all assets before it. */
  ghost predicate Resolved(h: Host, load: Loader, assets: seq<Asset>, i: nat)
    requires i < |assets|
  {
    ResolvedAt(h, load, assets, i, FirstChild(assets, i))
  }

  /** The position of the first child of asset `i`: after the entry and the
      children of all assets before it. */
  function FirstChild(assets: seq<Asset>, i: nat): nat
    requires i <= |assets|
  {
    1 + DepsBefore(assets, i)
  }

  /** The graph the walk returns for the entry `path`: the entry first, ids
      equal to positions, one asset per dependency occurrence, and every asset
      resolved with its children numbered after all children of earlier
      assets. */
  ghost predicate BreadthFirst(h: Host, path: string, assets: seq<Asset>)
  {
    && |assets| == 1 + DepsBefore(assets, |assets|)
    && CreateAsset(h, path, 0) == Ok(Unmapped(assets[0]))
    && (forall i :: 0 <= i < |assets| ==> assets[i].id == i)
    && (forall i :: 0 <= i < |assets| ==> Resolved(h, ChildLoader(h), assets, i))
  }

  lemma {:induction false} DepsBeforeAgree(a: seq<Asset>, b: seq<Asset>, i: nat)
    requires i <= |a| && i <= |b|
    requires forall j :: 0 <= j < i ==> a[j].dependencies == b[j].dependencies
    ensures DepsBefore(a, i) == DepsBefore(b, i)
  {
    if i > 0 {
      DepsBeforeAgree(a, b, i - 1);
    }
  }

  /** Resolution of asset `i` survives growing the sequence and changing the
      mappings of other assets. */
  lemma ResolvedExtends(h: Host, load: Loader, a: seq<Asset>, b: seq<Asset>, i: nat)
    requires i < |a| <= |b| && Resolved(h, load, a, i)
    requires b[i] == a[i]
    requires forall j :: 0 <= j < |a| ==> Unmapped(b[j]) == Unmapped(a[j])
    ensures Resolved(h, load, b, i)
  {
    DepsBeforeUnmapped(a, b, i);
    ResolvedAtExtends(h, load, a, b, i, FirstChild(a, i));
  }

  lemma DepsBeforeUnmapped(a: seq<Asset>, b: seq<Asset>, i: nat)
    requires i <= |a| <= |b|
    requires forall j :: 0 <= j < |a| ==> Unmapped(b[j]) == Unmapped(a[j])
    ensures DepsBefore(a, i) == DepsBefore(b, i)
  {
    forall j | 0 <= j < i
      ensures a[j].dependencies == b[j].dependencies
    {
      assert Unmapped(b[j]) == Unmapped(a[j]);
    }
    DepsBeforeAgree(a, b, i);
  }

  lemma ResolvedAtExtends(h: Host, load: Loader, a: seq<Asset>, b: seq<Asset>, i: nat, first: nat)
    requires i < |a| <= |b| && ResolvedAt(h, load, a, i, first)
    requires b[i] == a[i]
    requires forall j :: 0 <= j < |a| ==> Unmapped(b[j]) == Unmapped(a[j])
    ensures ResolvedAt(h, load, b, i, first)
  {
  }

  lemma AllCompleteAppend(h: Host, rank: (string, seq<string>) -> nat, a: seq<Asset>, b: seq<Asset>)
    ensures AllComplete(h, rank, a + b) <==> AllComplete(h, rank, a) && AllComplete(h, rank, b)
  {
    if AllComplete(h, rank, a) && AllComplete(h, rank, b) {
      forall j | 0 <= j < |a + b|
        ensures Completes(h, rank, (a + b)[j].filename, (a + b)[j].dependencies)
      {
        if j >= |a| {
          assert (a + b)[j] == b[j - |a|];
        }
      }
    }
    if AllComplete(h, rank, a + b) {
      forall j | 0 <= j < |a|
        ensures Completes(h, rank, a[j].filename, a[j].dependencies)
      {
        assert (a + b)[j] == a[j];
      }
      forall j | 0 <= j < |b|
        ensures Completes(h, rank, b[j].filename, b[j].dependencies)
      {
        assert (a + b)[|a| + j] == b[j];
      }
    }
  }

  /** Loading one more child moves it from the remaining dependencies to the
      children whose completion is still required. */
  lemma CompletesStep(h: Host, rank: (string, seq<string>) -> nat, f: string, deps: seq<string>,
                       children: seq<Asset>, k: nat, id: nat, child: Asset)
    requires Ranked(h, rank)
    requires k < |deps|
    requires Completes(h, rank, f, deps) <==> AllComplete(h, rank, children) && ChildrenComplete(h, rank, f, deps, k)
    requires ChildAsset(h, f, deps[k], id) == Ok(child)
    ensures Completes(h, rank, f, deps) <==> AllComplete(h, rank, children + [child]) && ChildrenComplete(h, rank, f, deps, k + 1)
  {
    ChildAssetIgnoresId(h, f, deps[k], id, 0);
    AllCompleteAppend(h, rank, children, [child]);
    assert AllComplete(h, rank, [child]) <==> Completes(h, rank, child.filename, child.dependencies) by {
      assert [child][0] == child;
    }
    var c := ChildAsset(h, f, deps[k], 0).value;
    assert c.filename == child.filename && c.dependencies == child.dependencies;
    assert ChildrenComplete(h, rank, f, deps, k) <==>
      Completes(h, rank, c.filename, c.dependencies) && ChildrenComplete(h, rank, f, deps, k + 1);
  }
  /** Loading one more child moves its size from the remaining dependencies to
      the queue. */
  lemma SizeStep(h: Host, rank: (string, seq<string>) -> nat, f: string, deps: seq<string>,
                  children: seq<Asset>, k: nat, id: nat, child: Asset)
    requires Ranked(h, rank)
    requires k < |deps|
    requires SumSize(h, rank, children) + ChildrenSize(h, rank, f, deps, k) == ChildrenSize(h, rank, f, deps, 0)
    requires ChildAsset(h, f, deps[k], id) == Ok(child)
    ensures SumSize(h, rank, children + [child]) + ChildrenSize(h, rank, f, deps, k + 1) == ChildrenSize(h, rank, f, deps, 0)
  {
    ChildAssetIgnoresId(h, f, deps[k], id, 0);
    SumSizeAppend(h, rank, children, [child]);
  }

  // ---------------------------------------------------------------------------
  // The loop invariants of create_graph

  /** Between iterations of the outer loop, `result` holds the processed
      assets and `queue` the created but unprocessed ones, numbered 0, 1, ...
      in creation order, and the counter has handed out one id per dependency
      of a processed asset, plus the entry's. */
  ghost predicate Numbered(result: seq<Asset>, queue: seq<Asset>)
  {
    && |result| + |queue| == FirstChild(result, |result|)
    && (forall j :: 0 <= j < |result| ==> result[j].id == j)
    && (forall j :: 0 <= j < |queue| ==> queue[j].id == |result| + j && queue[j].mapping == map[])
  }

  /** The first asset created is the entry. */
  ghost predicate EntryFirst(h: Host, path: string, created: seq<Asset>)
  {
    |created| > 0 && CreateAsset(h, path, 0) == Ok(Unmapped(created[0]))
  }

  /** Every processed asset is resolved against the assets created so far. */
  ghost predicate AllResolved(h: Host, load: Loader, n: nat, created: seq<Asset>)
    requires n <= |created|
  {
    forall i :: 0 <= i < n ==> Resolved(h, load, created, i)
  }

  /** The build can still succeed exactly when every queued asset completes. */
  ghost predicate SuccessTracked(h: Host, rank: (string, seq<string>) -> nat, path: string, queue: seq<Asset>)
  {
    BuildSucceeds(h, rank, path) <==> AllComplete(h, rank, queue)
  }

  /** Inside the inner loop: the children created so far for the first
      dependencies of the asset named `f` carry the ids `first`, `first + 1`,
      ... in dependency order. */
  ghost predicate ChildrenLoaded(load: Loader, f: string, deps: seq<string>, first: nat, children: seq<Asset>)
  {
    && |children| <= |deps|
    && (forall j :: 0 <= j < |children| ==> load(f, deps[j], first + j) == Ok(children[j]))
  }

  /** The asset completes exactly when the children loaded so far and the
      remaining dependencies complete; the work left is split the same way. */
  ghost predicate Progress(h: Host, rank: (string, seq<string>) -> nat, f: string, deps: seq<string>,
                           children: seq<Asset>, k: nat)
  {
    && (Completes(h, rank, f, deps) <==> AllComplete(h, rank, children) && ChildrenComplete(h, rank, f, deps, k))
    && SumSize(h, rank, children) + ChildrenSize(h, rank, f, deps, k) == ChildrenSize(h, rank, f, deps, 0)
  }

  lemma ProgressStart(h: Host, rank: (string, seq<string>) -> nat, f: string, deps: seq<string>)
    requires h.parent(f).Some?
    ensures Progress(h, rank, f, deps, [], 0)
  {
  }

  lemma ChildrenStep(load: Loader, f: string, deps: seq<string>, first: nat, children: seq<Asset>,
                     id: nat, child: Asset)
    requires |children| < |deps| && ChildrenLoaded(load, f, deps, first, children)
    requires id == first + |children| && load(f, deps[|children|], id) == Ok(child)
    ensures ChildrenLoaded(load, f, deps, first, children + [child])
  {
    var children' := children + [child];
    forall j | 0 <= j < |children'|
      ensures load(f, deps[j], first + j) == Ok(children'[j])
    {
    }
  }

  /** Inside the inner loop, after the first `|children|` dependencies of the
      asset named `f`: their children are loaded under consecutive ids from
      `first` on, and completion and remaining work are tracked. */
  ghost predicate Loading(h: Host, rank: (string, seq<string>) -> nat, f: string, deps: seq<string>,
                          first: nat, children: seq<Asset>)
  {
    && ChildrenLoaded(ChildLoader(h), f, deps, first, children)
    && Fresh(children, first)
    && Progress(h, rank, f, deps, children, |children|)
  }

  /** Loading the next dependency's child keeps the inner-loop invariant. */
  lemma LoadStep(h: Host, rank: (string, seq<string>) -> nat, f: string, deps: seq<string>,
                 first: nat, children: seq<Asset>, dep: string, id: nat, child: Asset)
    requires Ranked(h, rank) && Loading(h, rank, f, deps, first, children)
    requires |children| < |deps| && dep == deps[|children|] && id == first + |children|
    requires ChildAsset(h, f, dep, id) == Ok(child)
    ensures Loading(h, rank, f, deps, first, children + [child])
  {
    var k := |children|;
    var children' := children + [child];
    assert ChildAsset(h, f, deps[k], id) == Ok(child);
    assert ChildrenLoaded(ChildLoader(h), f, deps, first, children') by {
      ChildrenStep(ChildLoader(h), f, deps, first, children, id, child);
    }
    assert Fresh(children', first) by {
      assert children'[k] == child;
    }
    assert |children'| == k + 1;
    assert Progress(h, rank, f, deps, children', k + 1) by {
      CompletesStep(h, rank, f, deps, children, k, id, child);
      SizeStep(h, rank, f, deps, children, k, id, child);
    }
  }

  /** A dependency that cannot be resolved or loaded means the asset does not
      complete. */
  lemma DependencyFails(h: Host, rank: (string, seq<string>) -> nat, f: string, deps: seq<string>,
                        children: seq<Asset>, k: nat, id: nat)
    requires k < |deps| && Progress(h, rank, f, deps, children, k)
    requires !ChildAsset(h, f, deps[k], id).Ok?
    ensures !Completes(h, rank, f, deps)
  {
    ChildAssetIgnoresId(h, f, deps[k], id, 0);
  }

  lemma NumberedStep(result: seq<Asset>, before: seq<Asset>, asset: Asset, children: seq<Asset>)
    requires before != [] && Numbered(result, before)
    requires Unmapped(asset) == before[0] && |children| == |asset.dependencies|
    requires forall j :: 0 <= j < |children| ==>
      children[j].id == |result| + |before| + j && children[j].mapping == map[]
    ensures Numbered(result + [asset], before[1..] + children)
  {
    DepsBeforeAgree(result + [asset], result, |result|);
    var queue' := before[1..] + children;
    forall j | 0 <= j < |queue'|
      ensures queue'[j].id == |result| + 1 + j && queue'[j].mapping == map[]
    {
      if j < |before| - 1 {
        assert queue'[j] == before[j + 1];
      } else {
        assert queue'[j] == children[j - (|before| - 1)];
      }
    }
  }

  /** Assets processed earlier stay resolved when later assets get their
      mappings and more assets are created. */
  lemma ResolvedKept(h: Host, load: Loader, n: nat, c0: seq<Asset>, c1: seq<Asset>)
    requires n <= |c0| <= |c1| && AllResolved(h, load, n, c0)
    requires forall j :: 0 <= j < n ==> c1[j] == c0[j]
    requires forall j :: 0 <= j < |c0| ==> Unmapped(c1[j]) == Unmapped(c0[j])
    ensures AllResolved(h, load, n, c1)
  {
    forall i | 0 <= i < n
      ensures Resolved(h, load, c1, i)
    {
      ResolvedExtends(h, load, c0, c1, i);
    }
  }

  lemma AllResolvedSnoc(h: Host, load: Loader, n: nat, created: seq<Asset>)
    requires n < |created| && AllResolved(h, load, n, created) && Resolved(h, load, created, n)
    ensures AllResolved(h, load, n + 1, created)
  {
  }

  /** Processing the head of the queue changes only its mapping and appends
      the new children. */
  lemma CreatedGrows(result: seq<Asset>, before: seq<Asset>, asset: Asset, children: seq<Asset>)
    requires before != [] && Unmapped(asset) == before[0] && before[0].mapping == map[]
    ensures var c0, c1 := result + before, result + [asset] + (before[1..] + children);
      && |c0| <= |c1|
      && (forall j :: 0 <= j < |result| ==> c1[j] == c0[j] && c1[j] == result[j])
      && (forall j :: 0 <= j < |c0| ==> Unmapped(c1[j]) == Unmapped(c0[j]))
      && c1[|result|] == asset
  {
    var c0, c1 := result + before, result + [asset] + (before[1..] + children);
    forall j | 0 <= j < |c0|
      ensures Unmapped(c1[j]) == Unmapped(c0[j])
    {
      if j > |result| {
        assert c1[j] == before[j - |result|];
      }
    }
  }

  /** The positions after a prefix hold the appended sequence. */
  lemma AppendedAt(prefix: seq<Asset>, children: seq<Asset>)
    requires forall j :: 0 <= j < |children| ==> children[j].mapping == map[]
    ensures forall j :: 0 <= j < |children| ==> Unmapped((prefix + children)[|prefix| + j]) == children[j]
  {
  }

  /** The children loaded so far carry the ids handed out, in order, and no
      mapping yet. */
  ghost predicate Fresh(children: seq<Asset>, first: nat)
  {
    forall j :: 0 <= j < |children| ==> children[j].id == first + j && children[j].mapping == map[]
  }

  /** Once the head of the queue has all its children, it joins the processed
      assets: the numbering continues, the entry stays first and every
      processed asset, the new one included, is resolved. */
  lemma AssetDone(h: Host, load: Loader, path: string, result: seq<Asset>, before: seq<Asset>, asset: Asset,
                  children: seq<Asset>, first: nat)
    requires before != [] && Numbered(result, before) && first == |result| + |before|
    requires EntryFirst(h, path, result + before) && AllResolved(h, load, |result|, result + before)
    requires Unmapped(asset) == before[0] && |children| == |asset.dependencies|
    requires h.parent(asset.filename).Some?
    requires ChildrenLoaded(load, asset.filename, asset.dependencies, first, children) && Fresh(children, first)
    requires asset.mapping == MappingFor(asset.dependencies, first, |children|)
    ensures Numbered(result + [asset], before[1..] + children)
    ensures EntryFirst(h, path, result + [asset] + (before[1..] + children))
    ensures AllResolved(h, load, |result| + 1, result + [asset] + (before[1..] + children))
  {
    var created := result + [asset] + (before[1..] + children);
    NumberedStep(result, before, asset, children);
    CreatedGrows(result, before, asset, children);
    assert AllResolved(h, load, |result|, created) by {
      ResolvedKept(h, load, |result|, result + before, created);
    }
    assert Resolved(h, load, created, |result|) by {
      var prefix := result + [asset] + before[1..];
      assert created == prefix + children && |prefix| == first;
      assert forall j :: 0 <= j < |result| ==> prefix[j] == result[j];
      HeadFirst(result, prefix, children);
      HeadResolvedAt(h, load, |result|, prefix, asset, children);
    }
    AllResolvedSnoc(h, load, |result|, created);
  }

  /** The children of the asset at position `|result|` start right after
      `prefix`, as the dependency count of the assets before it says. */
  lemma HeadFirst(result: seq<Asset>, prefix: seq<Asset>, children: seq<Asset>)
    requires |result| < |prefix| && |prefix| == FirstChild(result, |result|)
    requires forall j :: 0 <= j < |result| ==> prefix[j] == result[j]
    ensures FirstChild(prefix + children, |result|) == |prefix|
  {
    var created := prefix + children;
    assert forall j :: 0 <= j < |result| ==> created[j].dependencies == result[j].dependencies;
    DepsBeforeAgree(created, result, |result|);
  }

  /** The asset at position `i` of `prefix` is resolved once its children are
      appended right after `prefix`. */
  lemma HeadResolvedAt(h: Host, load: Loader, i: nat, prefix: seq<Asset>, asset: Asset, children: seq<Asset>)
    requires i < |prefix| && prefix[i] == asset
    requires |children| == |asset.dependencies| && h.parent(asset.filename).Some?
    requires ChildrenLoaded(load, asset.filename, asset.dependencies, |prefix|, children)
    requires Fresh(children, |prefix|)
    requires asset.mapping == MappingFor(asset.dependencies, |prefix|, |children|)
    ensures ResolvedAt(h, load, prefix + children, i, |prefix|)
  {
    AppendedAt(prefix, children);
    assert (prefix + children)[i] == prefix[i];
  }

  /** Processing one asset keeps success tracked and shrinks the work left. */
  lemma SuccessStep(h: Host, rank: (string, seq<string>) -> nat, path: string,
                    before: seq<Asset>, children: seq<Asset>)
    requires before != [] && SuccessTracked(h, rank, path, before)
    requires h.parent(before[0].filename).Some? && |children| == |before[0].dependencies|
    requires Progress(h, rank, before[0].filename, before[0].dependencies, children, |children|)
    ensures SuccessTracked(h, rank, path, before[1..] + children)
    ensures SumSize(h, rank, before[1..] + children) < SumSize(h, rank, before)
  {
    assert before == [before[0]] + before[1..];
    AllCompleteAppend(h, rank, [before[0]], before[1..]);
    assert AllComplete(h, rank, [before[0]]) <==> Completes(h, rank, before[0].filename, before[0].dependencies) by {
      assert [before[0]][0] == before[0];
    }
    AllCompleteAppend(h, rank, before[1..], children);
    SumSizeAppend(h, rank, before[1..], children);
  }

  // ---------------------------------------------------------------------------
  // create_graph

  /** The inner loop of `create_graph` for one asset taken from the queue:
      each dependency, in order, is joined to `dirname`, converted back to a
      string and loaded under the next id; the mapping records the child's id
      under the specifier. The first failure is returned as is. On success
      the updated asset and the new children, in the order they are pushed
      onto the queue, are returned, and the ids `id`, `id + 1`, ... have been
      used. */
  method LoadDependencies(h: Host, ghost rank: (string, seq<string>) -> nat, asset: Asset, dirname: OsPath, id: nat)
    returns (r: Outcome<Asset>, children: seq<Asset>)
    requires Ranked(h, rank)
    requires h.parent(asset.filename) == Some(dirname) && asset.mapping == map[]
    ensures r.Ok? ==>
      && Unmapped(r.value) == asset
      && r.value.mapping == MappingFor(asset.dependencies, id, |asset.dependencies|)
      && |children| == |asset.dependencies|
      && Loading(h, rank, asset.filename, asset.dependencies, id, children)
    ensures !r.Ok? ==> !Completes(h, rank, asset.filename, asset.dependencies)
  {
    var a := asset;
    var next := id;
    children := [];
    ghost var f, deps := asset.filename, asset.dependencies;
    ProgressStart(h, rank, f, deps);
    for k := 0 to |asset.dependencies|
      invariant next == id + k && |children| == k
      invariant Unmapped(a) == asset
      invariant a.mapping == MappingFor(deps, id, k)
      invariant Loading(h, rank, f, deps, id, children)
    {
      var dep := a.dependencies[k];
      var absolutePath := h.toStr(h.join(dirname, dep));
      if absolutePath.None? {
        DependencyFails(h, rank, f, deps, children, k, next);
        r := Err(NoDirname(a.filename));
        return;
      }
      var created := CreateAsset(h, absolutePath.value, next);
      if !created.Ok? {
        DependencyFails(h, rank, f, deps, children, k, next);
        r := created.PropagateFailure();
        return;
      }
      var child := created.value;
      ChildAssetAt(h, f, dep, next, dirname, absolutePath.value);
      LoadStep(h, rank, f, deps, id, children, dep, next, child);
      MappingForNext(deps, id, k, a.mapping, dep, child.id);
      a := a.(mapping := a.mapping[dep := child.id]);
      next := next + 1;
      children := children + [child];
    }
    r := Ok(a);
  }

  /** Builds the graph from the entry `path`. The result is `Ok` exactly when no
      step anywhere below the entry fails, and then it is the breadth-first
      numbering described by `BreadthFirst`; on any failure no partial graph is
      returned. */
  method CreateGraph(h: Host, path: string, ghost rank: (string, seq<string>) -> nat)
    returns (r: Outcome<seq<Asset>>)
    requires Ranked(h, rank)
    ensures r.Ok? <==> BuildSucceeds(h, rank, path)
    ensures r.Ok? ==> BreadthFirst(h, path, r.value)
    ensures !CreateAsset(h, path, 0).Ok? ==> r == CreateAsset(h, path, 0).PropagateFailure()
  {
    var id: nat := 0;
    var mainAsset :- CreateAsset(h, path, id);
    id := id + 1;
    var result: seq<Asset> := [];
    var queue: seq<Asset> := [mainAsset];
    while queue != []
      invariant id == |result| + |queue|
      invariant Numbered(result, queue)
      invariant EntryFirst(h, path, result + queue)
      invariant AllResolved(h, ChildLoader(h), |result|, result + queue)
      invariant SuccessTracked(h, rank, path, queue)
      decreases SumSize(h, rank, queue)
    {
      var asset := queue[0];
      ghost var before := queue;
      queue := queue[1..];

      var parent := h.parent(asset.filename);
      if parent.None? {
        r := Err(NoDirname(asset.filename));
        return;
      }
      var loaded, children := LoadDependencies(h, rank, asset, parent.value, id);
      if !loaded.Ok? {
        r := loaded.PropagateFailure();
        return;
      }
      ghost var first := id;
      asset := loaded.value;
      id := id + |children|;
      queue := queue + children;
      AssetDone(h, ChildLoader(h), path, result, before, asset, children, first);
      SuccessStep(h, rank, path, before, children);
      result := result + [asset];
    }
    assert result + queue == result;
    r := Ok(result);
  }
}
