/** What a graph returned by `create_graph` looks like, stated on the
    `BreadthFirst` description that `GraphBuilder.CreateGraph` guarantees. */
module GraphProperties {
  import opened Outcomes
  import opened Platform
  import opened SwcSolution
  import opened GraphBuilder

  /** The keys of a processed asset's mapping are exactly its specifiers, and
      a repeated specifier maps to the child created for its last
      occurrence. */
  lemma MappingKeys(h: Host, path: string, assets: seq<Asset>, i: nat)
    requires BreadthFirst(h, path, assets) && i < |assets|
    ensures forall d :: d in assets[i].mapping <==> d in assets[i].dependencies
    ensures var deps := assets[i].dependencies;
      forall j :: 0 <= j < |deps| && IsLastBefore(deps, j, |deps|) ==>
        assets[i].mapping[deps[j]] == FirstChild(assets, i) + j
  {
    assert Resolved(h, ChildLoader(h), assets, i);
    var deps := assets[i].dependencies;
    MappingForMeaning(deps, FirstChild(assets, i), |deps|);
    assert deps[..|deps|] == deps;
  }

  /** Every mapping entry points into the graph, after its owner, at the asset
      loaded from the owner's directory joined with the specifier. */
  lemma MappingTarget(h: Host, path: string, assets: seq<Asset>, i: nat, d: string)
    requires BreadthFirst(h, path, assets) && i < |assets| && d in assets[i].mapping
    ensures var a, c := assets[i], assets[i].mapping[d];
      && i < c < |assets|
      && assets[c].id == c
      && h.parent(a.filename).Some?
      && h.toStr(h.join(h.parent(a.filename).value, d)).Some?
      && CreateAsset(h, h.toStr(h.join(h.parent(a.filename).value, d)).value, c) == Ok(Unmapped(assets[c]))
  {
    var a, first := assets[i], FirstChild(assets, i);
    assert a.mapping == MappingFor(a.dependencies, first, |a.dependencies|) by {
      assert Resolved(h, ChildLoader(h), assets, i);
    }
    var j := MappingForSource(a.dependencies, first, |a.dependencies|, d);
    ChildrenConsecutive(h, path, assets, i, j);
    var dir := h.parent(a.filename).value;
    var target := h.toStr(h.join(dir, d));
    assert target.Some?;
    ChildAssetAt(h, a.filename, d, first + j, dir, target.value);
  }

  /** The children of one asset get consecutive ids in the order of its
      dependency list, each loaded for its own specifier. */
  lemma ChildrenConsecutive(h: Host, path: string, assets: seq<Asset>, i: nat, k: nat)
    requires BreadthFirst(h, path, assets) && i < |assets| && k < |assets[i].dependencies|
    ensures var p := FirstChild(assets, i) + k;
      && i < p < |assets|
      && assets[p].id == p
      && ChildAsset(h, assets[i].filename, assets[i].dependencies[k], p) == Ok(Unmapped(assets[p]))
  {
    assert Resolved(h, ChildLoader(h), assets, i);
    var p := FirstChild(assets, i) + k;
    assert ChildLoader(h)(assets[i].filename, assets[i].dependencies[k], p) == Ok(Unmapped(assets[p]));
  }

  /** Nothing is deduplicated: a specifier listed twice yields two assets with
      different ids that agree on everything else, and the mapping keeps only
      the later one. */
  lemma DuplicateSpecifierKept(h: Host, path: string, assets: seq<Asset>, i: nat, j1: nat, j2: nat)
    requires BreadthFirst(h, path, assets) && i < |assets|
    requires j1 < j2 < |assets[i].dependencies|
    requires assets[i].dependencies[j1] == assets[i].dependencies[j2]
    ensures var p1, p2 := FirstChild(assets, i) + j1, FirstChild(assets, i) + j2;
      && p2 < |assets|
      && assets[p1].id != assets[p2].id
      && assets[p1].filename == assets[p2].filename
      && assets[p1].dependencies == assets[p2].dependencies
      && assets[p1].code == assets[p2].code
      && assets[i].dependencies[j1] in assets[i].mapping
      && assets[i].mapping[assets[i].dependencies[j1]] != p1
  {
    var a, first := assets[i], FirstChild(assets, i);
    var d := a.dependencies[j1];
    var p1, p2 := first + j1, first + j2;
    ChildrenConsecutive(h, path, assets, i, j1);
    ChildrenConsecutive(h, path, assets, i, j2);
    ChildAssetIgnoresId(h, a.filename, d, p1, p2);
    MappingKeys(h, path, assets, i);
    assert Resolved(h, ChildLoader(h), assets, i);
    var j := MappingForSource(a.dependencies, first, |a.dependencies|, d);
    assert j2 <= j;
  }

  /** The children of an earlier asset all come before the children of a
      later one. */
  lemma {:induction false} ChildrenBlocksOrdered(assets: seq<Asset>, i: nat, j: nat)
    requires i < j <= |assets|
    ensures FirstChild(assets, i) + |assets[i].dependencies| <= FirstChild(assets, j)
  {
    if j > i + 1 {
      ChildrenBlocksOrdered(assets, i, j - 1);
    }
  }

  /** A module reached through two dependency occurrences, whether from the
      same parent or from different ones, is loaded twice: two assets at two
      positions with two ids, identical apart from the id. */
  lemma ModuleReachedTwice(h: Host, path: string, assets: seq<Asset>, i1: nat, k1: nat, i2: nat, k2: nat)
    requires BreadthFirst(h, path, assets) && i1 <= i2 < |assets|
    requires k1 < |assets[i1].dependencies| && k2 < |assets[i2].dependencies|
    requires i1 < i2 || k1 < k2
    requires h.parent(assets[i1].filename).Some? && h.parent(assets[i2].filename).Some?
    requires h.toStr(h.join(h.parent(assets[i1].filename).value, assets[i1].dependencies[k1]))
          == h.toStr(h.join(h.parent(assets[i2].filename).value, assets[i2].dependencies[k2]))
    ensures var p1, p2 := FirstChild(assets, i1) + k1, FirstChild(assets, i2) + k2;
      && p1 < p2 < |assets|
      && assets[p1].id != assets[p2].id
      && assets[p1].filename == assets[p2].filename
      && assets[p1].dependencies == assets[p2].dependencies
      && assets[p1].code == assets[p2].code
  {
    var a1, a2 := assets[i1], assets[i2];
    var p1, p2 := FirstChild(assets, i1) + k1, FirstChild(assets, i2) + k2;
    if i1 < i2 {
      ChildrenBlocksOrdered(assets, i1, i2);
    }
    ChildrenConsecutive(h, path, assets, i1, k1);
    ChildrenConsecutive(h, path, assets, i2, k2);
    var dir1, dir2 := h.parent(a1.filename).value, h.parent(a2.filename).value;
    var target := h.toStr(h.join(dir1, a1.dependencies[k1]));
    assert target.Some?;
    ChildAssetAt(h, a1.filename, a1.dependencies[k1], p1, dir1, target.value);
    ChildAssetAt(h, a2.filename, a2.dependencies[k2], p2, dir2, target.value);
    CreateAssetIgnoresId(h, target.value, p1, p2);
  }
}
