/** One transpiled module (`Asset`), its creation from a path (`create_asset`)
    and the extraction of its static import specifiers (`get_dependencies`). */
module SwcSolution {
  import opened Outcomes
  import opened EcmaAst
  import opened Platform

  /** One module of the graph. `id` is handed out by the builder; `mapping`
      goes from a specifier as written to the id of the asset created for it. */
  datatype Asset = Asset(
    id: nat,
    filename: string,
    dependencies: seq<string>,
    code: string,
    mapping: map<string, nat>)

  // ---------------------------------------------------------------------------
  // get_dependencies

  /** The `src` of every top-level import declaration, in source order. */
  function ImportSources(items: seq<ModuleItem>): (deps: seq<string>)
    ensures |deps| <= |items|
    ensures forall s :: s in deps <==> Decl(Import(s)) in items
  {
    if items == [] then []
    else
      var rest := ImportSources(items[1..]);
      assert items == [items[0]] + items[1..];
      match items[0]
      case Decl(Import(src)) => [src] + rest
      case _ => rest
  }

  function GetDependencies(ast: Module): (deps: seq<string>)
    ensures |deps| <= |ast.body|
    ensures forall s :: s in deps <==> Decl(Import(s)) in ast.body
  {
    ImportSources(ast.body)
  }

  /** Extraction distributes over concatenation of module bodies. */
  lemma {:induction false} ImportSourcesAppend(a: seq<ModuleItem>, b: seq<ModuleItem>)
    ensures ImportSources(a + b) == ImportSources(a) + ImportSources(b)
  {
    if a == [] {
      assert a + b == b;
    } else {
      assert (a + b)[1..] == a[1..] + b;
      ImportSourcesAppend(a[1..], b);
    }
  }

  /** An item that is not an import declaration contributes nothing, wherever
      it stands. */
  lemma NonImportContributesNothing(a: seq<ModuleItem>, x: ModuleItem, b: seq<ModuleItem>)
    requires !x.IsImport()
    ensures ImportSources(a + [x] + b) == ImportSources(a + b)
  {
    ImportSourcesAppend(a + [x], b);
    ImportSourcesAppend(a, [x]);
    ImportSourcesAppend(a, b);
    assert ImportSources([x]) == [] by {
      assert [x][1..] == [];
    }
    assert ImportSources(a) + [] == ImportSources(a);
  }

  /** The import at position `i` of the body yields the specifier at position
      "number of imports before i" of the result: the order of the source is
      kept and no import is skipped. */
  lemma ImportAt(items: seq<ModuleItem>, i: nat)
    requires i < |items| && items[i].IsImport()
    ensures |ImportSources(items[..i])| < |ImportSources(items)|
    ensures ImportSources(items)[|ImportSources(items[..i])|] == items[i].decl.src
  {
    assert items == items[..i] + items[i..];
    ImportSourcesAppend(items[..i], items[i..]);
    assert items[i..][0] == items[i];
  }

  /** The positions of the top-level import declarations of a body. */
  ghost function ImportPositions(items: seq<ModuleItem>): set<nat>
  {
    set i: nat | i < |items| && items[i].IsImport()
  }

  /** Duplicates are kept: there are exactly as many specifiers as import
      declarations. */
  lemma {:induction false} ImportCount(items: seq<ModuleItem>)
    ensures |ImportSources(items)| == |ImportPositions(items)|
  {
    if items == [] {
      assert ImportPositions(items) == {};
    } else {
      var init, x := items[..|items| - 1], items[|items| - 1];
      assert items == init + [x];
      ImportCount(init);
      ImportSourcesAppend(init, [x]);
      assert [x][1..] == [];
      PositionsOfSnoc(init, x);
    }
  }

  lemma PositionsOfSnoc(init: seq<ModuleItem>, x: ModuleItem)
    ensures ImportPositions(init + [x]) ==
      if x.IsImport() then ImportPositions(init) + {|init|} else ImportPositions(init)
    ensures |init| !in ImportPositions(init)
  {
    var items := init + [x];
    forall i: nat | i < |init|
      ensures items[i] == init[i]
    {
    }
  }

  // ---------------------------------------------------------------------------
  // create_asset

  /** Reads, parses and emits the module at `filepath` and records it under
      `id`. A read, parse or emit failure is returned as `Err` before anything
      is built; a path that cannot be canonicalized (or whose canonical form is
      not UTF-8) aborts through `unwrap`, which is only reached once the module
      was read, parsed and emitted. */
  function CreateAsset(h: Host, filepath: string, id: nat): (r: Outcome<Asset>)
    ensures h.read(filepath).None? ==> r == Err(IoError)
    ensures h.read(filepath).Some? && h.parse(h.read(filepath).value).None? ==>
      r == Err(ParseError(filepath))
    ensures
      && h.read(filepath).Some?
      && h.parse(h.read(filepath).value).Some?
      && h.emit(h.parse(h.read(filepath).value).value).None?
      ==> r == Err(EmitError)
    ensures r.Ok? || r.Panic? ==>
      && (h.canonicalize(filepath).None? ==> r == Panic(CanonicalizeFailed))
      && (h.canonicalize(filepath).Some? && h.toStr(h.canonicalize(filepath).value).None? ==>
            r == Panic(CanonicalNotUtf8))
    ensures r.Ok? <==>
      && h.read(filepath).Some?
      && h.parse(h.read(filepath).value).Some?
      && h.emit(h.parse(h.read(filepath).value).value).Some?
      && h.canonicalize(filepath).Some?
      && h.toStr(h.canonicalize(filepath).value).Some?
    ensures r.Ok? ==> r.value.id == id && r.value.mapping == map[]
    ensures r.Ok? || r.Panic? <==>
      && h.read(filepath).Some?
      && h.parse(h.read(filepath).value).Some?
      && h.emit(h.parse(h.read(filepath).value).value).Some?
    ensures r.Ok? ==>
      var ast := h.parse(h.read(filepath).value).value;
      && r.value.dependencies == GetDependencies(ast)
      && r.value.code == h.emit(ast).value
      && h.canonicalize(filepath).Some?
      && h.toStr(h.canonicalize(filepath).value) == Some(r.value.filename)
  {
    match h.read(filepath)
    case None => Err(IoError)
    case Some(content) =>
      match h.parse(content)
      case None => Err(ParseError(filepath))
      case Some(ast) =>
        var dependencies := GetDependencies(ast);
        match h.emit(ast)
        case None => Err(EmitError)
        case Some(code) =>
          match h.canonicalize(filepath)
          case None => Panic(CanonicalizeFailed)
          case Some(canonical) =>
            match h.toStr(canonical)
            case None => Panic(CanonicalNotUtf8)
            case Some(filename) => Ok(Asset(id, filename, dependencies, code, map[]))
  }

  /** The id argument only names the asset: whether creation succeeds, which
      error or panic it ends in, and every other field do not depend on it. */
  lemma CreateAssetIgnoresId(h: Host, filepath: string, i: nat, j: nat)
    ensures CreateAsset(h, filepath, i).Ok? <==> CreateAsset(h, filepath, j).Ok?
    ensures !CreateAsset(h, filepath, i).Ok? ==> CreateAsset(h, filepath, i) == CreateAsset(h, filepath, j)
    ensures CreateAsset(h, filepath, i).Ok? ==>
      CreateAsset(h, filepath, j).value == CreateAsset(h, filepath, i).value.(id := j)
  {
  }
}
