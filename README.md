# minipack-rs dependency graph, modelled in Dafny

minipack-rs builds a bundle from a tree of ECMAScript modules. Its one piece
of logic is `create_graph`. Starting from an entry path, it walks the
modules breadth-first over a FIFO queue and gives every asset a number from
a single counter: 0 for the entry, then one fresh number for each
*occurrence* of a dependency specifier. The child's number is recorded in
the parent's `mapping` under the specifier as written. Each child is then
queued, and the finished parent is appended to the result. Each asset is
built by `create_asset`. It reads the file, parses it with swc, takes the
top-level import specifiers (`get_dependencies`), emits CommonJS code and
canonicalizes the path.

The project has six modules:

- `Outcomes` (outcomes.dfy) is the result type. `Ok`, `Err` and `Panic` are
  kept apart, because of the two `unwrap`s in `create_asset`.
  `Err` carries the kind of error and the path the source puts in its error
  context.
- `EcmaAst` (ecma_ast.dfy) is the part of an ECMAScript module body that
  dependency extraction inspects: import declarations, the other module
  declarations and opaque statements.
- `Platform` (platform.dfy) is a `Host` value. It holds the file system,
  swc's parser and emitter, and `Path::canonicalize` / `parent` / `join` /
  `to_str`. Each one is a total function that may report failure.
- `SwcSolution` (swc_solution.dfy) contains `Asset`, `create_asset` and
  `get_dependencies`.
- `GraphBuilder` (graph_builder.dfy) contains `create_graph` as a method with
  the source's counter, queue and result vector. Its inner loop is a method of
  its own, `LoadDependencies`. This module also holds the specification the
  walk is proved against:
  - `BuildSucceeds`: an independent recursive description of when every step
    below the entry succeeds.
  - `BreadthFirst`: the exact shape of the returned vector.
- `GraphProperties` (graph_properties.dfy) holds the consequences of
  `BreadthFirst` for a returned graph.

The source does not deduplicate modules. The model follows the code:

- Every dependency occurrence creates a new asset with a new id. This holds
  for a module reached from two parents and for a specifier repeated in one
  file.
- A dependency cycle makes the source loop forever. The walk is therefore
  modelled for hosts whose dependency relation is well founded. The
  `Ranked(h, rank)` precondition says so: a ghost `rank` strictly decreases
  from every file the host can load to every child its dependencies load,
  whether or not the walk from the entry reaches that file.

A canonical-path cache, cycle-safe deduplication and bundle emission with a
runtime `require` are not in this code, and the model does not add them.

## Model

| member | source | states |
|---|---|---|
| SwcSolution.ImportSources | src/swc_solution.rs:91-103 | the result never has more entries than the body has items, and a string is in the result exactly when an import declaration with that source is an item of the body |
| SwcSolution.GetDependencies | src/swc_solution.rs:91-104 | the dependencies of a module are exactly the sources of its top-level import declarations, in both directions, and there are at most as many of them as there are body items |
| SwcSolution.ImportSourcesAppend | src/swc_solution.rs:92-101 | extraction over two concatenated bodies is the concatenation of the two extractions, so it is an order-preserving filter |
| SwcSolution.NonImportContributesNothing | src/swc_solution.rs:95-100 | inserting any item that is not an import declaration anywhere in a body leaves the dependency list unchanged; this covers exports, re-exports and statements |
| SwcSolution.ImportAt | src/swc_solution.rs:91-101 | the import at body position i yields the entry whose index is the number of imports before i, so source order is kept and no import is skipped |
| SwcSolution.ImportCount | src/swc_solution.rs:91-101 | duplicates are kept: the length of the list equals the number of top-level import declarations |
| SwcSolution.CreateAsset | src/swc_solution.rs:48-67 | a read failure is `Err(IoError)`, a parse failure `Err(ParseError(filepath))` and an emit failure `Err(EmitError)`; an asset or a panic arises exactly when read, parse and emit all succeed; after that, a canonicalize failure panics at `CanonicalizeFailed` and a non-UTF-8 canonical path at `CanonicalNotUtf8`; the result is an asset exactly when all five steps succeed; a returned asset has the given id and an empty mapping; its dependencies are those of the parsed module, its code is the emitted code and its filename is the UTF-8 form of the canonical path |
| SwcSolution.CreateAssetIgnoresId | src/swc_solution.rs:48-67 | the id argument affects nothing but the id: success, the error or panic, and all other fields are the same for every id |
| GraphBuilder.ChildAsset | src/main.rs:38-51 | a file without a parent directory, or a joined path that is not UTF-8, yields `Err(NoDirname(filename))`; a loaded child has the id it was given and an empty mapping |
| GraphBuilder.ChildAssetIgnoresId | src/main.rs:43-51 | loading the child of a specifier succeeds or fails the same way for every id, and two successful loads differ only in the id |
| GraphBuilder.MappingForMeaning | src/main.rs:43-53 | after the first k insertions the mapping's keys are exactly the first k specifiers, and a repeated specifier maps to the id of its last occurrence |
| GraphBuilder.MappingForSource | src/main.rs:43-53 | every key of the mapping was inserted for the last occurrence j of that specifier, and its value is the first child's id plus j |
| GraphBuilder.LoadDependencies | src/main.rs:43-58 | on success the asset is unchanged except for its mapping; the mapping is the reference mapping; there is one child per dependency, and the child for dependency k has id `id + k` and is loaded from the parent directory joined with that specifier. On failure, some step below the asset fails in `Completes` |
| GraphBuilder.CreateGraph | src/main.rs:26-63 | the result is `Ok` exactly when `BuildSucceeds`. Then the vector is `BreadthFirst`: the entry comes first, ids equal positions, the length is 1 plus the total number of dependency entries, and the children of each asset are resolved at consecutive positions after the children of all earlier assets, with the mapping built by one insertion per dependency. A failure to load the entry is returned unchanged |
| GraphProperties.MappingKeys | src/main.rs:43-53 | in a returned graph, the mapping keys of every asset are exactly its specifiers, and a repeated specifier maps to the child made for its last occurrence |
| GraphProperties.MappingTarget | src/main.rs:38-59 | every mapping value of asset i lies strictly between i and the length of the vector; the asset there has that id and is what `create_asset` gives for the parent directory of asset i joined with the specifier |
| GraphProperties.ChildrenConsecutive | src/main.rs:43-57 | the child for dependency k of asset i sits at position and id `FirstChild(i) + k`, after i and inside the vector, and it is the asset loaded for that specifier |
| GraphProperties.ChildrenBlocksOrdered | src/main.rs:37-59 | the children of an earlier asset all come before the children of a later asset |
| GraphProperties.DuplicateSpecifierKept | src/main.rs:43-58 | a specifier listed twice yields two assets with different ids that agree on filename, dependencies and code, and the mapping keeps only the later one |
| GraphProperties.ModuleReachedTwice | src/main.rs:43-58 | two dependency occurrences that resolve to the same path yield two assets at two positions with two ids. This holds whether they come from the same parent or from different parents, and the two assets agree on filename, dependencies and code |

## Left out

- The swc parser, the CommonJS transform and the code emitter are opaque `Host` functions. This covers `get_ast` and `emit_common_js` (src/swc_solution.rs:77-89, 106-142). A syntax tree is modelled only as far as the list of top-level items.
- The `unwrap` of `String::from_utf8` on the emitter's output (src/swc_solution.rs:133) is not modelled. The host's `emit` either returns a string or fails with `EmitError`.
- File reading (`read_code_to_string`) and `Path::canonicalize`, `parent`, `join` and `to_str` are `Host` functions that may fail. Apart from failing or not, the model fixes nothing about what they return.
- The file system is taken not to change during one build. The `Host` fields are functions, so reading, parsing, emitting and canonicalizing the same path give the same result every time. The source reads and canonicalizes the file again for every dependency occurrence (src/main.rs:51, src/swc_solution.rs:49, 61), so a file changed in the middle of a build is not described. CreateAssetIgnoresId, DuplicateSpecifierKept and ModuleReachedTwice ("agree on filename, dependencies and code") rely on this.
- `Display` for `Asset`, the printing in `run_for_path` and the argument handling in `main` are output and command-line plumbing. They are not modelled.
- The text of the anyhow error chain is reduced to the error kind plus the path in its context message. `GraphError` and the wrapped I/O errors are not distinguished further.
- `usize` overflow of the id counter is not modelled. Ids are unbounded naturals, and an overflow would need more than `usize::MAX` dependency occurrences.
- CreateGraph: requires `Ranked(h, rank)`, a well-founded dependency relation over the whole host, not only over the files reachable from the entry. On a cycle the entry reaches, the source never returns. A host that holds a cycle anywhere, even one the entry never reaches, is also excluded, although the source's walk stops normally there. For such hosts the model says nothing.
- CreateGraph: on failure it states that some step fails, and it gives the exact error only when the entry itself fails to load. It does not say which of several failing steps the breadth-first order reaches first.
- LoadDependencies: the source pushes each child onto the queue as soon as it is loaded. The model returns the children and appends them together after the inner loop. The queue only matters once the loop has finished, and an error discards it, so the two orders agree.
- LoadDependencies: on failure it states that the subtree does not complete, not which error it returns. The body returns `Err(NoDirname(filename))` for a non-UTF-8 joined path and passes on `create_asset`'s failure otherwise.
