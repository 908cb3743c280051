# Tag index and boolean tag search of `knowledge`, modelled in Dafny

`knowledge` reads a tree of Markdown-like documents, extracts each document's
front matter (a `---`-delimited YAML block with a title and tags), keeps an
in-memory index from tag to documents, and answers boolean tag queries. This
project models the sequential logic underneath the program's threads and
channels:

- `domain.dfy`, module `Domain`: the record types (`ArticleRef`, `Metadata`,
  `FileEvent`, `FileOp`, `MetadataEvent`, `Op`) and the expression algebra
  `Exp` with `Reduce`, `Union`, `Inter` and the reduced-set equality `Equal`.
  A reference semantics `Member(e, x)` (is `x` accepted by the boolean formula
  `e`) is the partner every evaluation is proved against.
- `storage.dfy`, module `Storage`: the class `Store` with its one map from
  tag to bucket, the looping `Insert`, and `GetByTag`. `Insert` is proved
  against a closed form `Indexed(idx, tags, m)` of the new map, and the
  properties of an insert are lemmas about that function.
- `uc.dfy`, module `Uc`: `Query`, the lowering `NewExp` from a query to an
  `Exp` over the store's buckets, and `SearchByTag`, which collects the
  reduced set into a sequence without duplicates. A second reference
  semantics, `Matches(idx, q, x)`, says what a query means over the store's
  contents.
- `file_handler.dfy`, module `FileHandler`: `RemoveWhitespace`, the delimiter
  test, and `GetYamlHeader` as the loop the source runs over the lines of a
  file, proved equal to the loop-free definition `YamlHeader`.
- `file_watcher.dfy`, module `FileWatcher`: the translation of `notify`'s
  debounced events to `FileEvent`, with its inverse `Origin`.
- `wrappers.dfy`, module `Wrappers`: `Option`.

Modelling choices:

- A `PathBuf` is a `string`. A file is the sequence of its `BufRead::lines`
  items, each a line without its terminator or a read error (`LineResult`).
- `char::is_whitespace` is written out as Unicode's White_Space property,
  which is the set of characters that Rust function accepts.
- The header buffer is built from the bytes of lines that are already valid
  UTF-8 strings. Their concatenation is valid UTF-8, so the `Err` arm of
  `str::from_utf8` in src/file_handler.rs:83-86 cannot be taken. The model
  concatenates strings directly.
- `Vec::from_iter` over a `HashSet` gives an order that is not specified.
  `SearchByTag` picks the elements in an arbitrary order and promises only
  the set of elements and that none repeats.
- `Store` is single-threaded. The source stores a `DashMap`; here it is one
  `map` field that `Insert` reassigns.
- `Store` has one map from tag to bucket and only `new`, `insert` and
  `get_by_tag`.
- The delimiter test removes whitespace anywhere in the line, not only around
  it, so `- - -` is a delimiter too (`FileHandler.DelimiterAccepts`).
- A first line that is not a delimiter gives the empty header
  (`FileHandler.HeaderNeedsOpening`); what becomes of such a document is
  decided by `yaml_to_meta`, which is not part of this model.
- The store buckets hold `Metadata` values. Dafny sequences are values, so
  the copy `get_by_tag` takes is implicit.

The test `search_comb` (src/uc.rs:111-118) compares the `()` values that two
calls of `sort()` return, so it checks nothing. The union it was meant to
check is proved by `Uc.SearchOr` and `Uc.SearchCombOrExample`.

## Model

| member | source | states |
|---|---|---|
| `Domain.Reduce` | src/domain.rs:69-77 | the reduced set holds exactly the elements the formula accepts: leaf membership, `And` as conjunction, `Or` as disjunction |
| `Domain.Inter` | src/domain.rs:79-84 | the result holds exactly the elements both operands accept, for leaves and for trees that are first reduced |
| `Domain.Union` | src/domain.rs:86-91 | the result holds exactly the elements either operand accepts |
| `Domain.Equal` | src/domain.rs:59-66 | two trees are equal iff their reduced sets are equal, whatever their shape |
| `Domain.ReduceSing` | src/domain.rs:106-111 | reducing a leaf returns its set unchanged |
| `Domain.ReduceOr` | src/domain.rs:113-125 | an `Or` node reduces to the union of its children's reductions |
| `Domain.ReduceAnd` | src/domain.rs:127-139 | an `And` node reduces to the intersection of its children's reductions |
| `Domain.CombinatorsRecurseOnce` | src/domain.rs:79-91 | `union` and `inter` on any arguments equal their leaf/leaf case applied to the two reductions |
| `Domain.NestedExample` | src/domain.rs:141-155 | {1,3} or ({3,1,2} and {3,2,4}) reduces to {1,2,3} |
| `Domain.AndOrBounds` | src/domain.rs:72-75 | an `And` result is a subset of each operand's result; each operand's result is a subset of the `Or` result |
| `Domain.Commutative` | src/domain.rs:72-75 | swapping the operands of `And` or `Or` gives an equal tree |
| `Domain.Associative` | src/domain.rs:72-75 | regrouping three operands of the same operator gives an equal tree |
| `Domain.EqualIsEquivalence` | src/domain.rs:59-66 | tree equality is reflexive, symmetric and transitive |
| `Domain.EqualOnLeaves` | src/domain.rs:62 | on two leaves tree equality is set equality |
| `Domain.ShapesCanDiffer` | src/domain.rs:59-66 | a two-leaf `Or` tree and a single leaf are structurally different but equal |
| `Storage.Store.constructor` | src/storage.rs:10-14 | a new store has no tags, so every lookup returns `None` |
| `Storage.Store.Insert` | src/storage.rs:16-27 | the new map is `Indexed` of the old one; buckets stay non-empty; every tag of `m` has a bucket ending with `m` |
| `Storage.Store.GetByTag` | src/storage.rs:29-34 | `None` exactly for tags that are not keys, otherwise the whole bucket, which is never empty |
| `Storage.Push` | src/storage.rs:18-25 | one loop iteration adds the tag as a key and its bucket becomes the old bucket (or none) followed by `m`; every other bucket is unchanged |
| `Storage.PushedPrefixStep` | src/storage.rs:18-25 | one loop iteration over the next tag is one `Push` onto the index built from the tags before it |
| `Storage.PushedIsIndexed` | src/storage.rs:17-26 | pushing `m` tag by tag, in order, yields the closed form `Indexed` |
| `Storage.InsertOutcome` | src/storage.rs:16-27 | from non-empty buckets, an insert keeps buckets non-empty and every inserted tag's bucket ends with `m` |
| `Storage.IndexedStep` | src/storage.rs:18-25 | one loop iteration (push onto an existing bucket, or create the bucket `[m]`) extends the closed form by one tag |
| `Storage.IndexedShort` | src/storage.rs:17-26 | inserting under one or two tags is that many single pushes, in tag order |
| `Storage.IndexedKeys` | src/storage.rs:17-26 | the keys after an insert are the old keys together with the inserted tags |
| `Storage.IndexedBucket` | src/storage.rs:18-25 | each bucket keeps its old contents as a prefix and grows by one copy of `m` per occurrence of its tag in `m.tags` |
| `Storage.IndexedUntouched` | src/storage.rs:17-26 | a tag not in `m.tags` keeps its bucket, or stays absent |
| `Storage.IndexedLast` | src/storage.rs:17-26 | every inserted tag is a key afterwards and its bucket ends with `m` |
| `Storage.IndexedNonEmpty` | src/storage.rs:19-24 | if every bucket was non-empty before an insert, every bucket is non-empty after it |
| `Storage.InsertTwiceStoresTwice` | src/storage.rs:16-27 | inserting the same metadata twice stores it twice: the bucket grows by twice the tag's count and holds `m` in both runs |
| `Uc.NewExp` | src/uc.rs:52-63 | the lowered expression accepts exactly the metadata the query matches over the store's buckets, an unknown tag matching nothing |
| `Uc.Evaluate` | src/uc.rs:66 | the reduced set of the lowered query holds exactly the documents that match the query over the store |
| `Uc.SearchByTag` | src/uc.rs:51-67 | the result holds each matching metadata exactly once and nothing else, so its length is the size of the reduced set; the store is not modified |
| `Uc.SearchAbsentTag` | src/uc.rs:54-57 | a leaf whose tag is not in the store yields the empty result |
| `Uc.SearchPresentTag` | src/uc.rs:54-57 | a leaf whose tag is in the store yields exactly the distinct elements of its bucket |
| `Uc.SearchOr` | src/uc.rs:58-66 | an `Or` query yields the union of its two sub-queries' results |
| `Uc.SearchAnd` | src/uc.rs:58-66 | an `And` query yields the intersection of its two sub-queries' results |
| `Uc.ResultInLeafBucket` | src/uc.rs:54-62 | metadata matched by a query lies in the bucket of some tag at one of the query's leaves |
| `Uc.SearchWithinLeafBuckets` | src/uc.rs:51-66 | every search result lies in the bucket of some tag at one of the query's leaves |
| `Uc.CombIndexContents` | src/uc.rs:103-109 | inserting the three test documents gives `tag_0` the bucket [m0, m2] and `tag_1` the bucket [m1, m2] |
| `Uc.SearchSingExample` | src/uc.rs:88-97 | on the store holding `M0` and `M1`, an unknown tag evaluates to the empty set, `tag_0` to `{M0}` and `tag_1` to `{M1}` |
| `Uc.SearchSingOn` | src/uc.rs:94-97 | on the buckets `tag_0: [M0]` and `tag_1: [M1]` the three searches return exactly `[]`, `[M0]` and `[M1]` |
| `Uc.SearchSingResults` | src/uc.rs:87-99 | a new store, `M0` and `M1` inserted, then the three searches return exactly the vectors the test expects: `[]`, `[M0]`, `[M1]` |
| `Uc.SearchCombOrExample` | src/uc.rs:111-118 | on that store `tag_0 Or tag_1` finds all three documents, each once |
| `Uc.SearchCombAndExample` | src/uc.rs:120-126 | on that store `tag_0 And tag_1` finds only the document filed under both tags |
| `FileHandler.RemoveWhitespace` | src/file_handler.rs:89-91 | the output is never longer than the input |
| `FileHandler.RemoveWhitespaceClean` | src/file_handler.rs:89-91 | the output contains no whitespace character |
| `FileHandler.RemoveWhitespaceAppend` | src/file_handler.rs:89-91 | removal distributes over concatenation, so kept characters stay in their order |
| `FileHandler.RemoveWhitespaceKeeps` | src/file_handler.rs:89-91 | a string without whitespace is returned unchanged |
| `FileHandler.RemoveWhitespaceIdempotent` | src/file_handler.rs:89-91 | removing whitespace twice equals removing it once |
| `FileHandler.RemoveWhitespaceCounts` | src/file_handler.rs:89-91 | each non-whitespace character occurs as often in the output as in the input; whitespace characters do not occur |
| `FileHandler.RemoveWhitespaceChar` | src/file_handler.rs:90 | a single character is dropped exactly when it is whitespace |
| `FileHandler.IsDelimiter` | src/file_handler.rs:62 | the delimiter test; a line that passes has at least three characters |
| `FileHandler.DelimiterShape` | src/file_handler.rs:62 | a line passes the delimiter test exactly when it holds three dashes and every other character is whitespace |
| `FileHandler.DelimiterIgnoresWhitespace` | src/file_handler.rs:62 | three dashes separated and surrounded by any whitespace pass the delimiter test |
| `FileHandler.DelimiterPlain` | src/file_handler.rs:62 | the bare line `---` passes the delimiter test |
| `FileHandler.DelimiterAccepts` | src/file_handler.rs:62 | `  ---  ` and `- - -` pass the delimiter test |
| `FileHandler.DelimiterRejects` | src/file_handler.rs:62 | `----`, `--`, the empty line and `rest` fail the delimiter test |
| `FileHandler.Body` | src/file_handler.rs:59-74 | the body is the leading run of lines that were read and are not delimiters, and the line after it is not such a line |
| `FileHandler.GetYamlHeader` | src/file_handler.rs:55-87 | the loop with the `copy_yaml` flag returns `YamlHeader` of the lines: the body after an opening delimiter on line 0, concatenated, else the empty string |
| `FileHandler.HeaderNeedsOpening` | src/file_handler.rs:62-74 | empty input, a read error on line 0 or a first line that is not a delimiter gives the empty header |
| `FileHandler.HeaderIgnoresRest` | src/file_handler.rs:63-72 | opening delimiter, body lines, closing delimiter: the header is the body concatenated without separators, whatever follows |
| `FileHandler.HeaderUnclosed` | src/file_handler.rs:63-71 | without a closing delimiter every line after the opening one is copied |
| `FileHandler.HeaderStopsAtError` | src/file_handler.rs:76-79 | a read error ends the scan; the header is what the lines before it give |
| `FileHandler.HeaderLength` | src/file_handler.rs:55-87 | the header is never longer than the total length of the lines read |
| `FileHandler.HeaderExample` | src/file_handler.rs:117-133 | the lines `---`, `salut`, `---`, `rest` give the header `salut` |
| `FileWatcher.Translate` | src/file_watcher.rs:33-83 | an event is produced exactly for `Create`, `Write`, `Rename` and `Remove`; it carries the notification's first path, and `dst` is present exactly for a move |
| `FileWatcher.TranslateOnto` | src/file_watcher.rs:34-81 | every well-formed `FileEvent` is the translation of its `Origin` notification |
| `FileWatcher.TranslateInjective` | src/file_watcher.rs:34-81 | a notification that produces an event is recovered from that event |
| `FileWatcher.TranslateCases` | src/file_watcher.rs:108-150 | `Create(p)`, `Write(p)`, `Rename(p, q)` and `Remove(p)` map to the events the test expects; `NoticeWrite`, `NoticeRemove`, `Chmod`, `Rescan` and `Error` map to none |

## Left out

- `DashMap` sharding and locking in src/storage.rs: the map is a plain field of a single-threaded object.
- The pipeline wiring `build_graph_start_watcher` (src/uc.rs:16-37), `tree_traverser::watch` and `traverse_tree`, `file_handler::watch` and `metadata_handler::watch`: threads, channels and directory I/O. The last one only calls `Store::insert` once per received event.
- The rest of `file_watcher::watch`: the watcher setup, the debounce interval, the receive loop and the spawned sends, whose completion order is not specified.
- `yaml_to_meta`: it calls the `yaml_rust` parser, which is not part of this model, and panics when the YAML, `title` or `tags` is missing.
- `get_metadata` and `get_article_content`: file opening and reading.
- `Metadata::new` and `ArticleRef::new`: field-by-field constructors, written as the datatype constructors.
- The payload of `notify`'s `Error` event: only the optional path is kept.
- src/metadata_extractor.rs, the HTTP layer (src/api.rs, src/api/), src/main.rs, src/conf.rs, src/walker.rs, src/walker/local.rs and src/uc/graph.rs: file-system metadata, serving, start-up and a global store; none of the last three is declared as a module of the crate, and src/uc/graph.rs does not compile.
- Serde, `Hash` and `Ord` derives.
- Path equality by components: Rust compares and hashes `PathBuf` component-wise, so `a//b`, `a/./b` and `a/b/` equal `a/b`, and the `HashSet<Metadata>` of `search_by_tag` (src/uc.rs:55, 66) and `Exp`'s equality merge such documents. The model's `Path` is a string compared character by character, so it merges only identical strings, and it cannot hold a path that is not valid UTF-8.
- Logging: the `info!` call in each of the four translated arms of the event match (src/file_watcher.rs:35-71) and the `println!` of the error when a line cannot be read (src/file_handler.rs:77) are output only and are not modelled.
- `Storage.Store.GetByTag`: does not separately state that the returned bucket is a fresh copy, because Dafny sequences are immutable values.
