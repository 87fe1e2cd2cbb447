# Taxonomy filter set-up of `koutput_reads` (mire)

`koutput_reads_internal` (src/rust/src/koutput_reads/mod.rs) drives the extraction of
classified sequencing reads: it converts its configuration, reads the classifier report,
builds from it the set of taxids whose reads are kept (`include_sets`), builds a
multi-pattern matcher for the hard-excluded taxids, hands both to the classifier-output
parser and, unless that parser kept nothing, hands its result to the read processor.
This project models the parts of that function that are its own logic:

- `taxonomy.dfy` (module `Taxonomy`): the ancestor map, its inversion into the descendant
  map and the union of the descendant sets, as functions over Dafny maps and sets, with
  the hash-map `collect` modelled as a left-to-right fold in which a later entry replaces
  an earlier one with the same taxid. Taxids are the byte strings the code keys its maps
  by, not integers. Lineages are taken as the report gives them; nothing assumes that a
  lineage lists its own taxon, so a taxon is included only through its listed lineage
  and not as descendant-or-self of itself (`Taxonomy.IncludeSelfListed` covers the case
  where the lineage does list it).
- `exclude.dfy` (module `Exclude`): the byte pattern `taxid ++ ":"` for each excluded
  taxid, built in a buffer of capacity `|taxid| + 1` by copying the taxid and pushing a
  colon, and what such a pattern matches inside the `taxid:count` entries of the k-mer
  map field. Matching is by substring: the pattern of "562" also occurs in "1562:3".
- `pipeline.dfy` (module `KoutputReads`): the order of the fallible steps, the error each
  failure produces, and the early `Ok` when the classifier output map is empty. The
  steps defined in other files appear as total functions in a `Steps` value; the method
  returns, besides the result, the list of steps it invoked.
- `wrappers.dfy` (module `Wrappers`): `Option` and `Result`.

## Model

| member | source | states |
|---|---|---|
| Taxonomy.Collect | src/rust/src/koutput_reads/mod.rs:138-150 | collecting pairs into a hash map gives exactly the keys of the pairs |
| Taxonomy.CollectLastWins | src/rust/src/koutput_reads/mod.rs:138-150 | the value kept for a key is the one of the last pair with that key |
| Taxonomy.CollectValueSource | src/rust/src/koutput_reads/mod.rs:138-150 | every key's value comes from the last pair with that key |
| Taxonomy.AncestorKeys | src/rust/src/koutput_reads/mod.rs:138-150 | the ancestor map has exactly the report taxids as keys |
| Taxonomy.AncestorsOfLastReport | src/rust/src/koutput_reads/mod.rs:140-148 | the ancestor set of a taxid holds exactly the lineage entries of its last report entry |
| Taxonomy.AncestorsFromReport | src/rust/src/koutput_reads/mod.rs:138-150 | every ancestor-map key is the taxid of a last report entry whose lineage gives its set |
| Taxonomy.ExampleLastReportWins | src/rust/src/koutput_reads/mod.rs:138-150 | a taxid listed twice keeps the lineage of the later entry |
| Taxonomy.DescendantsInvert | src/rust/src/koutput_reads/mod.rs:154-173 | the descendant map is keyed by the report taxids, and C is a descendant of T iff C is an ancestor-map key whose set holds T |
| Taxonomy.DescendantsWithinReport | src/rust/src/koutput_reads/mod.rs:159-168 | a descendant set holds only report taxids |
| Taxonomy.FlattenMember | src/rust/src/koutput_reads/mod.rs:175-181 | a taxid is in the flattened union iff the set found for some report entry holds it |
| Taxonomy.IncludeSetsMember | src/rust/src/koutput_reads/mod.rs:137-181 | C is included iff C is an ancestor-map key whose set holds some report taxid |
| Taxonomy.IncludeSetsWithinReport | src/rust/src/koutput_reads/mod.rs:175-181 | the include set is a subset of the report taxids |
| Taxonomy.IncludeSelfListed | src/rust/src/koutput_reads/mod.rs:137-181 | a taxid whose last lineage lists it is included |
| Taxonomy.ExampleLineageWithoutSelf | src/rust/src/koutput_reads/mod.rs:137-181 | with lineages that do not list their own taxon, a report top taxon is not included |
| Exclude.PatternShape | src/rust/src/koutput_reads/mod.rs:196-199 | a pattern is the taxid's bytes followed by one colon, of length one more than the taxid |
| Exclude.PatternInjective | src/rust/src/koutput_reads/mod.rs:196-199 | distinct taxids give distinct patterns |
| Exclude.BuildPattern | src/rust/src/koutput_reads/mod.rs:195-200 | the buffer filled by copy and push equals the pattern of the taxid |
| Exclude.BuildPatterns | src/rust/src/koutput_reads/mod.rs:193-201 | one pattern per excluded taxid, in the same order, pattern i being taxid i followed by a colon |
| Exclude.PatternInOwnEntry | src/rust/src/koutput_reads/mod.rs:183-199 | the pattern of a taxid occurs in every `taxid:count` entry of that taxid |
| Exclude.PatternInSuffixEntry | src/rust/src/koutput_reads/mod.rs:183-199 | the pattern of a taxid also occurs in the entry of any longer taxid ending with it |
| Exclude.OccursInContext | src/rust/src/koutput_reads/mod.rs:183-190 | an occurrence in one entry is an occurrence in the whole k-mer field |
| Exclude.ExampleSuffixMatch | src/rust/src/koutput_reads/mod.rs:183-199 | "562:" occurs in "1562:3" |
| KoutputReads.KoutputReadsInternal | src/rust/src/koutput_reads/mod.rs:129-237 | each configuration failure is returned at once with no later step run; no matcher without `exclude`, otherwise one built from exactly its patterns; the classifier output is filtered with the report's include set; an empty classifier map returns `Ok` without processing reads |

## Left out

- The R entry point `koutput_reads`, the `Robj` conversions and the module registration macros: foreign-function glue; the R objects are an opaque type parameter.
- `pprof_koutput_reads`: profiling and file output used only in benchmarks.
- `robj_to_tag_ranges`, `CompressionLvl::new`, `robj_to_option_str`, `taxonomy_kreport`, the Aho-Corasick builder, `koutput::parse_koutput` and `reads::parse_reads`: defined outside this file (or in foreign libraries); each is an arbitrary total function returning a `Result`, so the model covers every behaviour they may have. Which compression levels are valid and what the report reader filters by `taxonomy` are therefore not modelled.
- Matching with the Aho-Corasick automaton itself: foreign library. Only substring occurrence of one pattern is modelled (`Exclude.Occurs`).
- Exclude entries are Rust strings converted with `as_bytes`; the model takes their UTF-8 bytes directly.
- File paths, batch sizes, `chunk_bytes`, `nqueue` and `threads` are passed through unchanged by `koutput_reads_internal`; they live inside the step functions, and the worker threads and queues behind them are not modelled.
- The message printed when the classifier output map is empty: console output.
- Error messages are modelled by which wrapper an error carries (`InvalidCompressionLevel`, `ExcludeParseFailed`), not by their text.
- The hash iteration order of the maps and sets: the results are sets and maps, for which the order does not matter.
