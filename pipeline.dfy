/**
 * The step sequencing of `koutput_reads_internal` (src/rust/src/koutput_reads/mod.rs,
 * lines 112-238). Every step that lives outside this file (tag-range conversion, the
 * compression level constructor, the `exclude` conversion, the report reader, the
 * multi-pattern matcher builder, the classifier-output parser and the read processor) is
 * a total function supplied in `Steps`; file paths, batch sizes, queue depth and thread
 * count are passed through untouched in the source, so they are left inside those
 * functions. The method records, in `ran`, which of those steps it invoked.
 */
module KoutputReads {
  import opened Wrappers
  import opened Taxonomy
  import opened Exclude

  /** Rust's `i32`, the type of the `compression_level` argument. */
  newtype i32 = x: int | -0x8000_0000 <= x < 0x8000_0000

  /** The external steps, in the order the source invokes them. */
  datatype Step =
    | TagRanges1        // robj_to_tag_ranges(&ranges1)
    | TagRanges2        // robj_to_tag_ranges(&ranges2)
    | CompressionLevel  // CompressionLvl::new(compression_level)
    | ParseExclude      // robj_to_option_str(&exclude)
    | TaxonomyKreport   // taxonomy_kreport(kreport, taxonomy)
    | BuildMatcher      // AhoCorasick::builder()...build(patterns)
    | ParseKoutput      // koutput::parse_koutput(...)
    | ParseReads        // reads::parse_reads(...)

  /** The error returned, wrapping the failing step's own error `C`. */
  datatype Error<C> =
    | Propagated(cause: C)               // passed on unchanged by `?`
    | InvalidCompressionLevel(cause: C)  // re-raised as "Invalid 'compression_level': ..."
    | ExcludeParseFailed(cause: C)       // given the context "Failed to parse 'exclude'"

  /**
   * The external steps. `R` is the R object type, `T` the tag ranges, `L` the
   * compression level, `M` the built matcher, `V` the per-read record of the classifier
   * output map (keyed by read id).
   */
  datatype Steps<!R, !T, !L, !M, !V, C> = Steps(
    tagRanges: R -> Result<T, C>,
    compressionLvl: i32 -> Result<L, C>,
    optionStr: R -> Result<Option<seq<seq<byte>>>, C>,
    kreport: R -> Result<seq<Report>, C>,
    buildMatcher: seq<seq<byte>> -> Result<M, C>,
    parseKoutput: (set<Taxid>, Option<M>) -> Result<map<seq<byte>, V>, C>,
    parseReads: (map<seq<byte>, V>, T, T, L) -> Result<(), C>)

  /**
   * The optional matcher: none without an `exclude` list, otherwise the matcher built
   * from exactly the patterns of the list (`Option::map` followed by `transpose`).
   */
  ghost function Matcher<R, T, L, M, V, C>(steps: Steps<R, T, L, M, V, C>, exclude: Option<seq<seq<byte>>>): Result<Option<M>, C>
  {
    match exclude
    case None => Ok(None)
    case Some(v) =>
      match steps.buildMatcher(Patterns(v))
      case Ok(m) => Ok(Some(m))
      case Err(e) => Err(e)
  }

  method KoutputReadsInternal<R, T, L, M, V, C>(
    steps: Steps<R, T, L, M, V, C>, taxonomy: R, exclude: R, ranges1: R, ranges2: R, compressionLevel: i32)
    returns (r: Result<(), Error<C>>, ran: seq<Step>)
    // the configuration steps run first, in order, and the first failure is returned at once
    ensures var t1 := steps.tagRanges(ranges1);
      t1.Err? ==> r == Err(Propagated(t1.error)) && ran == [TagRanges1]
    ensures var t1, t2 := steps.tagRanges(ranges1), steps.tagRanges(ranges2);
      t1.Ok? && t2.Err? ==> r == Err(Propagated(t2.error)) && ran == [TagRanges1, TagRanges2]
    ensures var t1, t2, lvl := steps.tagRanges(ranges1), steps.tagRanges(ranges2), steps.compressionLvl(compressionLevel);
      t1.Ok? && t2.Ok? && lvl.Err? ==>
        r == Err(InvalidCompressionLevel(lvl.error)) && ran == [TagRanges1, TagRanges2, CompressionLevel]
    ensures var t1, t2, lvl, ex := steps.tagRanges(ranges1), steps.tagRanges(ranges2),
                                   steps.compressionLvl(compressionLevel), steps.optionStr(exclude);
      t1.Ok? && t2.Ok? && lvl.Ok? && ex.Err? ==>
        r == Err(ExcludeParseFailed(ex.error)) && ran == [TagRanges1, TagRanges2, CompressionLevel, ParseExclude]
    ensures var t1, t2, lvl, ex, rs := steps.tagRanges(ranges1), steps.tagRanges(ranges2),
                                       steps.compressionLvl(compressionLevel), steps.optionStr(exclude), steps.kreport(taxonomy);
      t1.Ok? && t2.Ok? && lvl.Ok? && ex.Ok? && rs.Err? ==>
        r == Err(Propagated(rs.error)) && ran == [TagRanges1, TagRanges2, CompressionLevel, ParseExclude, TaxonomyKreport]
    // once configured: the matcher exists exactly when `exclude` was given, the
    // classifier output is filtered with the include set of the report, and the reads
    // are processed only when some classifier record was kept
    ensures var t1, t2, lvl, ex, rs := steps.tagRanges(ranges1), steps.tagRanges(ranges2),
                                       steps.compressionLvl(compressionLevel), steps.optionStr(exclude), steps.kreport(taxonomy);
      t1.Ok? && t2.Ok? && lvl.Ok? && ex.Ok? && rs.Ok? ==>
        var config := [TagRanges1, TagRanges2, CompressionLevel, ParseExclude, TaxonomyKreport];
        var built := if ex.value.Some? then [BuildMatcher] else [];
        var matcher := Matcher(steps, ex.value);
        if matcher.Err? then
          r == Err(Propagated(matcher.error)) && ran == config + built
        else
          var koutmap := steps.parseKoutput(IncludeSets(rs.value), matcher.value);
          if koutmap.Err? then
            r == Err(Propagated(koutmap.error)) && ran == config + built + [ParseKoutput]
          else if koutmap.value == map[] then
            r == Ok(()) && ran == config + built + [ParseKoutput]
          else
            var processed := steps.parseReads(koutmap.value, t1.value, t2.value, lvl.value);
            ran == config + built + [ParseKoutput, ParseReads] &&
            r == if processed.Ok? then Ok(()) else Err(Propagated(processed.error))
  {
    ran := [TagRanges1];
    var tagRanges1 := steps.tagRanges(ranges1);
    if tagRanges1.Err? {
      return Err(Propagated(tagRanges1.error)), ran;
    }
    ran := ran + [TagRanges2];
    var tagRanges2 := steps.tagRanges(ranges2);
    if tagRanges2.Err? {
      return Err(Propagated(tagRanges2.error)), ran;
    }
    ran := ran + [CompressionLevel];
    var level := steps.compressionLvl(compressionLevel);
    if level.Err? {
      return Err(InvalidCompressionLevel(level.error)), ran;
    }
    ran := ran + [ParseExclude];
    var excludeList := steps.optionStr(exclude);
    if excludeList.Err? {
      return Err(ExcludeParseFailed(excludeList.error)), ran;
    }
    ran := ran + [TaxonomyKreport];
    var kreports := steps.kreport(taxonomy);
    if kreports.Err? {
      return Err(Propagated(kreports.error)), ran;
    }

    var includeSets := IncludeSets(kreports.value);

    var excludeMatcher: Option<M> := None;
    if excludeList.value.Some? {
      var patterns := BuildPatterns(excludeList.value.value);
      ran := ran + [BuildMatcher];
      var built := steps.buildMatcher(patterns);
      if built.Err? {
        return Err(Propagated(built.error)), ran;
      }
      excludeMatcher := Some(built.value);
    }

    ran := ran + [ParseKoutput];
    var koutmap := steps.parseKoutput(includeSets, excludeMatcher);
    if koutmap.Err? {
      return Err(Propagated(koutmap.error)), ran;
    }
    if koutmap.value == map[] {
      return Ok(()), ran;
    }

    ran := ran + [ParseReads];
    var processed := steps.parseReads(koutmap.value, tagRanges1.value, tagRanges2.value, level.value);
    if processed.Err? {
      return Err(Propagated(processed.error)), ran;
    }
    r := Ok(());
  }
}
