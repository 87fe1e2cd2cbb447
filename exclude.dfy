/**
 * The exclusion patterns of `koutput_reads_internal` (src/rust/src/koutput_reads/mod.rs,
 * lines 183-201). The k-mer map field of a classifier output line is a space-separated
 * list of `taxid:count` entries; each excluded taxid becomes the byte pattern
 * `taxid ++ ":"` that the multi-pattern matcher searches for in that field.
 */
module Exclude {
  import opened Taxonomy

  /** The byte `b':'`. */
  const COLON: byte := 58

  /** The pattern searched for on behalf of one excluded taxid. */
  function Pattern(taxid: seq<byte>): seq<byte>
  {
    taxid + [COLON]
  }

  /** The pattern is the taxid's bytes followed by exactly one colon. */
  lemma PatternShape(taxid: seq<byte>)
    ensures |Pattern(taxid)| == |taxid| + 1
    ensures Pattern(taxid)[..|taxid|] == taxid
    ensures Pattern(taxid)[|taxid|] == COLON
    ensures COLON !in taxid ==> forall k :: 0 <= k < |taxid| ==> Pattern(taxid)[k] != COLON
  {
  }

  /** Distinct excluded taxids give distinct patterns. */
  lemma PatternInjective(a: seq<byte>, b: seq<byte>)
    requires Pattern(a) == Pattern(b)
    ensures a == b
  {
    assert a == Pattern(a)[..|a|];
    assert b == Pattern(b)[..|b|];
  }

  /** Builds one pattern in a buffer of capacity `|taxid| + 1`: copy the taxid, push `':'`. */
  method BuildPattern(taxid: seq<byte>) returns (pattern: seq<byte>)
    ensures pattern == Pattern(taxid)
  {
    var buffer := new byte[|taxid| + 1];
    var i := 0;
    while i < |taxid|
      invariant 0 <= i <= |taxid|
      invariant buffer[..i] == taxid[..i]
    {
      buffer[i] := taxid[i];
      i := i + 1;
    }
    buffer[|taxid|] := COLON;
    pattern := buffer[..];
  }

  /** The patterns for a list of excluded taxids, one per taxid and in the same order. */
  function Patterns(exclude: seq<seq<byte>>): seq<seq<byte>>
  {
    seq(|exclude|, i requires 0 <= i < |exclude| => Pattern(exclude[i]))
  }

  /** Maps every excluded taxid to its pattern, keeping their order. */
  method BuildPatterns(exclude: seq<seq<byte>>) returns (patterns: seq<seq<byte>>)
    ensures |patterns| == |exclude|
    ensures forall i :: 0 <= i < |exclude| ==> patterns[i] == exclude[i] + [COLON]
    ensures patterns == Patterns(exclude)
  {
    patterns := [];
    var i := 0;
    while i < |exclude|
      invariant 0 <= i <= |exclude|
      invariant |patterns| == i
      invariant forall k :: 0 <= k < i ==> patterns[k] == Pattern(exclude[k])
    {
      var pattern := BuildPattern(exclude[i]);
      patterns := patterns + [pattern];
      i := i + 1;
    }
  }

  // ---------------------------------------------------------------------------------
  // What a pattern matches

  /** One `taxid:count` entry of the k-mer map field. */
  function KmerEntry(taxid: seq<byte>, count: seq<byte>): seq<byte>
  {
    taxid + [COLON] + count
  }

  /** `p` occurs in `s` starting at position `k`. */
  ghost predicate OccursAt(p: seq<byte>, s: seq<byte>, k: int)
  {
    0 <= k <= |s| - |p| && s[k..k + |p|] == p
  }

  /** `p` occurs somewhere in `s` as a contiguous run of bytes. */
  ghost predicate Occurs(p: seq<byte>, s: seq<byte>)
  {
    exists k :: OccursAt(p, s, k)
  }

  /** The pattern of a taxid occurs in every entry for that taxid. */
  lemma PatternInOwnEntry(taxid: seq<byte>, count: seq<byte>)
    ensures Occurs(Pattern(taxid), KmerEntry(taxid, count))
  {
    assert OccursAt(Pattern(taxid), KmerEntry(taxid, count), 0);
  }

  /**
   * Matching is by substring, not by entry: the pattern of a taxid also occurs in the
   * entry of every longer taxid that ends with it (the pattern of "562" occurs in "1562:3").
   */
  lemma PatternInSuffixEntry(taxid: seq<byte>, other: seq<byte>, count: seq<byte>)
    requires |taxid| < |other| && other[|other| - |taxid|..] == taxid
    ensures taxid != other
    ensures Occurs(Pattern(taxid), KmerEntry(other, count))
  {
    var k := |other| - |taxid|;
    var entry := KmerEntry(other, count);
    assert entry[k..k + |Pattern(taxid)|] == Pattern(taxid);
    assert OccursAt(Pattern(taxid), entry, k);
  }

  /** An occurrence in one entry is an occurrence in any field that contains the entry. */
  lemma OccursInContext(p: seq<byte>, s: seq<byte>, before: seq<byte>, after: seq<byte>)
    requires Occurs(p, s)
    ensures Occurs(p, before + s + after)
  {
    var k :| OccursAt(p, s, k);
    var field := before + s + after;
    assert field[|before| + k..|before| + k + |p|] == s[k..k + |p|];
    assert OccursAt(p, field, |before| + k);
  }

  /** The pattern "562:" of excluded taxid "562" occurs in the entry "1562:3" of taxid "1562". */
  lemma ExampleSuffixMatch()
    ensures Occurs(Pattern([53, 54, 50]), KmerEntry([49, 53, 54, 50], [51]))
  {
    PatternInSuffixEntry([53, 54, 50], [49, 53, 54, 50], [51]);
  }
}
