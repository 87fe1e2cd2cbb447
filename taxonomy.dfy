/**
 * The taxonomy index that `koutput_reads_internal` builds from the classifier report
 * (src/rust/src/koutput_reads/mod.rs, lines 137-181):
 *   taxid_to_ancestors   taxid -> set of the taxids in its report lineage
 *   taxid_to_descendants report taxid T -> set of keys C whose ancestor set holds T
 *   include_sets         the union of all descendant sets
 * Taxids are byte strings; nothing here assumes that a lineage lists its own taxid.
 */
module Taxonomy {

  newtype byte = x: int | 0 <= x < 256

  type Taxid = seq<byte>

  /** One report entry: a taxon and the lineage (`taxids`) the report gives for it. */
  datatype Report = Report(taxid: Taxid, taxids: seq<Taxid>)

  /** Collecting a sequence into a hash set: the set of its elements. */
  function Elements<T>(s: seq<T>): set<T>
  {
    set x | x in s
  }

  /** The taxids of the report entries, duplicates collapsed. */
  function ReportTaxids(reports: seq<Report>): set<Taxid>
  {
    set r | r in reports :: r.taxid
  }

  /**
   * Collecting key/value pairs into a hash map: the pairs are inserted left to right,
   * so a later pair replaces an earlier pair with the same key.
   */
  function Collect<K, V>(pairs: seq<(K, V)>): (m: map<K, V>)
    ensures m.Keys == set p | p in pairs :: p.0
  {
    if |pairs| == 0 then map[]
    else
      var last := pairs[|pairs| - 1];
      var prefix := pairs[..|pairs| - 1];
      assert forall p :: p in pairs ==> p in prefix || p == last;
      Collect(prefix)[last.0 := last.1]
  }

  /** Entry i is the last entry of the sequence with its key. */
  ghost predicate LastWithKey<K, V>(pairs: seq<(K, V)>, i: int)
  {
    0 <= i < |pairs| && forall j :: i < j < |pairs| ==> pairs[j].0 != pairs[i].0
  }

  /** The last pair with a given key decides the value the collected map holds for it. */
  lemma {:induction false} CollectLastWins<K, V>(pairs: seq<(K, V)>, i: int)
    requires LastWithKey(pairs, i)
    ensures pairs[i].0 in Collect(pairs) && Collect(pairs)[pairs[i].0] == pairs[i].1
  {
    if i < |pairs| - 1 {
      var prefix := pairs[..|pairs| - 1];
      assert LastWithKey(prefix, i);
      CollectLastWins(prefix, i);
    }
  }

  /** Every key of the collected map has a last pair, and that pair gave the value. */
  lemma {:induction false} CollectValueSource<K, V>(pairs: seq<(K, V)>, k: K)
    requires k in Collect(pairs)
    ensures exists i :: LastWithKey(pairs, i) && pairs[i].0 == k && pairs[i].1 == Collect(pairs)[k]
  {
    var n := |pairs|;
    if pairs[n - 1].0 == k {
      assert LastWithKey(pairs, n - 1);
    } else {
      var prefix := pairs[..n - 1];
      CollectValueSource(prefix, k);
      var i :| LastWithKey(prefix, i) && prefix[i].0 == k && prefix[i].1 == Collect(prefix)[k];
      assert LastWithKey(pairs, i);
    }
  }

  // ---------------------------------------------------------------------------------
  // taxid_to_ancestors (lines 137-150)

  /** For each report entry, the pair (taxid, set of its lineage entries). */
  function AncestorPairs(reports: seq<Report>): seq<(Taxid, set<Taxid>)>
  {
    seq(|reports|, i requires 0 <= i < |reports| => (reports[i].taxid, Elements(reports[i].taxids)))
  }

  function TaxidToAncestors(reports: seq<Report>): map<Taxid, set<Taxid>>
  {
    Collect(AncestorPairs(reports))
  }

  /** Entry i is the last report entry with its taxid. */
  ghost predicate LastReport(reports: seq<Report>, i: int)
  {
    0 <= i < |reports| && forall j :: i < j < |reports| ==> reports[j].taxid != reports[i].taxid
  }

  /** The ancestor map has exactly the report taxids as keys. */
  lemma AncestorKeys(reports: seq<Report>)
    ensures TaxidToAncestors(reports).Keys == ReportTaxids(reports)
  {
    var pairs := AncestorPairs(reports);
    forall t | t in ReportTaxids(reports) ensures t in TaxidToAncestors(reports) {
      var r :| r in reports && r.taxid == t;
      var i :| 0 <= i < |reports| && reports[i] == r;
      assert pairs[i] in pairs;
    }
  }

  /**
   * The ancestor set of a taxid is exactly the set of entries of the lineage of the last
   * report entry with that taxid (duplicates in the lineage collapse).
   */
  lemma AncestorsOfLastReport(reports: seq<Report>, i: int)
    requires LastReport(reports, i)
    ensures reports[i].taxid in TaxidToAncestors(reports)
    ensures forall a :: a in TaxidToAncestors(reports)[reports[i].taxid] <==> a in reports[i].taxids
  {
    var pairs := AncestorPairs(reports);
    assert LastWithKey(pairs, i);
    CollectLastWins(pairs, i);
  }

  /** Every key of the ancestor map comes from a last report entry with that taxid. */
  lemma AncestorsFromReport(reports: seq<Report>, c: Taxid)
    requires c in TaxidToAncestors(reports)
    ensures exists i :: LastReport(reports, i) && reports[i].taxid == c
                        && TaxidToAncestors(reports)[c] == Elements(reports[i].taxids)
  {
    var pairs := AncestorPairs(reports);
    CollectValueSource(pairs, c);
    var i :| LastWithKey(pairs, i) && pairs[i].0 == c && pairs[i].1 == Collect(pairs)[c];
    forall j | i < j < |reports| ensures reports[j].taxid != reports[i].taxid {
      assert pairs[j].0 == reports[j].taxid;
    }
  }

  // ---------------------------------------------------------------------------------
  // taxid_to_descendants (lines 152-173)

  /** The keys of the ancestor map whose ancestor set holds `taxid` (the filter_map). */
  function Descendants(ancestors: map<Taxid, set<Taxid>>, taxid: Taxid): set<Taxid>
  {
    set c | c in ancestors && taxid in ancestors[c]
  }

  function DescendantPairs(reports: seq<Report>, ancestors: map<Taxid, set<Taxid>>): seq<(Taxid, set<Taxid>)>
  {
    seq(|reports|, i requires 0 <= i < |reports| => (reports[i].taxid, Descendants(ancestors, reports[i].taxid)))
  }

  function TaxidToDescendants(reports: seq<Report>, ancestors: map<Taxid, set<Taxid>>): map<Taxid, set<Taxid>>
  {
    Collect(DescendantPairs(reports, ancestors))
  }

  /**
   * Inversion: the descendant map has a key for every report taxid T, and for every key
   * C of the ancestor map, C is a descendant of T exactly when T is an ancestor of C.
   * The descendant set holds keys of the ancestor map only.
   */
  lemma DescendantsInvert(reports: seq<Report>, ancestors: map<Taxid, set<Taxid>>, t: Taxid)
    requires t in ReportTaxids(reports)
    ensures TaxidToDescendants(reports, ancestors).Keys == ReportTaxids(reports)
    ensures forall c :: c in TaxidToDescendants(reports, ancestors)[t] <==> c in ancestors && t in ancestors[c]
  {
    var pairs := DescendantPairs(reports, ancestors);
    forall u | u in ReportTaxids(reports) ensures u in Collect(pairs) {
      var r :| r in reports && r.taxid == u;
      var i :| 0 <= i < |reports| && reports[i] == r;
      assert pairs[i] in pairs;
    }
    CollectValueSource(pairs, t);
  }

  /** A descendant set never holds a taxid that is absent from the report. */
  lemma DescendantsWithinReport(reports: seq<Report>, t: Taxid)
    requires t in ReportTaxids(reports)
    ensures t in TaxidToDescendants(reports, TaxidToAncestors(reports))
    ensures TaxidToDescendants(reports, TaxidToAncestors(reports))[t] <= ReportTaxids(reports)
  {
    AncestorKeys(reports);
    DescendantsInvert(reports, TaxidToAncestors(reports), t);
  }

  // ---------------------------------------------------------------------------------
  // include_sets (lines 175-181)

  /**
   * For each report entry, look its taxid up in the descendant map (entries without a
   * set are skipped), and union the sets found.
   */
  function Flatten(reports: seq<Report>, descendants: map<Taxid, set<Taxid>>): set<Taxid>
  {
    if reports == [] then {}
    else
      var t := reports[0].taxid;
      (if t in descendants then descendants[t] else {}) + Flatten(reports[1..], descendants)
  }

  /** A taxid is in the union exactly when the set found for some report entry holds it. */
  lemma {:induction false} FlattenMember(reports: seq<Report>, descendants: map<Taxid, set<Taxid>>, c: Taxid)
    ensures c in Flatten(reports, descendants) <==>
            exists i :: 0 <= i < |reports| && reports[i].taxid in descendants && c in descendants[reports[i].taxid]
  {
    if reports != [] {
      FlattenMember(reports[1..], descendants, c);
      if c in Flatten(reports, descendants) && !(reports[0].taxid in descendants && c in descendants[reports[0].taxid]) {
        var i :| 0 <= i < |reports| - 1 && reports[1..][i].taxid in descendants && c in descendants[reports[1..][i].taxid];
        assert reports[i + 1] == reports[1..][i];
      }
      if exists i :: 0 <= i < |reports| && reports[i].taxid in descendants && c in descendants[reports[i].taxid] {
        var i :| 0 <= i < |reports| && reports[i].taxid in descendants && c in descendants[reports[i].taxid];
        if i > 0 {
          assert reports[1..][i - 1] == reports[i];
        }
      }
    }
  }

  /** The set of taxids that `koutput_reads_internal` hands to the classifier-output parser. */
  function IncludeSets(reports: seq<Report>): set<Taxid>
  {
    Flatten(reports, TaxidToDescendants(reports, TaxidToAncestors(reports)))
  }

  /**
   * C is included exactly when C is a report taxid whose ancestor set holds the taxid of
   * some report entry.
   */
  lemma IncludeSetsMember(reports: seq<Report>, c: Taxid)
    ensures c in IncludeSets(reports) <==>
            c in TaxidToAncestors(reports) &&
            exists i :: 0 <= i < |reports| && reports[i].taxid in TaxidToAncestors(reports)[c]
  {
    var ancestors := TaxidToAncestors(reports);
    var descendants := TaxidToDescendants(reports, ancestors);
    FlattenMember(reports, descendants, c);
    if c in IncludeSets(reports) {
      var i :| 0 <= i < |reports| && reports[i].taxid in descendants && c in descendants[reports[i].taxid];
      DescendantsInvert(reports, ancestors, reports[i].taxid);
    }
    if c in ancestors && exists i :: 0 <= i < |reports| && reports[i].taxid in ancestors[c] {
      var i :| 0 <= i < |reports| && reports[i].taxid in ancestors[c];
      assert reports[i].taxid in ReportTaxids(reports);
      DescendantsInvert(reports, ancestors, reports[i].taxid);
    }
  }

  /** Only report taxids are ever included. */
  lemma IncludeSetsWithinReport(reports: seq<Report>)
    ensures IncludeSets(reports) <= ReportTaxids(reports)
  {
    forall c | c in IncludeSets(reports) ensures c in ReportTaxids(reports) {
      IncludeSetsMember(reports, c);
      AncestorKeys(reports);
    }
  }

  /**
   * When the last report entry for a taxid lists that taxid in its own lineage, the
   * taxid is included. (Whether lineages list their own taxon depends on the report
   * parser, which is not part of this model.)
   */
  lemma IncludeSelfListed(reports: seq<Report>, i: int)
    requires LastReport(reports, i)
    requires reports[i].taxid in reports[i].taxids
    ensures reports[i].taxid in IncludeSets(reports)
  {
    AncestorsOfLastReport(reports, i);
    IncludeSetsMember(reports, reports[i].taxid);
  }

  // ---------------------------------------------------------------------------------
  // Two small reports, with taxids written as their ASCII digits

  /** A repeated taxid keeps the lineage of its later entry: "9" listed under "1", then under "2". */
  lemma ExampleLastReportWins()
    ensures TaxidToAncestors([Report([57], [[49]]), Report([57], [[50]])]) == map[[57] := {[50]}]
  {
    var rs := [Report([57], [[49]]), Report([57], [[50]])];
    assert LastReport(rs, 1);
    AncestorsOfLastReport(rs, 1);
    AncestorKeys(rs);
    assert ReportTaxids(rs) == {[57]};
    var m := TaxidToAncestors(rs);
    assert forall a: Taxid :: a in m[[57]] <==> a == [50];
    assert m[[57]] == {[50]};
  }

  /**
   * Taxid "2" with lineage ["1"] and taxid "1000" with lineage ["1", "2"]: only "1000" is
   * included, because no lineage names "2" itself.
   */
  lemma ExampleLineageWithoutSelf()
    ensures IncludeSets([Report([50], [[49]]), Report([49, 48, 48, 48], [[49], [50]])]) == {[49, 48, 48, 48]}
  {
  }
}
