/**
 * The fixed table of known marker sequences and the lookup that reports the
 * first marker, in declared order, that occurs in a sequence.
 */
module Markers {
  import opened Wrappers

  /** One table entry: a marker subsequence and the gene metadata it signals. */
  datatype GeneInfo = GeneInfo(marker: string, gene: string, mutation: string, disorder: string)

  /** The gene database in its declared order; the order decides which entry is reported. */
  const GeneDatabase: seq<GeneInfo> := [
    GeneInfo("AGGAGCTGAGCCGAGCCCGGAGGCAGGAGCAGAGC",
             "BRCA1", "185delAG", "Breast cancer"),
    GeneInfo("ATCTTTGGTGTTTCCCTTGCTATGATTTGTCCAGTTTCTCCTGGATGTGCTGTCCTGGCCTCAGTGATGATAGGCAAG",
             "CFTR", "F508del", "Cystic fibrosis"),
    GeneInfo("ATGGTGCACCTGACTCCTGAGGAGAAGTCTGCCGTTTACTGAA",
             "HBB", "HbS", "Sickle cell disease"),
    GeneInfo("ATGCATGTCAGAGTGGAGTGAGGTCAGGAGGACAGGAGGA",
             "TP53", "R248Q", "Li-Fraumeni syndrome"),
    GeneInfo("GAGTAGTAGTAGTAGTAGTAGTAGTAGTAGTAGTAGTAGTAGTAGTAGTAGTAGTAGTAGTAGTAG",
             "PHEX", "D378Y", "X-linked hypophosphatemia")
  ]

  /** The text shown when no marker of the table occurs in the sequence. */
  const NoMatchReport: string := "No known gene or mutations detected."

  /** `p` occurs in `s` as a contiguous substring. */
  predicate IsSubstring(p: string, s: string) {
    exists i | 0 <= i <= |s| - |p| :: p <= s[i..]
  }

  /** The empty pattern occurs in every string; a pattern longer than the string occurs nowhere. */
  lemma SubstringEdgeCases(p: string, s: string)
    ensures |p| == 0 ==> IsSubstring(p, s)
    ensures |p| > |s| ==> !IsSubstring(p, s)
  {
    if |p| == 0 {
      assert p <= s[0..];
    }
  }

  /** Every string occurs in itself. */
  lemma SubstringOfItself(s: string)
    ensures IsSubstring(s, s)
  {
    assert s <= s[0..];
  }

  /** Some entry of `table` occurs in `s`. */
  function AnyMarkerOccurs(table: seq<GeneInfo>, s: string): (found: bool)
    ensures found <==> exists k :: 0 <= k < |table| && IsSubstring(table[k].marker, s)
  {
    if table == [] then false
    else IsSubstring(table[0].marker, s) || AnyMarkerOccurs(table[1..], s)
  }

  /**
   * The index of the first entry of `table` whose marker occurs in `s`, or None when
   * no marker occurs.
   */
  function FirstMatch(table: seq<GeneInfo>, s: string): (r: Option<nat>)
    ensures r.Some? ==> r.value < |table| && IsSubstring(table[r.value].marker, s)
    ensures r.Some? ==> forall j :: 0 <= j < r.value ==> !IsSubstring(table[j].marker, s)
    ensures r.None? <==> forall k :: 0 <= k < |table| ==> !IsSubstring(table[k].marker, s)
  {
    if table == [] then None
    else if IsSubstring(table[0].marker, s) then Some(0)
    else match FirstMatch(table[1..], s)
      case None => None
      case Some(k) => Some(k + 1)
  }

  /** The membership pre-check and the ordered scan agree: some marker occurs iff a first one is found. */
  lemma AnyMarkerIffFirstMatch(table: seq<GeneInfo>, s: string)
    ensures AnyMarkerOccurs(table, s) <==> FirstMatch(table, s).Some?
  {
  }

  /** Every entry that occurs, and whose predecessors do not, is the one FirstMatch finds. */
  lemma FirstMatchUnique(table: seq<GeneInfo>, s: string, k: nat)
    requires k < |table| && IsSubstring(table[k].marker, s)
    requires forall j :: 0 <= j < k ==> !IsSubstring(table[j].marker, s)
    ensures FirstMatch(table, s) == Some(k)
  {
  }

  /** The three-line report of one table entry. */
  function Report(info: GeneInfo): string {
    "Gene: " + info.gene + "\nMutation: " + info.mutation
      + "\nAssociated disorder: " + info.disorder + "."
  }

  /** The text the disorder label shows for a (validated, upper-cased) sequence scanned against `table`. */
  function DetectionReport(table: seq<GeneInfo>, s: string): string {
    match FirstMatch(table, s)
    case Some(k) => Report(table[k])
    case None => NoMatchReport
  }

  /**
   * The disorder text is the no-match text when no marker occurs, and otherwise the
   * report of the entry that occurs while none before it does.
   */
  lemma DetectionReportMeaning(table: seq<GeneInfo>, s: string)
    ensures (forall k :: 0 <= k < |table| ==> !IsSubstring(table[k].marker, s))
            ==> DetectionReport(table, s) == NoMatchReport
    ensures forall k :: 0 <= k < |table| && IsSubstring(table[k].marker, s)
              && (forall j :: 0 <= j < k ==> !IsSubstring(table[j].marker, s))
              ==> DetectionReport(table, s) == Report(table[k])
  {
    forall k | 0 <= k < |table| && IsSubstring(table[k].marker, s)
        && (forall j :: 0 <= j < k ==> !IsSubstring(table[j].marker, s))
      ensures DetectionReport(table, s) == Report(table[k])
    {
      FirstMatchUnique(table, s, k);
    }
  }

  /** A sequence that is exactly the BRCA1 marker is reported as BRCA1. */
  lemma DetectBrca1()
    ensures FirstMatch(GeneDatabase, "AGGAGCTGAGCCGAGCCCGGAGGCAGGAGCAGAGC") == Some(0)
    ensures GeneDatabase[0].gene == "BRCA1" && GeneDatabase[0].mutation == "185delAG"
    ensures GeneDatabase[0].disorder == "Breast cancer"
    ensures DetectionReport(GeneDatabase, "AGGAGCTGAGCCGAGCCCGGAGGCAGGAGCAGAGC") == Report(GeneDatabase[0])
  {
    var s := "AGGAGCTGAGCCGAGCCCGGAGGCAGGAGCAGAGC";
    SubstringOfItself(s);
    FirstMatchUnique(GeneDatabase, s, 0);
  }

  /** A sequence shorter than every marker matches nothing. */
  lemma DetectNone()
    ensures DetectionReport(GeneDatabase, "AAAAAAAAAA") == NoMatchReport
  {
  }
}
