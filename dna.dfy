/**
 * The pure string logic of the analyzer: validation of a DNA sequence,
 * upper-casing, base counts and GC content, and DNA-to-RNA transcription.
 */
module Dna {

  /** One of the four DNA bases, the alphabet the validator accepts after upper-casing. */
  predicate IsBase(c: char) {
    c == 'A' || c == 'T' || c == 'C' || c == 'G'
  }

  /** Guanine or cytosine. */
  predicate IsGc(c: char) {
    c == 'G' || c == 'C'
  }

  // ---------------------------------------------------------------------------
  // Upper-casing (ASCII letters only)
  // ---------------------------------------------------------------------------

  /** Upper-case one character: `a`..`z` become `A`..`Z`, everything else is kept. */
  function Upper(c: char): char {
    if 'a' <= c <= 'z' then (c as int - 32) as char else c
  }

  /** Upper-case a string character by character. */
  function UpperString(s: string): (r: string)
    ensures |r| == |s|
    ensures forall i :: 0 <= i < |s| ==> r[i] == Upper(s[i])
  {
    if s == [] then [] else [Upper(s[0])] + UpperString(s[1..])
  }

  /** An upper-cased character is a base exactly when the original is a base in either case. */
  lemma UpperIsBase(c: char)
    ensures IsBase(Upper(c)) <==> c in "ATCGatcg"
  {
  }

  /** Upper-casing twice is upper-casing once. */
  lemma UpperStringIdempotent(s: string)
    ensures UpperString(UpperString(s)) == UpperString(s)
  {
  }

  // ---------------------------------------------------------------------------
  // Validation
  // ---------------------------------------------------------------------------

  /** Every character of `t` is one of the four bases. */
  function AllBases(t: string): (r: bool)
    ensures r <==> forall i :: 0 <= i < |t| ==> IsBase(t[i])
  {
    if t == [] then true else IsBase(t[0]) && AllBases(t[1..])
  }

  /** A sequence is valid DNA when it is non-empty and every character, upper-cased, is a base. */
  function IsValidDna(s: string): (ok: bool)
    ensures ok <==> |s| > 0 && forall i :: 0 <= i < |s| ==> IsBase(Upper(s[i]))
  {
    |s| > 0 && AllBases(UpperString(s))
  }

  /** Validation is case-insensitive: it accepts exactly the non-empty strings over `ATCGatcg`. */
  lemma ValidDnaIffBaseLetters(s: string)
    ensures IsValidDna(s) <==> |s| > 0 && forall i :: 0 <= i < |s| ==> s[i] in "ATCGatcg"
  {
  }

  /** Concrete verdicts: a foreign letter and the empty string are rejected, lower case is accepted. */
  lemma ValidationExamples()
    ensures !IsValidDna("ATXG")
    ensures !IsValidDna("")
    ensures IsValidDna("atcg")
  {
  }

  /** The handlers upper-case the input before validating it; that does not change the verdict. */
  lemma ValidDnaOfUpper(s: string)
    ensures IsValidDna(UpperString(s)) == IsValidDna(s)
  {
  }

  /** An upper-cased valid sequence consists of the four bases only. */
  lemma UpperValidIsBases(s: string)
    requires IsValidDna(s)
    ensures forall i :: 0 <= i < |s| ==> IsBase(UpperString(s)[i])
  {
  }

  // ---------------------------------------------------------------------------
  // GC content
  // ---------------------------------------------------------------------------

  /** The number of positions of `s` that hold `c`. */
  function Count(s: string, c: char): (n: nat)
    ensures n <= |s|
    ensures n == 0 <==> forall i :: 0 <= i < |s| ==> s[i] != c
  {
    if s == [] then 0 else (if s[0] == c then 1 else 0) + Count(s[1..], c)
  }

  /** The count is the multiplicity of `c` in the multiset of the characters of `s`. */
  lemma {:induction false} CountIsMultiplicity(s: string, c: char)
    ensures Count(s, c) == multiset(s)[c]
  {
    if s != [] {
      assert s == [s[0]] + s[1..];
      CountIsMultiplicity(s[1..], c);
    }
  }

  /** The number of G plus the number of C, as the GC computation adds them. */
  function GcCount(s: string): nat {
    Count(s, 'G') + Count(s, 'C')
  }

  /**
   * The GC count never exceeds the length; it equals the length exactly when every
   * position is G or C, and it is zero exactly when no position is.
   */
  lemma {:induction false} GcCountBounds(s: string)
    ensures GcCount(s) <= |s|
    ensures GcCount(s) == |s| <==> forall i :: 0 <= i < |s| ==> IsGc(s[i])
    ensures GcCount(s) == 0 <==> forall i :: 0 <= i < |s| ==> !IsGc(s[i])
  {
    if s != [] {
      var t := s[1..];
      GcCountBounds(t);
      assert forall i :: 0 <= i < |t| ==> t[i] == s[i + 1];
      assert GcCount(s) == (if IsGc(s[0]) then 1 else 0) + GcCount(t);
      if forall i :: 0 <= i < |s| ==> IsGc(s[i]) {
        assert forall i :: 0 <= i < |t| ==> IsGc(t[i]);
      }
      if forall i :: 0 <= i < |s| ==> !IsGc(s[i]) {
        assert forall i :: 0 <= i < |t| ==> !IsGc(t[i]);
      }
    }
  }

  /**
   * The GC percentage of a non-empty sequence, as an exact rational: the GC count
   * divided by the length, times 100. It lies in [0, 100], is 100 exactly when every
   * base is G or C and 0 exactly when none is.
   */
  function GcPercent(s: string): (p: real)
    requires |s| > 0
    ensures 0.0 <= p <= 100.0
    ensures p == 100.0 <==> forall i :: 0 <= i < |s| ==> IsGc(s[i])
    ensures p == 0.0 <==> forall i :: 0 <= i < |s| ==> !IsGc(s[i])
  {
    GcCountBounds(s);
    RatioPercentBounds(GcCount(s), |s|);
    (GcCount(s) as real / |s| as real) * 100.0
  }

  /** Arithmetic helper for GcPercent: g / n * 100 lies in [0, 100], is 100 iff g == n and 0 iff g == 0. */
  lemma RatioPercentBounds(g: nat, n: nat)
    requires 0 < n && g <= n
    ensures 0.0 <= (g as real / n as real) * 100.0 <= 100.0
    ensures (g as real / n as real) * 100.0 == 100.0 <==> g == n
    ensures (g as real / n as real) * 100.0 == 0.0 <==> g == 0
  {
  }

  /** Concrete percentages for half, all and no G/C bases. */
  lemma GcPercentExamples()
    ensures GcPercent("ATCG") == 50.0
    ensures GcPercent("GGCC") == 100.0
    ensures GcPercent("AATT") == 0.0
  {
  }

  // ---------------------------------------------------------------------------
  // Transcription
  // ---------------------------------------------------------------------------

  /** Replace every `T` by `U`, leaving every other character in place. */
  function Transcribe(s: string): (r: string)
    ensures |r| == |s|
    ensures forall i :: 0 <= i < |s| ==> r[i] == (if s[i] == 'T' then 'U' else s[i])
  {
    if s == [] then [] else [if s[0] == 'T' then 'U' else s[0]] + Transcribe(s[1..])
  }

  /** No `T` survives transcription. */
  lemma TranscribeRemovesT(s: string)
    ensures 'T' !in Transcribe(s)
  {
  }

  /** Transcribing an already transcribed sequence changes nothing. */
  lemma TranscribeIdempotent(s: string)
    ensures Transcribe(Transcribe(s)) == Transcribe(s)
  {
  }

  /** The four RNA bases. */
  predicate IsRnaBase(c: char) {
    c == 'A' || c == 'U' || c == 'C' || c == 'G'
  }

  /** The RNA of a valid sequence (upper-cased first) consists of RNA bases only. */
  lemma TranscribeValidIsRna(s: string)
    requires IsValidDna(s)
    ensures forall i :: 0 <= i < |s| ==> IsRnaBase(Transcribe(UpperString(s))[i])
  {
  }

  /** Transcription loses nothing on valid input: two valid sequences with the same RNA are equal once upper-cased. */
  lemma TranscribeInjectiveOnValid(s: string, t: string)
    requires IsValidDna(s) && IsValidDna(t)
    requires Transcribe(UpperString(s)) == Transcribe(UpperString(t))
    ensures UpperString(s) == UpperString(t)
  {
  }
}
