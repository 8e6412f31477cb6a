/**
 * The application state behind the window: the text of the input field and the
 * three result labels, together with the four button handlers that read the
 * input and update the labels in place.
 */
module Analyzer {
  import opened Wrappers
  import opened Dna
  import opened Markers

  /** The error every analysis handler signals when the input is not valid DNA. */
  const InvalidDnaMessage: string := "Invalid DNA sequence. Only 'A', 'T', 'C', 'G' are allowed."

  /**
   * What the GC label shows: a fixed caption, or the GC percentage of the last valid
   * input (displayed as "GC Content: <percent>%", the percent kept here as an exact rational).
   */
  datatype GcLabel = GcCaption(text: string) | GcShown(percent: real)

  const GcInitial: GcLabel := GcCaption("GC Content: ")
  const RnaInitial: string := "RNA Sequence: "
  const DisorderInitial: string := "Genetic Disorders: "

  class AnalyzerWindow {
    /** The gene database the window scans; it is fixed when the window is built. */
    const database: seq<GeneInfo>
    /** Text of the DNA entry field. */
    var input: string
    var gcLabel: GcLabel
    var rnaLabel: string
    var disorderLabel: string

    /**
     * The window scans the declared gene database. The constructor establishes it, and
     * since `database` is immutable it holds for the window's whole life; a caller handed
     * a window states it as `w.Valid()` to learn which table the handlers scan.
     */
    predicate Valid() {
      database == GeneDatabase
    }

    /** The window as built: an empty entry and the three captions. */
    predicate IsInitial()
      reads this
    {
      input == "" && gcLabel == GcInitial && rnaLabel == RnaInitial && disorderLabel == DisorderInitial
    }

    constructor ()
      ensures Valid()
      ensures IsInitial()
    {
      database := GeneDatabase;
      input := "";
      gcLabel := GcInitial;
      rnaLabel := RnaInitial;
      disorderLabel := DisorderInitial;
    }

    /** The user replaces the content of the entry field; no label changes. */
    method EnterText(text: string)
      modifies this
      ensures input == text
      ensures gcLabel == old(gcLabel) && rnaLabel == old(rnaLabel) && disorderLabel == old(disorderLabel)
    {
      input := text;
    }

    /**
     * "Calculate GC Content": on invalid input signal the error and change nothing;
     * otherwise show the GC percentage of the upper-cased input and touch no other label.
     */
    method CalculateGcContent() returns (error: Option<string>)
      modifies this
      ensures input == old(input) && rnaLabel == old(rnaLabel) && disorderLabel == old(disorderLabel)
      ensures !IsValidDna(old(input)) ==> error == Some(InvalidDnaMessage) && gcLabel == old(gcLabel)
      ensures IsValidDna(old(input)) ==>
        error == None && |input| > 0 && gcLabel == GcShown(GcPercent(UpperString(input)))
    {
      var sequence := UpperString(input);
      ValidDnaOfUpper(input);
      if !IsValidDna(sequence) {
        return Some(InvalidDnaMessage);
      }
      gcLabel := GcShown(GcPercent(sequence));
      error := None;
    }

    /**
     * "Transcribe DNA to RNA": on invalid input signal the error and change nothing;
     * otherwise show the transcription of the upper-cased input and touch no other label.
     */
    method TranscribeDnaToRna() returns (error: Option<string>)
      modifies this
      ensures input == old(input) && gcLabel == old(gcLabel) && disorderLabel == old(disorderLabel)
      ensures !IsValidDna(old(input)) ==> error == Some(InvalidDnaMessage) && rnaLabel == old(rnaLabel)
      ensures IsValidDna(old(input)) ==>
        error == None && rnaLabel == "RNA Sequence: " + Transcribe(UpperString(input))
    {
      var sequence := UpperString(input);
      ValidDnaOfUpper(input);
      if !IsValidDna(sequence) {
        return Some(InvalidDnaMessage);
      }
      var rna := Transcribe(sequence);
      rnaLabel := "RNA Sequence: " + rna;
      error := None;
    }

    /**
     * "Detect Genetic Disorders": on invalid input signal the error and change nothing;
     * otherwise scan the gene database in declared order and show the report of the
     * first marker occurring in the upper-cased input, or the no-match text.
     * The scanned table is `database`, which is `GeneDatabase` on every window (`Valid`).
     */
    method DetectGeneticDisorders() returns (error: Option<string>)
      modifies this
      ensures input == old(input) && gcLabel == old(gcLabel) && rnaLabel == old(rnaLabel)
      ensures !IsValidDna(old(input)) ==> error == Some(InvalidDnaMessage) && disorderLabel == old(disorderLabel)
      ensures IsValidDna(old(input)) ==>
        error == None && disorderLabel == DetectionReport(database, UpperString(input))
    {
      var sequence := UpperString(input);
      ValidDnaOfUpper(input);
      if !IsValidDna(sequence) {
        return Some(InvalidDnaMessage);
      }
      var found := AnyMarkerOccurs(database, sequence);
      if found {
        AnyMarkerIffFirstMatch(database, sequence);
        var i := 0;
        while i < |database|
          invariant 0 <= i <= |database|
          invariant forall j :: 0 <= j < i ==> !IsSubstring(database[j].marker, sequence)
          invariant input == old(input) && gcLabel == old(gcLabel) && rnaLabel == old(rnaLabel)
          invariant disorderLabel == old(disorderLabel)
        {
          if IsSubstring(database[i].marker, sequence) {
            FirstMatchUnique(database, sequence, i);
            disorderLabel := Report(database[i]);
            break;
          }
          i := i + 1;
        }
      } else {
        disorderLabel := NoMatchReport;
      }
      error := None;
    }

    /** "Clear": empty the entry and restore the three captions the window was built with. */
    method ClearAll()
      modifies this
      ensures IsInitial()
    {
      input := "";
      gcLabel := GcInitial;
      rnaLabel := RnaInitial;
      disorderLabel := DisorderInitial;
    }
  }
}
