# Gene Sequence Analyzer — a Dafny model

The Gene Sequence Analyzer is a small desktop tool. The user types a DNA sequence into
one entry field and presses one of four buttons:

- "Calculate GC Content" shows the percentage of G and C bases.
- "Transcribe DNA to RNA" shows the sequence with every `T` replaced by `U`.
- "Detect Genetic Disorders" scans a fixed table of five marker sequences in declared
  order. It shows the gene, mutation and disorder of the first marker that occurs in
  the input, or a fixed no-match text.
- "Clear" empties the field and restores the three result captions.

Each analysis first upper-cases the input and validates it. A valid sequence is
non-empty, and each of its characters, upper-cased, is one of `A`, `T`, `C`, `G`. On
invalid input the handler shows an error message and changes nothing.

The model has four modules:

- `Wrappers` (`wrappers.dfy`): the `Option` datatype.
- `Dna` (`dna.dfy`): the pure string logic. It covers ASCII upper-casing, validation,
  base counts, the GC percentage as an exact rational (`real`) and transcription.
- `Markers` (`markers.dfy`): the gene database as an ordered `seq` of records in
  declared order, substring containment, the `any` pre-check, the first-match scan as
  a specification function, and the report texts.
- `Analyzer` (`analyzer.dfy`): the window state as a class `AnalyzerWindow`. Its fields
  are `input`, `gcLabel`, `rnaLabel` and `disorderLabel`, plus a read-only `database`
  that the constructor sets to the module-level table `GeneDatabase`. Each button handler is a
  method that updates those fields in place. The disorder handler keeps the source's
  loop with its early `break`. Its invariant says that no earlier marker matched.

The shown error message (a modal dialog in the program) becomes the handler's
out-parameter `error`. It is `Some(InvalidDnaMessage)` on invalid input and `None`
otherwise.

Two facts about the code that the model keeps:

- "Clear" restores the captions `"GC Content: "`, `"RNA Sequence: "` and
  `"Genetic Disorders: "` (genesequenceanalyzer.py:53-55), the same texts the labels
  are created with (genesequenceanalyzer.py:97-104).
- `str.replace('T', 'U')` is idempotent on every string, not only on valid DNA
  (`Dna.TranscribeIdempotent`).

## Model

| member | source | states |
|---|---|---|
| `Dna.IsBase` | genesequenceanalyzer.py:15 | definition (no contract): the character is one of `A`, `T`, `C`, `G` |
| `Dna.IsGc` | genesequenceanalyzer.py:25 | definition (no contract): the character is `G` or `C` |
| `Dna.Upper` | genesequenceanalyzer.py:15 | definition (no contract): `a`..`z` map to `A`..`Z`, every other character is kept |
| `Dna.UpperString` | genesequenceanalyzer.py:21 | upper-casing keeps the length and maps each position through ASCII `Upper` |
| `Dna.UpperIsBase` | genesequenceanalyzer.py:15 | an upper-cased character is a base iff the original is one of `ATCGatcg` |
| `Dna.UpperStringIdempotent` | genesequenceanalyzer.py:15 | upper-casing an already upper-cased string changes nothing |
| `Dna.AllBases` | genesequenceanalyzer.py:15 | the `all` over the characters is true iff every position holds `A`, `T`, `C` or `G` |
| `Dna.IsValidDna` | genesequenceanalyzer.py:14-15 | valid iff non-empty and every character, upper-cased, is a base |
| `Dna.ValidDnaIffBaseLetters` | genesequenceanalyzer.py:14-15 | validation is case-insensitive: valid iff non-empty and every character is in `ATCGatcg` |
| `Dna.ValidationExamples` | genesequenceanalyzer.py:14-15 | `"ATXG"` and `""` are rejected, `"atcg"` is accepted |
| `Dna.ValidDnaOfUpper` | genesequenceanalyzer.py:21-22 | validating the upper-cased input gives the same verdict as validating the raw input |
| `Dna.UpperValidIsBases` | genesequenceanalyzer.py:21-22 | the upper-cased form of a valid input consists of bases only |
| `Dna.Count` | genesequenceanalyzer.py:25 | a character count is at most the length, and zero iff the character does not occur |
| `Dna.GcCount` | genesequenceanalyzer.py:25 | definition (no contract): count(G) + count(C) |
| `Dna.CountIsMultiplicity` | genesequenceanalyzer.py:25 | a character count equals the multiplicity of that character in the string's multiset |
| `Dna.GcCountBounds` | genesequenceanalyzer.py:25 | count(G) + count(C) is at most the length, equals it iff every position is G or C, and is zero iff none is |
| `Dna.GcPercent` | genesequenceanalyzer.py:25 | the GC percentage of a non-empty sequence is in [0, 100], is 100 iff all bases are G/C and is 0 iff none is |
| `Dna.GcPercentExamples` | genesequenceanalyzer.py:25 | the percentages of `ATCG`, `GGCC` and `AATT` are 50, 100 and 0 |
| `Dna.Transcribe` | genesequenceanalyzer.py:33 | transcription keeps the length, maps `T` to `U` at each position and leaves every other character unchanged |
| `Dna.TranscribeRemovesT` | genesequenceanalyzer.py:33 | the transcription contains no `T` |
| `Dna.TranscribeIdempotent` | genesequenceanalyzer.py:33 | transcribing a transcription changes nothing |
| `Dna.TranscribeValidIsRna` | genesequenceanalyzer.py:29-33 | the RNA of a valid input consists of `A`, `U`, `C`, `G` only |
| `Dna.TranscribeInjectiveOnValid` | genesequenceanalyzer.py:29-33 | two valid inputs with the same RNA have the same upper-cased form, so transcription loses nothing |
| `Markers.IsSubstring` | genesequenceanalyzer.py:42-45 | definition (no contract): the pattern is a prefix of some suffix of the sequence starting at 0..len(s)-len(p) |
| `Markers.SubstringEdgeCases` | genesequenceanalyzer.py:42-45 | the empty pattern occurs in every string; a pattern longer than the string never occurs |
| `Markers.SubstringOfItself` | genesequenceanalyzer.py:45 | every string occurs in itself as a substring |
| `Markers.AnyMarkerOccurs` | genesequenceanalyzer.py:42 | the pre-check is true iff some table entry's marker occurs in the sequence |
| `Markers.FirstMatch` | genesequenceanalyzer.py:44-47 | the scan yields the least index whose marker occurs, with no earlier marker occurring, and yields None iff no marker occurs |
| `Markers.FirstMatchUnique` | genesequenceanalyzer.py:44-47 | an occurring entry with no occurring predecessor is exactly the one the scan reports |
| `Markers.AnyMarkerIffFirstMatch` | genesequenceanalyzer.py:42-49 | the `any` pre-check is true exactly when the ordered scan finds an entry, so the scan always sets a label after a true pre-check |
| `Markers.GeneDatabase` | genesequenceanalyzer.py:6-12 | definition (constant): the five (marker, gene, mutation, disorder) records in declared order |
| `Markers.Report` | genesequenceanalyzer.py:46 | definition (no contract): "Gene: g\nMutation: m\nAssociated disorder: d." |
| `Markers.NoMatchReport` | genesequenceanalyzer.py:49 | definition (constant): "No known gene or mutations detected." |
| `Markers.DetectionReport` | genesequenceanalyzer.py:42-49 | definition (no contract): the report of `FirstMatch`'s entry, or the no-match text; its meaning is `Markers.DetectionReportMeaning` |
| `Markers.DetectionReportMeaning` | genesequenceanalyzer.py:42-49 | the disorder text is the no-match text when no marker occurs, and otherwise the report of the entry that occurs while no earlier one does |
| `Markers.DetectBrca1` | genesequenceanalyzer.py:7 | the BRCA1 marker sequence is matched by entry 0 and reported as BRCA1 / 185delAG / Breast cancer |
| `Markers.DetectNone` | genesequenceanalyzer.py:42-49 | `AAAAAAAAAA` matches no marker and gets the no-match text |
| `Analyzer.GcLabel` | genesequenceanalyzer.py:26 | definition (datatype): the GC label shows a caption text or the GC percentage of a valid input |
| `Analyzer.GcInitial` | genesequenceanalyzer.py:97 | definition (constant): the caption "GC Content: " (also set at line 53) |
| `Analyzer.RnaInitial` | genesequenceanalyzer.py:100 | definition (constant): the caption "RNA Sequence: " (also set at line 54) |
| `Analyzer.DisorderInitial` | genesequenceanalyzer.py:103 | definition (constant): the caption "Genetic Disorders: " (also set at line 55) |
| `Analyzer.AnalyzerWindow.IsInitial` | genesequenceanalyzer.py:51-55 | definition (no contract): empty entry and the three captions, the state both the constructor and Clear set up |
| `Analyzer.InvalidDnaMessage` | genesequenceanalyzer.py:23 | definition (constant): the error text every analysis handler signals (also at lines 31 and 39) |
| `Analyzer.AnalyzerWindow.Valid` | genesequenceanalyzer.py:6-12 | definition (no contract): the window scans the declared table `GeneDatabase` |
| `Analyzer.AnalyzerWindow.constructor` | genesequenceanalyzer.py:97-104 | a new window has an empty entry, the three initial captions, and is `Valid` (it scans the declared gene database) |
| `Analyzer.AnalyzerWindow.EnterText` | genesequenceanalyzer.py:89 | typing replaces the entry text and changes no label |
| `Analyzer.AnalyzerWindow.CalculateGcContent` | genesequenceanalyzer.py:20-26 | invalid input: error signalled, nothing changes; valid input: only the GC label changes, to the percentage of the upper-cased input |
| `Analyzer.AnalyzerWindow.TranscribeDnaToRna` | genesequenceanalyzer.py:28-34 | invalid input: error signalled, nothing changes; valid input: only the RNA label changes, to the caption followed by the transcription of the upper-cased input |
| `Analyzer.AnalyzerWindow.DetectGeneticDisorders` | genesequenceanalyzer.py:36-49 | invalid input: error signalled, nothing changes; valid input: only the disorder label changes, to the first-match report or the no-match text for the window's `database` (`GeneDatabase` on a `Valid` window) |
| `Analyzer.AnalyzerWindow.ClearAll` | genesequenceanalyzer.py:51-55 | the entry is empty and the three labels are exactly the captions the window was built with |

## Left out

- Window creation, styling, grid layout and the event loop (genesequenceanalyzer.py:57-107, 110). They are presentation only. The user typing into the entry field is the method `EnterText`.
- The modal error dialog (genesequenceanalyzer.py:17-18). It is a GUI call. The handlers return the message as `error` instead.
- `Analyzer.AnalyzerWindow.CalculateGcContent`: the label stores the exact GC percentage as a rational. Float arithmetic and the two-decimal `%` text are not modelled, because floating-point rounding and formatting are outside the model.
- `Dna.UpperString`: upper-casing folds ASCII `a`..`z` only, not full Unicode `str.upper()`. Characters whose upper case is a different or longer string in Unicode are not modelled.
- That the five marker strings are themselves over `ATCG` is not proved. Checking it character by character on the literals is too costly for the verifier.
