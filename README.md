# AntPack alignment and V/J assignment core, in Dafny

This project models the C++ core of AntPack's antibody numbering. It has
three parts:

- **The consensus-file reader** (`read_consensus_file`). It reads a scheme's
  consensus text file into one list of allowed residues per template
  position.
- **The chain aligner** (`IGAligner`). Its constructor checks the chain,
  the scheme, the consensus file and the score array, and builds the
  consensus map. `fill_needle_scoring_table` fills the position-specific
  Needleman–Wunsch table. `align` does four things:
  - it walks the trace table back into per-position residue counts and
    N- and C-terminal overhangs;
  - it optionally runs the compress pass over the first six positions;
  - it writes the scheme's number labels, including the IMGT
    forwards-then-backwards lettering at the CDR insertion points;
  - it computes percent identity and the conserved-position check.
- **The germline-gene matcher** (`VJMatchCounter`). Its constructor
  validates the gene databases and builds the name index.
  `prep_sequence` projects a numbered chain onto the 128 IMGT coordinates.
  `assign_gene_by_identity` and `assign_gene_by_evalue` rank the V and J
  genes and keep every tied gene. `assign_vj_genes` puts them together, and
  `get_vj_gene_sequence` looks a sequence up by gene name.

Files:

- `wrappers.dfy`: the `Option` type.
- `text.dfy`: the standard-library string primitives the core relies on:
  `std::to_string`, `std::stoi`, `std::getline` field splitting, and `_`
  joining.
- `consensus_file.dfy`: the reader, as a state machine over the file's lines
  plus the loop that implements it.
- `needle_table.dfy`: the cell choice with its tie-breaking, the trace codes,
  and the backtrace walk.
- `numbering.dfy`: the compress pass, the label assembly and the identity
  counts.
- `ig_aligner.dfy`: the `IGAligner` class. The table fill works in place on
  `array2`s; every imperative step is proved against a recurrence function
  (`CellAt`, `Walk`, `Assemble`, `AlignResult`).
- `vj_assignment.dfy`: the `VJMatchCounter` class and the ranking scans.

The gene lists, the score array and the consensus data are Dafny values
(`seq`, `map`). The buffers the source fills in place are arrays: the trace
table, the per-position counts, and the 128-character prepped query.

## Model

| member | source | states |
|---|---|---|
| ConsensusFile.ReadConsensusFile | src/antpack/cpp_src/utilities/consensus_file_utilities.cpp:20-71 | The reading loop returns exactly the status and entries of the reader state machine. On a valid file, the entries are one per data line in file order, and data line k carries position k + 1. |
| ConsensusFile.ReadFromEntries | src/antpack/cpp_src/utilities/consensus_file_utilities.cpp:32-68 | A successful read appends one entry per data line, in order. The data lines are the lines after a `#` line, up to the first `/` line. |
| ConsensusFile.ReadFromPositions | src/antpack/cpp_src/utilities/consensus_file_utilities.cpp:48-55 | In a successful read, the data lines carry consecutive positions starting at last position + 1. |
| ConsensusFile.ReadDataLine | src/antpack/cpp_src/utilities/consensus_file_utilities.cpp:49-54 | A data line that reads successfully has `stoi` of its first field equal to last position + 1, and reading continues after it with that line's entry appended. |
| ConsensusFile.NumberedPositions | src/antpack/cpp_src/utilities/consensus_file_utilities.cpp:51-54 | Lines numbered consecutively from `first` carry position first + k at index k. |
| ConsensusFile.ReadConsensusCharacterized | src/antpack/cpp_src/utilities/consensus_file_utilities.cpp:28-70 | A valid read yields exactly one entry per data line, and the data lines carry the positions 1, 2, …, n. |
| ConsensusFile.ReadStopsAtSlash | src/antpack/cpp_src/utilities/consensus_file_utilities.cpp:38-39 | Nothing after a `/` line changes the result: reading stops there. |
| ConsensusFile.ReadSkipsPreamble | src/antpack/cpp_src/utilities/consensus_file_utilities.cpp:40-41 | Non-empty lines before the first `#` or `/` line are skipped and do not change the result. |
| ConsensusFile.EntriesOf | src/antpack/cpp_src/utilities/consensus_file_utilities.cpp:57-67 | One entry per data line. |
| Text.GetlineFields | src/antpack/cpp_src/utilities/consensus_file_utilities.cpp:48 | `getline` on a non-empty line yields at least one field, and no field holds the separator. Joining the fields with the separator gives back the line, or the line without its final separator, which produces no empty field. |
| Text.SplitOnRoundTrip | src/antpack/cpp_src/utilities/consensus_file_utilities.cpp:48 | Joining the split pieces with the separator gives back the line. |
| Text.JoinWithThenSplit | src/antpack/cpp_src/vj_assignment/vj_match_counter.cpp:238-242 | Pieces without the separator come back unchanged when joined and split again. |
| Text.StoI | src/antpack/cpp_src/utilities/consensus_file_utilities.cpp:50 | `stoi` either fails (modelled as an exception) or yields a value within the 32-bit `int` range. |
| Text.StoIOfNatToString | src/antpack/cpp_src/vj_assignment/vj_match_counter.cpp:52-53 | `stoi` reads back what `to_string` wrote. |
| Text.NatToStringInjective | src/antpack/cpp_src/vj_assignment/vj_match_counter.cpp:52-53 | Distinct positions have distinct decimal labels. |
| Text.NatToString | src/antpack/cpp_src/annotator_classes/ig_aligner.cpp:308 | `to_string` of a number is a non-empty run of digits with no leading zero. |
| IgAligner.ConsensusMapMeaning | src/antpack/cpp_src/annotator_classes/ig_aligner.cpp:133-155 | A position's consensus set is empty exactly when no residue is listed there. A restricted position accepts X, and otherwise only listed standard residues (or the terminator of an empty entry). |
| IgAligner.BuildConsensusMap | src/antpack/cpp_src/annotator_classes/ig_aligner.cpp:133-155 | The loop fails exactly when some entry is not a single standard residue. Otherwise it builds the consensus map and the count of restricted positions. |
| IgAligner.PositionResidues | src/antpack/cpp_src/annotator_classes/ig_aligner.cpp:142-154 | For one position, the loop fails exactly when some entry is invalid, and otherwise gives X plus each entry's first character. |
| IgAligner.CheckInputs | src/antpack/cpp_src/annotator_classes/ig_aligner.cpp:20-155 | The constructor's checks succeed exactly when the chain is H/K/L, the file reads as valid, every row has 23 columns, the scheme is known, both sizes are allowed, the consensus covers every score-array position, and every entry is valid. On success it returns the map and the restricted count, which may be zero. |
| IgAligner.IGAligner.Create | src/antpack/cpp_src/annotator_classes/ig_aligner.cpp:4-156 | An aligner is built exactly when the constructor's checks pass, including when no position is restricted. It is valid, holds the consensus map of the file, and keeps every argument. |
| IgAligner.IGAligner.constructor | src/antpack/cpp_src/annotator_classes/ig_aligner.cpp:11-16 | Stores the arguments and establishes the class invariant. |
| IgAligner.IGAligner.CellAt | src/antpack/cpp_src/annotator_classes/ig_aligner.cpp:439-579 | The recurrence of the table. Row 0 is all Left moves, column 0 below it is all Up moves, and every cell holds one of the three codes. |
| NeedleTable.ChooseTieBreak | src/antpack/cpp_src/annotator_classes/ig_aligner.cpp:475-484 | The chosen score is the maximum of the three candidates. Ties go to Diagonal, then Left; each move is chosen exactly when its candidate beats every earlier one and is no worse than every later one. |
| IgAligner.IGAligner.FirstRowScore | src/antpack/cpp_src/annotator_classes/ig_aligner.cpp:439-444 | Row 0 in closed form: j overhanging residues cost j terminal template gaps. |
| IgAligner.IGAligner.FirstColumnScore | src/antpack/cpp_src/annotator_classes/ig_aligner.cpp:461 | Column 0 in closed form: skipping the first i positions costs the sum of their query-gap scores. |
| IgAligner.IGAligner.FillCell | src/antpack/cpp_src/annotator_classes/ig_aligner.cpp:466-486 | Writes cell (i, j) of both tables from its three filled neighbours and leaves every other cell unchanged. |
| IgAligner.IGAligner.FillFirstRow | src/antpack/cpp_src/annotator_classes/ig_aligner.cpp:439-444 | Row 0 of both tables holds the recurrence's scores and moves. |
| IgAligner.IGAligner.FillRow | src/antpack/cpp_src/annotator_classes/ig_aligner.cpp:454-579 | Given row i − 1, row i of both tables holds the recurrence: first column, interior, last column and, on the last row, its penalties. Other trace rows are unchanged. |
| IgAligner.IGAligner.FillNeedleScoringTable | src/antpack/cpp_src/annotator_classes/ig_aligner.cpp:428-580 | Every trace cell gets the move of the recurrence. |
| IgAligner.IGAligner.TraceTable | src/antpack/cpp_src/annotator_classes/ig_aligner.cpp:428-580 | The filled trace table as a value, with the shape and boundary moves the backtrace relies on. |
| NeedleTable.Backtrace | src/antpack/cpp_src/annotator_classes/ig_aligner.cpp:209-242 | The backtrace loop fails exactly when the walk meets an unknown code. Otherwise it leaves the walk's per-position counts in the array and returns its two overhang counts. |
| NeedleTable.WalkCountsEveryResidue | src/antpack/cpp_src/annotator_classes/ig_aligner.cpp:214-242 | Every query residue the walk consumes is counted exactly once: as an overhang or on one position. |
| NeedleTable.WalkSucceedsOnKnownMoves | src/antpack/cpp_src/annotator_classes/ig_aligner.cpp:234-240 | A table holding only the three codes never reaches the error branch. |
| IgAligner.IGAligner.TracedCountsEveryResidue | src/antpack/cpp_src/annotator_classes/ig_aligner.cpp:205-242 | The backtrace of the filled table counts every query residue exactly once. |
| Numbering.CompressInitialGaps | src/antpack/cpp_src/annotator_classes/ig_aligner.cpp:262-274 | The in-place compress loop ends with the counts of the `Compressed` function. |
| Numbering.SweepLowersWeight | src/antpack/cpp_src/annotator_classes/ig_aligner.cpp:264-273 | A sweep that moves something strictly lowers a weight, so the loop terminates. |
| Numbering.CompressedRearranges | src/antpack/cpp_src/annotator_classes/ig_aligner.cpp:262-274 | The pass only shifts lone residues. It keeps the multiset and total of the counts, every count above one, and positions seven onwards. |
| Numbering.CompressedSettled | src/antpack/cpp_src/annotator_classes/ig_aligner.cpp:264-273 | Afterwards, no lone residue among positions 1–5 is followed by an empty position. |
| Numbering.CompressedFixesSettled | src/antpack/cpp_src/annotator_classes/ig_aligner.cpp:264-273 | Counts with nothing to move are left unchanged (idempotence). |
| Numbering.ShiftRearranges | src/antpack/cpp_src/annotator_classes/ig_aligner.cpp:267-270 | One shift keeps the multiset, total and larger counts. |
| Numbering.PlainLabelsText | src/antpack/cpp_src/annotator_classes/ig_aligner.cpp:334-341 | A plain position's labels are its number followed by the number with alphabet[0], alphabet[1], …. |
| Numbering.SplitBeforeLabelsText | src/antpack/cpp_src/annotator_classes/ig_aligner.cpp:303-318 | At the IMGT CDR1/CDR2 points: (n−1)/2 letters forwards on number i, then n/2 letters backwards on number i+1, then number i+1 itself. |
| Numbering.SplitAfterLabelsText | src/antpack/cpp_src/annotator_classes/ig_aligner.cpp:320-333 | At the IMGT CDR3 point: number i+1, then (n−1)/2 letters forwards on it, then n/2 letters backwards on number i+2. |
| Numbering.PositionLabelsKeys | src/antpack/cpp_src/annotator_classes/ig_aligner.cpp:302-341 | Of a position's labels, only the one carrying the number itself has a position key. It comes last at CDR1/CDR2 and first otherwise. |
| Numbering.AssembleOverflow | src/antpack/cpp_src/annotator_classes/ig_aligner.cpp:286-295 | Assembly overflows exactly when some position holds more residues than the insertion limit. |
| Numbering.AssembleLength | src/antpack/cpp_src/annotator_classes/ig_aligner.cpp:285-363 | Without overflow, every counted residue gets exactly one label. |
| Numbering.AssembleKeys | src/antpack/cpp_src/annotator_classes/ig_aligner.cpp:285-363 | Assembled labels name positions in strictly increasing order, and only positions that hold residues. |
| Numbering.PositionLabelsLength | src/antpack/cpp_src/annotator_classes/ig_aligner.cpp:302-341 | Every style writes exactly one label per residue at the position. |
| Numbering.ConservedAmongMatches | src/antpack/cpp_src/annotator_classes/ig_aligner.cpp:393-399 | There are never more conserved hits than matches. |
| Numbering.MatchesAtMostRestricted | src/antpack/cpp_src/annotator_classes/ig_aligner.cpp:385-403 | With ascending keys, the matches cannot outnumber the restricted positions. |
| IgAligner.IGAligner.AppendLettered | src/antpack/cpp_src/annotator_classes/ig_aligner.cpp:307-310 | The forwards lettering loop appends base + alphabet[0] … alphabet[n−1]. |
| IgAligner.IGAligner.AppendBackwards | src/antpack/cpp_src/annotator_classes/ig_aligner.cpp:311-314 | The backwards lettering loop appends base + alphabet[n−1] … alphabet[0]. |
| IgAligner.IGAligner.AppendPositionLabels | src/antpack/cpp_src/annotator_classes/ig_aligner.cpp:296-341 | Appends the labels of one position in the style the scheme gives it. |
| IgAligner.IGAligner.NumberPositions | src/antpack/cpp_src/annotator_classes/ig_aligner.cpp:285-363 | The labelling loops append the assembled labels. They stop with the too-many-insertions flag exactly when assembly overflows. |
| IgAligner.IGAligner.OverflowPersists | src/antpack/cpp_src/annotator_classes/ig_aligner.cpp:291-295 | After the first overflowing position, later positions change nothing. |
| IgAligner.IGAligner.ScoreIdentity | src/antpack/cpp_src/annotator_classes/ig_aligner.cpp:383-401 | Counts the matches at restricted positions, and how many of them are highly conserved. |
| IgAligner.IGAligner.LabelsFit | src/antpack/cpp_src/annotator_classes/ig_aligner.cpp:249-372 | The overhangs around the assembled labels give one label per residue. The keys stay below the map size and ascend. |
| IgAligner.IGAligner.PositionCounts | src/antpack/cpp_src/annotator_classes/ig_aligner.cpp:262-274 | The counts the labelling sees keep the backtrace's total. |
| IgAligner.IGAligner.Align | src/antpack/cpp_src/annotator_classes/ig_aligner.cpp:175-419 | `align` returns exactly the numbering, identity and error code of `AlignResult`. |
| IgAligner.IGAligner.NumberBacktrace | src/antpack/cpp_src/annotator_classes/ig_aligner.cpp:244-419 | Everything after the backtrace returns the outcome of `NumberTally`, the function form of `align`'s labelling, identity and error checks. |
| IgAligner.IGAligner.AlignNeverFatal | src/antpack/cpp_src/annotator_classes/ig_aligner.cpp:234-240 | The fatal-runtime-error branch is unreachable after the fill. |
| IgAligner.Quotient | src/antpack/cpp_src/annotator_classes/ig_aligner.cpp:403 | The division by the restricted count is non-finite exactly when the count is zero; a count of matches out of a positive total is a fraction in [0, 1]. |
| IgAligner.IGAligner.AlignIdentityBounded | src/antpack/cpp_src/annotator_classes/ig_aligner.cpp:383-403 | A finite percent identity lies in [0, 1]. It is non-finite exactly when the division is reached and no consensus position is restricted. |
| IgAligner.IGAligner.AlignNumberingLength | src/antpack/cpp_src/annotator_classes/ig_aligner.cpp:406-413 | `align` only appends to the caller's numbering. Once labels are built, it appends one entry per residue, and the length check fails exactly when the caller's numbering was not empty. |
| IgAligner.IGAligner.AlignTooManyInsertions | src/antpack/cpp_src/annotator_classes/ig_aligner.cpp:286-295 | Too many insertions is reported exactly when, after the compress pass, some position exceeds the scheme's limit. |
| VjAssignment.EncodeX | src/antpack/cpp_src/vj_assignment/vj_match_counter.cpp:418-419 | Residue encoding succeeds exactly on standard residues and X, and fits the score columns. |
| VjAssignment.EncodeGapped | src/antpack/cpp_src/vj_assignment/vj_match_counter.cpp:156-162 | Gapped encoding succeeds exactly on standard residues, X and gaps, with codes below 22. |
| VjAssignment.StandardIndex | src/antpack/cpp_src/vj_assignment/vj_match_counter.cpp:282-347 | The substitution-matrix row of a character is non-negative exactly for the 20 standard residues. |
| VjAssignment.CheckSequenceLists | src/antpack/cpp_src/vj_assignment/vj_match_counter.cpp:19-37 | Succeeds exactly when every sequence list has a name list of the same size and all its sequences have 128 positions. |
| VjAssignment.IndexNameLists | src/antpack/cpp_src/vj_assignment/vj_match_counter.cpp:39-49 | Succeeds exactly when every name list has a sequence list, and then yields the name index of every list. |
| VjAssignment.BuildNameMap | src/antpack/cpp_src/vj_assignment/vj_match_counter.cpp:44-46 | Builds the name index of one list. |
| VjAssignment.NameIndexMeaning | src/antpack/cpp_src/vj_assignment/vj_match_counter.cpp:44-46 | The index holds exactly the listed names, each at the last position it is listed. |
| VjAssignment.EssentialLabels | src/antpack/cpp_src/vj_assignment/vj_match_counter.cpp:52-53 | Builds the set of the labels "1" to "128". |
| VjAssignment.EssentialLabelValue | src/antpack/cpp_src/vj_assignment/vj_match_counter.cpp:386-388 | An essential label reads back through `stoi` as a position 1–128, whose decimal spelling is the label. |
| VjAssignment.VJMatchCounter.Create | src/antpack/cpp_src/vj_assignment/vj_match_counter.cpp:4-78 | A counter is built exactly when the gene lists are consistent and the scheme is one of the four. It is valid and keeps its arguments. |
| VjAssignment.VJMatchCounter.constructor | src/antpack/cpp_src/vj_assignment/vj_match_counter.cpp:11-14 | Stores the arguments and establishes the class invariant. |
| VjAssignment.ProjectInto | src/antpack/cpp_src/vj_assignment/vj_match_counter.cpp:385-389 | The projection loop leaves the buffer equal to `Project` of its old contents. |
| VjAssignment.ProjectAt | src/antpack/cpp_src/vj_assignment/vj_match_counter.cpp:385-389 | Coordinate p holds the residue of the last label equal to "p+1", or keeps its old character when no label names it. |
| VjAssignment.ProjectDrawsFrom | src/antpack/cpp_src/vj_assignment/vj_match_counter.cpp:385-389 | Every coordinate comes from the old buffer or from the sequence. |
| VjAssignment.LastNamingMeaning | src/antpack/cpp_src/vj_assignment/vj_match_counter.cpp:385-389 | The last-naming index is the last occurrence of the label, or none exists. |
| VjAssignment.VJMatchCounter.PrepSequence | src/antpack/cpp_src/vj_assignment/vj_match_counter.cpp:381-449 | `prep_sequence` is valid exactly when `PrepResult` succeeds: under IMGT always; otherwise when the trimmed sequence encodes and realigns to one label per residue. When valid, the buffer holds that result; when invalid, the buffer is unchanged. |
| VjAssignment.VJMatchCounter.PreppedSequenceEncodes | src/antpack/cpp_src/vj_assignment/vj_match_counter.cpp:155-162 | The prepped query of a valid sequence always encodes, so the encoding exception cannot occur. |
| VjAssignment.MatchingAtMostInformative | src/antpack/cpp_src/vj_assignment/vj_match_counter.cpp:211-217 | Matching coordinates are a subset of the informative ones. |
| VjAssignment.InformativeStep | src/antpack/cpp_src/vj_assignment/vj_match_counter.cpp:212-214 | One more coordinate is counted exactly when the gene has a residue there. |
| VjAssignment.MatchingStep | src/antpack/cpp_src/vj_assignment/vj_match_counter.cpp:215-216 | One more coordinate matches exactly when it is informative and the query has the gene's residue or X. |
| VjAssignment.ComputeGeneIdentity | src/antpack/cpp_src/vj_assignment/vj_match_counter.cpp:208-221 | One gene's identity: matching over informative coordinates in its type's range, dividing by 1 when none is informative. |
| VjAssignment.GeneIdentityBounded | src/antpack/cpp_src/vj_assignment/vj_match_counter.cpp:218-221 | Every gene identity lies in [0, 1]. |
| VjAssignment.GeneIdentitiesBounded | src/antpack/cpp_src/vj_assignment/vj_match_counter.cpp:207-221 | Every identity in the list lies in [0, 1]. |
| VjAssignment.IdentityScanPrefix | src/antpack/cpp_src/vj_assignment/vj_match_counter.cpp:207-233 | The scan over n genes depends only on the first n identities. |
| VjAssignment.IdentityBestBounds | src/antpack/cpp_src/vj_assignment/vj_match_counter.cpp:195-233 | The best identity is in [0, 1]. It is 0 or the first tie's identity, and a non-empty list always has a tie. |
| VjAssignment.IdentityNoneBetter | src/antpack/cpp_src/vj_assignment/vj_match_counter.cpp:226-232 | No gene beats the best by more than the tolerance 1e-10. |
| VjAssignment.IdentityTiesOrdered | src/antpack/cpp_src/vj_assignment/vj_match_counter.cpp:226-232 | Ties are in gene order, and each is within the tolerance below the best. |
| VjAssignment.IdentityTiesExact | src/antpack/cpp_src/vj_assignment/vj_match_counter.cpp:226-232 | From the first tie on, a gene is a tie exactly when its identity is within the tolerance below the best. |
| VjAssignment.VJMatchCounter.AssignGeneByIdentity | src/antpack/cpp_src/vj_assignment/vj_match_counter.cpp:181-243 | Returns the scan's best identity and the `_`-joined names of its ties. |
| VjAssignment.JoinTiedNames | src/antpack/cpp_src/vj_assignment/vj_match_counter.cpp:234-242 | The name loop builds the `_` join of the tied names ("" when there is no tie). |
| VjAssignment.TiedNameSplits | src/antpack/cpp_src/vj_assignment/vj_match_counter.cpp:234-242 | When no name contains `_`, splitting the reported name gives back the tied names. |
| VjAssignment.BlosumScoreStep | src/antpack/cpp_src/vj_assignment/vj_match_counter.cpp:281-349 | One more coordinate adds its substitution score, skips a gap, or fails on any other character. |
| VjAssignment.BlosumScoreDefined | src/antpack/cpp_src/vj_assignment/vj_match_counter.cpp:282-347 | A gene can be scored exactly when each compared character is a gap or a standard residue. |
| VjAssignment.ScoreGene | src/antpack/cpp_src/vj_assignment/vj_match_counter.cpp:279-350 | The inner loop returns the gene's summed score, or fails at the first character that is neither a residue nor a gap. |
| VjAssignment.EvalueScanDefined | src/antpack/cpp_src/vj_assignment/vj_match_counter.cpp:345-347 | The scan succeeds exactly when every gene can be scored. |
| VjAssignment.EvalueBestIsMax | src/antpack/cpp_src/vj_assignment/vj_match_counter.cpp:263-359 | The best score is the larger of 0 and the highest gene score, and is attained by the first tie when positive. |
| VjAssignment.EvalueTiesExact | src/antpack/cpp_src/vj_assignment/vj_match_counter.cpp:352-358 | The ties are exactly the genes scoring the best, in gene order. |
| VjAssignment.VJMatchCounter.AssignGeneByEvalue | src/antpack/cpp_src/vj_assignment/vj_match_counter.cpp:248-374 | Valid exactly when the scan succeeds, and then returns its best score and `_`-joined ties. When invalid, the name is "". |
| VjAssignment.VJMatchCounter.AssignByMode | src/antpack/cpp_src/vj_assignment/vj_match_counter.cpp:149-176 | Runs both rankings in the chosen mode. An unknown mode, or a prepped query that does not encode, is an exception. |
| VjAssignment.VJMatchCounter.AssignVjGenes | src/antpack/cpp_src/vj_assignment/vj_match_counter.cpp:82-177 | `assign_vj_genes` returns exactly `AssignResult`. The result is an exception for an unknown species or missing databases, the empty assignment for an unknown chain, a length mismatch, an invalid sequence or a failed prep, and otherwise the mode's two rankings. |
| VjAssignment.VJMatchCounter.AssignIdentityBounded | src/antpack/cpp_src/vj_assignment/vj_match_counter.cpp:149-154 | In identity mode both reported identities lie in [0, 1]. |
| VjAssignment.VJMatchCounter.GetVjGeneSequenceMeaning | src/antpack/cpp_src/vj_assignment/vj_match_counter.cpp:453-475 | A name shorter than four characters, or one its list does not hold, gives "". A listed name gives the sequence at the last index it is listed at. |

## Left out

- File and directory access is not modelled. This covers `std::filesystem::exists`, the file-name construction from scheme and chain, and `npy_load` with its header parsing. The consensus file is given as its lines and the score array as a `seq<seq<real>>`. The word-size check on the `.npy` file is part of the loading and is not modelled.
- Constants defined in the headers get model values here: the trace codes (Diagonal 0, Left 1, Up 2), the score-array gap columns (`QUERY_GAP_COLUMN` 21 and `TEMPLATE_GAP_COLUMN` 22, after the 21 residue columns), and `REQUIRED_SEQUENCE_LENGTH` (128). The following are constructor parameters instead of constants: the minimum sequence length, the insertion alphabet, the CDR insertion points, the highly conserved positions, and the allowed position counts.
- IgAligner.IGAligner.Create takes one set of allowed position counts, not the heavy/light pair per scheme. It also takes the scheme's highly conserved positions as a sorted parameter.
- IgAligner.IGAligner.Create requires every allowed position count to be at least 6, so that the compress pass over positions 1–6 stays inside the counts array. Every scheme's consensus has well over six positions.
- IgAligner.IGAligner.Create refuses (returns `None`) a consensus file with fewer positions than the score array, for example a light-chain consensus with a heavy-chain score array. The source builds that aligner, and `align` would later index the consensus map past its end.
- The residue validators and encoders (`validate_sequence`, `validate_x_sequence`, `convert_x_sequence_to_array`, `convert_gapped_x_sequence_to_array`) are utility code outside this model. They are modelled with the encoding the score array and substitution matrix use: A…Y as 0–19, X as 20 and a gap as 21.
- `trim_alignment_utility` is outside this model. Its trimmed sequence is a parameter (`trimmed`) of `PrepSequence`, `AssignVjGenes` and `AssignResult`. The source comment notes that its only error is excluded by the caller.
- VjAssignment.VJMatchCounter.PrepSequence copies `sequence[i]` at each index of the trimmed numbering on the non-IMGT path, as the source does. Since the trimming is outside the model, the model does not say whether the two indices can differ.
- VjAssignment.VJMatchCounter.Create takes the three IMGT aligners already built, instead of building them from the consensus path. It requires them to be valid, IMGT-scheme and uncompressed.
- Floating point is modelled as `real`, including percent identity, the tolerance comparison 1e-10 and the table scores. Rounding is not modelled. The quotient `align` computes is a `Ratio`: a finite fraction, or `NonFinite` for division by zero. NaN and infinity are not told apart, because the count of matches is then always zero.
- The substitution matrix is modelled as integers, and the `int64_t` running score as an unbounded `int`. The `double`-to-`int64_t` conversion and any overflow are not modelled.
- VjAssignment.VJMatchCounter.AssignByMode reports 0.0 as the score of a ranking that hit an invalid gene character. The source leaves the caller's `double` uninitialised in that case.
- VjAssignment.VJMatchCounter.AssignByMode ignores the valid flag of score mode, as the source ignores `assign_gene_by_evalue`'s return code.
- The size-mismatch exception at vj_match_counter.cpp lines 141-144 is not modelled, because the class invariant (the constructor's own check) excludes it.
- Exceptions are `None`; their message texts are not modelled. `align`'s error message is modelled as the error code; the code-to-message table is not part of this model.
- The source stores the score array and both tables as flat buffers indexed `i * row_size + j`. The model uses `seq` rows and `array2` tables.
- IgAligner.IGAligner.FillRow merges the interior-row loop and the separate last-row code into one loop. Both the left and up penalties depend on the row: `LeftPenalty` and `UpPenalty` hold those cases.
- The labels `align` writes are modelled as `Labeled` pairs: the text together with the position key the source keeps in a parallel vector.
- `get_chain_name`, `get_seq_lists` and `_test_fill_needle_scoring_table` are accessor and test entry points, and are not modelled.
- The Python bindings (`ant_ext.cpp`) are not part of this model, and neither is consensus generation.
