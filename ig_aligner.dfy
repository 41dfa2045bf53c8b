/**
  The antibody-chain aligner: a position-specific global alignment of a
  query against one chain's consensus profile, followed by numbering of the
  aligned residues under the chosen scheme and a percent-identity score.
*/
module IgAligner {
  import opened Wrappers
  import opened Text
  import opened ConsensusFile
  import opened NeedleTable
  import opened Numbering

  /** Score-array layout: columns 0-20 score the 20 residues and X, then the two gap columns. */
  const NUM_RESIDUE_COLUMNS: int := 21
  const QUERY_GAP_COLUMN: int := 21
  const TEMPLATE_GAP_COLUMN: int := 22
  const SCORE_COLUMNS: nat := 23

  /** The residues the sequence validator accepts in a consensus file. */
  const STANDARD_RESIDUES: set<char> :=
    {'A', 'C', 'D', 'E', 'F', 'G', 'H', 'I', 'K', 'L', 'M', 'N', 'P', 'Q', 'R', 'S', 'T', 'V', 'W', 'Y'}

  datatype AlignError =
    | NoError
    | InvalidSequence
    | FatalRuntimeError
    | TooManyInsertions
    | AlignmentWrongLength
    | UnacceptableConservedPositions

  /**
    A `double` quotient as `align` computes it: a finite fraction, or the
    non-finite value IEEE division gives when the divisor is zero.
  */
  datatype Ratio = Fraction(value: real) | NonFinite

  /** `matches` divided by `total` in floating point. */
  function Quotient(matches: nat, total: nat): (r: Ratio)
    ensures r.NonFinite? <==> total == 0
    ensures matches <= total ==> r.Fraction? ==> 0.0 <= r.value <= 1.0
  {
    if total == 0 then NonFinite
    else
      var q := matches as real / total as real;
      assert matches <= total ==> 0.0 <= q <= 1.0 by {
        if matches <= total { FractionAtMostOne(matches, total); }
      }
      Fraction(q)
  }

  datatype AlignOutcome = AlignOutcome(numbering: seq<string>, percentIdentity: Ratio, error: AlignError)

  /** A query encoded as residue-column indices. */
  predicate EncodedQuery(encoded: seq<int>) {
    forall k :: 0 <= k < |encoded| ==> 0 <= encoded[k] < NUM_RESIDUE_COLUMNS
  }

  predicate Sorted(s: seq<int>) {
    forall a, b :: 0 <= a < b < |s| ==> s[a] <= s[b]
  }

  /** A consensus entry is acceptable when made of standard residues and at most one character long. */
  predicate ValidResidue(aa: string) {
    (forall k :: 0 <= k < |aa| ==> aa[k] in STANDARD_RESIDUES) && |aa| <= 1
  }

  predicate ConsensusResiduesValid(positionConsensus: seq<seq<string>>) {
    forall i, a :: 0 <= i < |positionConsensus| && 0 <= a < |positionConsensus[i]| ==> ValidResidue(positionConsensus[i][a])
  }

  /** The character an entry contributes; an empty entry contributes the string terminator. */
  function FirstChar(aa: string): char {
    if aa == [] then 0 as char else aa[0]
  }

  /** The residues accepted at one position: none listed means any residue (the empty set); otherwise the listed ones and X. */
  function ConsensusSet(residues: seq<string>): set<char> {
    if residues == [] then {} else {'X'} + set k | 0 <= k < |residues| :: FirstChar(residues[k])
  }

  function ConsensusMap(positionConsensus: seq<seq<string>>): (m: seq<set<char>>)
    ensures |m| == |positionConsensus|
  {
    seq(|positionConsensus|, i requires 0 <= i < |positionConsensus| => ConsensusSet(positionConsensus[i]))
  }

  /**
    What the consensus map says about each position: it is unrestricted
    exactly when no residue is listed; a restricted position accepts X and
    otherwise only standard residues from the list.
  */
  lemma ConsensusMapMeaning(positionConsensus: seq<seq<string>>, i: nat, c: char)
    requires ConsensusResiduesValid(positionConsensus) && i < |positionConsensus|
    ensures ConsensusMap(positionConsensus)[i] == {} <==> positionConsensus[i] == []
    ensures positionConsensus[i] != [] ==> 'X' in ConsensusMap(positionConsensus)[i]
    ensures c in ConsensusMap(positionConsensus)[i] && c != 'X' ==>
      (c in STANDARD_RESIDUES && [c] in positionConsensus[i]) || (c == 0 as char && [] in positionConsensus[i])
  {
    var residues := positionConsensus[i];
    if c in ConsensusMap(positionConsensus)[i] && c != 'X' {
      var k :| 0 <= k < |residues| && FirstChar(residues[k]) == c;
      assert ValidResidue(residues[k]);
      if residues[k] != [] {
        assert residues[k] == [c];
      }
    }
  }

  /**
    The position-consensus loop of the constructor: builds the map and
    counts the restricted positions, failing on the first entry that is not
    a single standard residue.
  */
  method BuildConsensusMap(positionConsensus: seq<seq<string>>) returns (ok: bool, consensusMap: seq<set<char>>, numRestrictedPositions: nat)
    ensures ok <==> ConsensusResiduesValid(positionConsensus)
    ensures ok ==> consensusMap == ConsensusMap(positionConsensus)
    ensures ok ==> numRestrictedPositions == CountRestricted(consensusMap, |consensusMap|)
  {
    consensusMap := [];
    numRestrictedPositions := 0;
    for i := 0 to |positionConsensus|
      invariant consensusMap == ConsensusMap(positionConsensus[..i])
      invariant numRestrictedPositions == CountRestricted(consensusMap, i)
      invariant ConsensusResiduesValid(positionConsensus[..i])
    {
      ghost var before := consensusMap;
      var residues := positionConsensus[i];
      consensusMap := consensusMap + [{}];
      if residues == [] {
        assert positionConsensus[..i + 1] == positionConsensus[..i] + [residues];
        assert CountRestricted(consensusMap, i) == CountRestricted(before, i) by {
          CountRestrictedPrefix(consensusMap, before, i);
        }
        continue;
      }
      numRestrictedPositions := numRestrictedPositions + 1;
      var valid, accepted := PositionResidues(residues);
      if !valid {
        return false, consensusMap, numRestrictedPositions;
      }
      consensusMap := consensusMap[i := accepted];
      assert positionConsensus[..i + 1] == positionConsensus[..i] + [residues];
      assert consensusMap == before + [accepted];
      CountRestrictedPrefix(consensusMap, before, i);
    }
    assert positionConsensus[..|positionConsensus|] == positionConsensus;
    ok := true;
  }

  /** The residues one restricted position accepts, failing on the first entry that is not a valid residue. */
  method PositionResidues(residues: seq<string>) returns (valid: bool, accepted: set<char>)
    requires residues != []
    ensures valid <==> forall a :: 0 <= a < |residues| ==> ValidResidue(residues[a])
    ensures valid ==> accepted == ConsensusSet(residues)
  {
    accepted := {'X'};
    for a := 0 to |residues|
      invariant accepted == {'X'} + set k | 0 <= k < a :: FirstChar(residues[k])
      invariant forall k :: 0 <= k < a ==> ValidResidue(residues[k])
    {
      var aa := residues[a];
      if !((forall k :: 0 <= k < |aa| ==> aa[k] in STANDARD_RESIDUES) && |aa| <= 1) {
        assert !ValidResidue(residues[a]);
        return false, accepted;
      }
      accepted := accepted + {FirstChar(aa)};
      assert (set k | 0 <= k < a + 1 :: FirstChar(residues[k])) == (set k | 0 <= k < a :: FirstChar(residues[k])) + {FirstChar(aa)};
    }
    valid := true;
  }

  lemma {:induction false} CountRestrictedPrefix(m: seq<set<char>>, m': seq<set<char>>, hi: nat)
    requires hi <= |m| && hi <= |m'| && m[..hi] == m'[..hi]
    ensures CountRestricted(m, hi) == CountRestricted(m', hi)
  {
    if hi > 0 {
      assert m[..hi - 1] == m'[..hi - 1] by {
        assert m[..hi - 1] == m[..hi][..hi - 1];
        assert m'[..hi - 1] == m'[..hi][..hi - 1];
      }
      assert m[hi - 1] == m[..hi][hi - 1] == m'[hi - 1];
      CountRestrictedPrefix(m, m', hi - 1);
    }
  }

  /** Everything the constructor checks before it succeeds. */
  predicate Accepts(read: ReadResult, chainName: string, scheme: string, scoreArray: seq<seq<real>>, positionCounts: set<nat>)
  {
    && chainName in {"H", "K", "L"}
    && read.status == ValidConsensusFile
    && (forall r :: 0 <= r < |scoreArray| ==> |scoreArray[r]| == SCORE_COLUMNS)
    && scheme in {"imgt", "aho", "martin", "kabat"}
    && |scoreArray| in positionCounts
    && |read.entries| in positionCounts
    && |read.entries| >= |scoreArray|
    && ConsensusResiduesValid(read.entries)
  }

  /**
    The checks of the constructor, in its order: chain name, consensus
    file, score-array rows, scheme, array sizes, then the consensus map
    itself. On success, the map and its count of restricted positions.
  */
  method CheckInputs(consensusLines: seq<string>, chainName: string, scheme: string, scoreArray: seq<seq<real>>,
                     positionCounts: set<nat>)
    returns (checked: Option<(seq<set<char>>, nat)>)
    ensures checked.Some? <==> Accepts(ReadConsensus(consensusLines), chainName, scheme, scoreArray, positionCounts)
    ensures checked.Some? ==>
      && checked.value.0 == ConsensusMap(ReadConsensus(consensusLines).entries)
      && checked.value.1 == CountRestricted(checked.value.0, |checked.value.0|)
  {
    if chainName != "H" && chainName != "K" && chainName != "L" {
      return None;
    }
    var status, positionConsensus := ReadConsensusFile(consensusLines);
    if status != ValidConsensusFile {
      return None;
    }
    assert ReadConsensus(consensusLines).entries == positionConsensus;
    if exists r :: 0 <= r < |scoreArray| && |scoreArray[r]| != SCORE_COLUMNS {
      return None;
    }
    if scheme != "imgt" && scheme != "aho" && scheme != "martin" && scheme != "kabat" {
      return None;
    }
    if |scoreArray| !in positionCounts || |positionConsensus| !in positionCounts || |positionConsensus| < |scoreArray| {
      return None;
    }
    var ok, consensusMap, numRestrictedPositions := BuildConsensusMap(positionConsensus);
    if !ok {
      return None;
    }
    return Some((consensusMap, numRestrictedPositions));
  }

  /** A count out of a positive total is a fraction in [0, 1]. */
  lemma FractionAtMostOne(m: nat, n: nat)
    requires m <= n && n >= 1
    ensures 0.0 <= m as real / n as real <= 1.0
  {
  }

  class IGAligner {
    const chainName: string
    const scheme: string
    const terminalTemplateGapPenalty: real
    const cTerminalQueryGapPenalty: real
    const compressInitialGaps: bool
    /** One row of 23 scores per template position. */
    const scoreArray: seq<seq<real>>
    const numPositions: nat
    /** The six highly conserved positions of the scheme, sorted. */
    const highlyConservedPositions: seq<int>
    const consensusMap: seq<set<char>>
    const numRestrictedPositions: nat
    /** Insertion-code letters and the scheme's CDR insertion points (0-based). */
    const alphabet: seq<string>
    const cdr1InsertionPt: int
    const cdr2InsertionPt: int
    const cdr3InsertionPt: int
    const minimumSequenceLength: nat

    predicate Valid()
    {
      && numPositions == |scoreArray| && numPositions >= 1
      && (forall r :: 0 <= r < |scoreArray| ==> |scoreArray[r]| == SCORE_COLUMNS)
      && |consensusMap| >= numPositions
      && numRestrictedPositions == CountRestricted(consensusMap, |consensusMap|)
      && (compressInitialGaps ==> numPositions >= 6)
      && minimumSequenceLength >= 1
      && Sorted(highlyConservedPositions)
    }

    constructor (chainName: string, scheme: string, terminalTemplateGapPenalty: real, cTerminalQueryGapPenalty: real,
                 compressInitialGaps: bool, scoreArray: seq<seq<real>>, highlyConservedPositions: seq<int>,
                 consensusMap: seq<set<char>>, numRestrictedPositions: nat, alphabet: seq<string>,
                 cdr1InsertionPt: int, cdr2InsertionPt: int, cdr3InsertionPt: int, minimumSequenceLength: nat)
      requires |scoreArray| >= 1 && (forall r :: 0 <= r < |scoreArray| ==> |scoreArray[r]| == SCORE_COLUMNS)
      requires |consensusMap| >= |scoreArray|
      requires numRestrictedPositions == CountRestricted(consensusMap, |consensusMap|)
      requires compressInitialGaps ==> |scoreArray| >= 6
      requires minimumSequenceLength >= 1 && Sorted(highlyConservedPositions)
      ensures Valid()
      ensures this.chainName == chainName && this.scheme == scheme
      ensures this.terminalTemplateGapPenalty == terminalTemplateGapPenalty
      ensures this.cTerminalQueryGapPenalty == cTerminalQueryGapPenalty
      ensures this.compressInitialGaps == compressInitialGaps
      ensures this.scoreArray == scoreArray && this.numPositions == |scoreArray|
      ensures this.highlyConservedPositions == highlyConservedPositions
      ensures this.consensusMap == consensusMap && this.numRestrictedPositions == numRestrictedPositions
      ensures this.alphabet == alphabet && this.minimumSequenceLength == minimumSequenceLength
      ensures this.cdr1InsertionPt == cdr1InsertionPt && this.cdr2InsertionPt == cdr2InsertionPt
      ensures this.cdr3InsertionPt == cdr3InsertionPt
    {
      this.chainName := chainName;
      this.scheme := scheme;
      this.terminalTemplateGapPenalty := terminalTemplateGapPenalty;
      this.cTerminalQueryGapPenalty := cTerminalQueryGapPenalty;
      this.compressInitialGaps := compressInitialGaps;
      this.scoreArray := scoreArray;
      this.numPositions := |scoreArray|;
      this.highlyConservedPositions := highlyConservedPositions;
      this.consensusMap := consensusMap;
      this.numRestrictedPositions := numRestrictedPositions;
      this.alphabet := alphabet;
      this.cdr1InsertionPt := cdr1InsertionPt;
      this.cdr2InsertionPt := cdr2InsertionPt;
      this.cdr3InsertionPt := cdr3InsertionPt;
      this.minimumSequenceLength := minimumSequenceLength;
    }

    /** The labelling facts of this scheme. */
    function Plan(): LabelPlan
    {
      LabelPlan(scheme == "imgt", alphabet, cdr1InsertionPt, cdr2InsertionPt, cdr3InsertionPt)
    }

    /**
      Cell (i, j) of the alignment table: template positions 1..i against
      query residues 1..j. Row 0 scores template-free overhangs with the
      terminal template gap penalty; column 0 charges the query-gap score of
      each skipped position; the last row charges the terminal template gap
      penalty for insertions, and the last column the C-terminal query gap
      penalty except at highly conserved rows.
    */
    function CellAt(encoded: seq<int>, i: nat, j: nat): (c: Cell)
      requires Valid() && EncodedQuery(encoded)
      requires i <= numPositions && j <= |encoded|
      ensures i == 0 ==> c.move == LEFT_TRANSFER
      ensures i > 0 && j == 0 ==> c.move == UP_TRANSFER
      ensures KnownMove(c.move)
      decreases i + j
    {
      if i == 0 then
        if j == 0 then Cell(0.0, LEFT_TRANSFER)
        else Cell(CellAt(encoded, 0, j - 1).score + terminalTemplateGapPenalty, LEFT_TRANSFER)
      else
        var row := scoreArray[i - 1];
        if j == 0 then Cell(CellAt(encoded, i - 1, 0).score + row[QUERY_GAP_COLUMN], UP_TRANSFER)
        else
          var diagonal := CellAt(encoded, i - 1, j - 1).score + row[encoded[j - 1]];
          var left := CellAt(encoded, i, j - 1).score + LeftPenalty(i);
          var up := CellAt(encoded, i - 1, j).score + UpPenalty(i, j == |encoded|);
          Choose(diagonal, left, up)
    }

    /** The penalty for a query residue left unmatched in row i. */
    function LeftPenalty(i: nat): real
      requires Valid() && 1 <= i <= numPositions
    {
      if i == numPositions then terminalTemplateGapPenalty else scoreArray[i - 1][TEMPLATE_GAP_COLUMN]
    }

    /** The penalty for skipping template position i; in the last column it is the C-terminal one unless the row is highly conserved. */
    function UpPenalty(i: nat, lastColumn: bool): real
      requires Valid() && 1 <= i <= numPositions
    {
      if lastColumn && (i == numPositions || i !in highlyConservedPositions) then cTerminalQueryGapPenalty
      else scoreArray[i - 1][QUERY_GAP_COLUMN]
    }

    /** Row 0 in closed form: j overhanging residues cost j terminal template gaps. */
    lemma {:induction false} FirstRowScore(encoded: seq<int>, j: nat)
      requires Valid() && EncodedQuery(encoded) && j <= |encoded|
      ensures CellAt(encoded, 0, j).score == j as real * terminalTemplateGapPenalty
    {
      if j > 0 {
        FirstRowScore(encoded, j - 1);
      }
    }

    function QueryGapTotal(i: nat): real
      requires Valid() && i <= numPositions
    {
      if i == 0 then 0.0 else QueryGapTotal(i - 1) + scoreArray[i - 1][QUERY_GAP_COLUMN]
    }

    /** Column 0 in closed form: skipping the first i positions costs their query-gap scores. */
    lemma {:induction false} FirstColumnScore(encoded: seq<int>, i: nat)
      requires Valid() && EncodedQuery(encoded) && i <= numPositions
      ensures CellAt(encoded, i, 0).score == QueryGapTotal(i)
    {
      if i > 0 {
        FirstColumnScore(encoded, i - 1);
      }
    }

    /** The trace table the fill produces, as a value. */
    function TraceTable(encoded: seq<int>): (t: seq<seq<int>>)
      requires Valid() && EncodedQuery(encoded)
      ensures TableShape(t, numPositions, |encoded|) && BoundaryMoves(t, numPositions, |encoded|)
    {
      seq(numPositions + 1, i requires 0 <= i <= numPositions =>
        seq(|encoded| + 1, j requires 0 <= j <= |encoded| => CellAt(encoded, i, j).move))
    }

    /** Row r of the score table holds the scores of the recurrence. */
    ghost predicate ScoresFilled(encoded: seq<int>, needleScores: array2<real>, r: nat)
      requires Valid() && EncodedQuery(encoded) && r <= numPositions
      requires needleScores.Length0 == numPositions + 1 && needleScores.Length1 == |encoded| + 1
      reads needleScores
    {
      forall c :: 0 <= c <= |encoded| ==> needleScores[r, c] == CellAt(encoded, r, c).score
    }

    /** Row r of the trace table holds the moves of the recurrence. */
    ghost predicate MovesFilled(encoded: seq<int>, pathTrace: array2<int>, r: nat)
      requires Valid() && EncodedQuery(encoded) && r <= numPositions
      requires pathTrace.Length0 == numPositions + 1 && pathTrace.Length1 == |encoded| + 1
      reads pathTrace
    {
      forall c :: 0 <= c <= |encoded| ==> pathTrace[r, c] == CellAt(encoded, r, c).move
    }

    /** Cell (i, j) of an interior row as the fill computes it from its three neighbours. */
    lemma InteriorCell(encoded: seq<int>, i: nat, j: nat)
      requires Valid() && EncodedQuery(encoded)
      requires 1 <= i <= numPositions && 1 <= j <= |encoded|
      ensures CellAt(encoded, i, j) == Choose(
        CellAt(encoded, i - 1, j - 1).score + scoreArray[i - 1][encoded[j - 1]],
        CellAt(encoded, i, j - 1).score + LeftPenalty(i),
        CellAt(encoded, i - 1, j).score + UpPenalty(i, j == |encoded|))
    {
    }

    /** One interior cell (i, j) of the fill, from its three neighbours. */
    method FillCell(encoded: seq<int>, needleScores: array2<real>, pathTrace: array2<int>, i: nat, j: nat,
                    leftPenalty: real, upPenalty: real)
      requires Valid() && EncodedQuery(encoded) && 1 <= i <= numPositions && 1 <= j <= |encoded|
      requires needleScores.Length0 == numPositions + 1 && needleScores.Length1 == |encoded| + 1
      requires pathTrace.Length0 == numPositions + 1 && pathTrace.Length1 == |encoded| + 1
      requires leftPenalty == LeftPenalty(i) && upPenalty == UpPenalty(i, j == |encoded|)
      requires needleScores[i - 1, j - 1] == CellAt(encoded, i - 1, j - 1).score
      requires needleScores[i, j - 1] == CellAt(encoded, i, j - 1).score
      requires needleScores[i - 1, j] == CellAt(encoded, i - 1, j).score
      modifies needleScores, pathTrace
      ensures needleScores[i, j] == CellAt(encoded, i, j).score && pathTrace[i, j] == CellAt(encoded, i, j).move
      ensures forall r, c :: 0 <= r < needleScores.Length0 && 0 <= c < needleScores.Length1 && (r != i || c != j) ==>
        needleScores[r, c] == old(needleScores[r, c]) && pathTrace[r, c] == old(pathTrace[r, c])
    {
      var best := Choose(needleScores[i - 1, j - 1] + scoreArray[i - 1][encoded[j - 1]],
                         needleScores[i, j - 1] + leftPenalty,
                         needleScores[i - 1, j] + upPenalty);
      InteriorCell(encoded, i, j);
      needleScores[i, j] := best.score;
      pathTrace[i, j] := best.move;
    }

    /** One row i >= 1 of the fill, scores and moves, given row i - 1. */
    method FillRow(encoded: seq<int>, needleScores: array2<real>, pathTrace: array2<int>, i: nat)
      requires Valid() && EncodedQuery(encoded) && |encoded| >= 1 && 1 <= i <= numPositions
      requires needleScores.Length0 == numPositions + 1 && needleScores.Length1 == |encoded| + 1
      requires pathTrace.Length0 == numPositions + 1 && pathTrace.Length1 == |encoded| + 1
      requires ScoresFilled(encoded, needleScores, i - 1)
      modifies needleScores, pathTrace
      ensures ScoresFilled(encoded, needleScores, i) && MovesFilled(encoded, pathTrace, i)
      ensures forall r, c :: 0 <= r <= numPositions && r != i && 0 <= c <= |encoded| ==> pathTrace[r, c] == old(pathTrace[r, c])
    {
      var row := scoreArray[i - 1];
      var queryLength := |encoded|;
      needleScores[i, 0] := needleScores[i - 1, 0] + row[QUERY_GAP_COLUMN];
      pathTrace[i, 0] := UP_TRANSFER;
      var leftPenalty := if i == numPositions then terminalTemplateGapPenalty else row[TEMPLATE_GAP_COLUMN];
      for j := 1 to queryLength + 1
        invariant forall c {:trigger needleScores[i, c]} :: 0 <= c < j ==> needleScores[i, c] == CellAt(encoded, i, c).score
        invariant forall c {:trigger pathTrace[i, c]} :: 0 <= c < j ==> pathTrace[i, c] == CellAt(encoded, i, c).move
        invariant ScoresFilled(encoded, needleScores, i - 1)
        invariant forall r, c :: 0 <= r <= numPositions && r != i && 0 <= c <= queryLength ==> pathTrace[r, c] == old(pathTrace[r, c])
      {
        var upPenalty :=
          if j == queryLength && (i == numPositions || i !in highlyConservedPositions) then cTerminalQueryGapPenalty
          else row[QUERY_GAP_COLUMN];
        FillCell(encoded, needleScores, pathTrace, i, j, leftPenalty, upPenalty);
      }
    }

    /** Row 0 of the fill: query residues before the template, all Left moves. */
    method FillFirstRow(encoded: seq<int>, needleScores: array2<real>, pathTrace: array2<int>)
      requires Valid() && EncodedQuery(encoded)
      requires needleScores.Length0 == numPositions + 1 && needleScores.Length1 == |encoded| + 1
      requires pathTrace.Length0 == numPositions + 1 && pathTrace.Length1 == |encoded| + 1
      modifies needleScores, pathTrace
      ensures ScoresFilled(encoded, needleScores, 0) && MovesFilled(encoded, pathTrace, 0)
    {
      needleScores[0, 0] := 0.0;
      pathTrace[0, 0] := LEFT_TRANSFER;
      for j := 0 to |encoded|
        invariant forall c {:trigger needleScores[0, c]} :: 0 <= c <= j ==> needleScores[0, c] == CellAt(encoded, 0, c).score
        invariant forall c {:trigger pathTrace[0, c]} :: 0 <= c <= j ==> pathTrace[0, c] == LEFT_TRANSFER
      {
        assert CellAt(encoded, 0, j + 1).score == CellAt(encoded, 0, j).score + terminalTemplateGapPenalty;
        needleScores[0, j + 1] := needleScores[0, j] + terminalTemplateGapPenalty;
        pathTrace[0, j + 1] := LEFT_TRANSFER;
      }
    }

    /** The table fill: every trace cell gets the move of the recurrence. */
    method FillNeedleScoringTable(encoded: seq<int>, pathTrace: array2<int>)
      requires Valid() && EncodedQuery(encoded) && |encoded| >= 1
      requires pathTrace.Length0 == numPositions + 1 && pathTrace.Length1 == |encoded| + 1
      modifies pathTrace
      ensures forall i, j :: 0 <= i <= numPositions && 0 <= j <= |encoded| ==> pathTrace[i, j] == CellAt(encoded, i, j).move
    {
      var queryLength := |encoded|;
      var needleScores := new real[numPositions + 1, queryLength + 1];
      FillFirstRow(encoded, needleScores, pathTrace);
      for i := 1 to numPositions + 1
        invariant forall r :: 0 <= r < i ==> MovesFilled(encoded, pathTrace, r)
        invariant ScoresFilled(encoded, needleScores, i - 1)
      {
        label BeforeRow:
        FillRow(encoded, needleScores, pathTrace, i);
        forall r | 0 <= r < i
          ensures MovesFilled(encoded, pathTrace, r)
        {
          assert old@BeforeRow(MovesFilled(encoded, pathTrace, r));
        }
      }
      forall i, j | 0 <= i <= numPositions && 0 <= j <= queryLength
        ensures pathTrace[i, j] == CellAt(encoded, i, j).move
      {
        assert MovesFilled(encoded, pathTrace, i);
      }
    }

    /**
      The constructor: the chain must be H, K or L, the consensus file must
      read as valid, the score array must have 23 columns and a position
      count the scheme allows, and every consensus entry must be a single
      standard residue. Any failed check is an exception (`None`).
    */
    static method Create(consensusLines: seq<string>, chainName: string, scheme: string,
                         terminalTemplateGapPenalty: real, cTerminalQueryGapPenalty: real, compressInitialGaps: bool,
                         scoreArray: seq<seq<real>>, highlyConservedPositions: seq<int>, positionCounts: set<nat>,
                         alphabet: seq<string>, cdr1InsertionPt: int, cdr2InsertionPt: int, cdr3InsertionPt: int,
                         minimumSequenceLength: nat)
      returns (aligner: Option<IGAligner>)
      requires minimumSequenceLength >= 1 && Sorted(highlyConservedPositions)
      requires forall c :: c in positionCounts ==> c >= 6
      ensures aligner.Some? <==> Accepts(ReadConsensus(consensusLines), chainName, scheme, scoreArray, positionCounts)
      ensures aligner.Some? ==>
        && fresh(aligner.value) && aligner.value.Valid()
        && aligner.value.consensusMap == ConsensusMap(ReadConsensus(consensusLines).entries)
        && aligner.value.scoreArray == scoreArray && aligner.value.numPositions == |scoreArray|
        && aligner.value.chainName == chainName && aligner.value.scheme == scheme
        && aligner.value.compressInitialGaps == compressInitialGaps
        && aligner.value.highlyConservedPositions == highlyConservedPositions
        && aligner.value.terminalTemplateGapPenalty == terminalTemplateGapPenalty
        && aligner.value.cTerminalQueryGapPenalty == cTerminalQueryGapPenalty
        && aligner.value.alphabet == alphabet && aligner.value.minimumSequenceLength == minimumSequenceLength
        && aligner.value.cdr1InsertionPt == cdr1InsertionPt && aligner.value.cdr2InsertionPt == cdr2InsertionPt
        && aligner.value.cdr3InsertionPt == cdr3InsertionPt
    {
      var checked := CheckInputs(consensusLines, chainName, scheme, scoreArray, positionCounts);
      if checked.None? {
        return None;
      }
      var (consensusMap, numRestrictedPositions) := checked.value;
      var built := new IGAligner(chainName, scheme, terminalTemplateGapPenalty, cTerminalQueryGapPenalty,
                                 compressInitialGaps, scoreArray, highlyConservedPositions, consensusMap,
                                 numRestrictedPositions, alphabet, cdr1InsertionPt, cdr2InsertionPt, cdr3InsertionPt,
                                 minimumSequenceLength);
      aligner := Some(built);
    }

    // -------------------------------------------------------------------
    // Numbering the aligned residues
    // -------------------------------------------------------------------

    /** Appends `base` + alphabet[0], ..., `base` + alphabet[n - 1]. */
    method AppendLettered(labels: seq<Labeled>, base: string, n: nat) returns (r: seq<Labeled>)
      requires n <= |alphabet|
      ensures r == labels + Lettered(base, alphabet, n)
    {
      r := labels;
      for j := 0 to n
        invariant r == labels + Lettered(base, alphabet, j)
      {
        r := r + [Labeled(base + alphabet[j], -1)];
      }
    }

    /** Appends `base` + alphabet[hi - 1], ..., `base` + alphabet[0]. */
    method AppendBackwards(labels: seq<Labeled>, base: string, hi: nat) returns (r: seq<Labeled>)
      requires hi <= |alphabet|
      ensures r == labels + Backwards(base, alphabet, hi, 0)
    {
      r := labels;
      var j: nat := hi;
      while j > 0
        invariant j <= hi && r == labels + Backwards(base, alphabet, hi, j)
      {
        r := r + [Labeled(base + alphabet[j - 1], -1)];
        j := j - 1;
      }
    }

    /** The labels of position i holding n residues, as the scheme letters them. */
    method AppendPositionLabels(labels: seq<Labeled>, i: nat, n: nat) returns (r: seq<Labeled>)
      requires 1 <= n <= InsertionLimit(Plan())
      ensures r == labels + PositionLabels(StyleAt(Plan(), i), alphabet, i, n)
    {
      var ceilCutpoint := n / 2;
      var floorCutpoint := (n - 1) / 2;
      if scheme == "imgt" && (i == cdr1InsertionPt || i == cdr2InsertionPt) {
        r := AppendLettered(labels, NatToString(i), floorCutpoint);
        r := AppendBackwards(r, NatToString(i + 1), ceilCutpoint);
        r := r + [Labeled(NatToString(i + 1), i)];
      } else if scheme == "imgt" && i == cdr3InsertionPt {
        r := AppendLettered(labels + [Labeled(NatToString(i + 1), i)], NatToString(i + 1), floorCutpoint);
        r := AppendBackwards(r, NatToString(i + 2), ceilCutpoint);
      } else {
        r := AppendLettered(labels + [Labeled(NatToString(i + 1), i)], NatToString(i + 1), n - 1);
      }
    }

    /** Once a position overflows, later positions add nothing. */
    lemma {:induction false} OverflowPersists(counts: seq<nat>, k: nat, m: nat)
      requires k <= m <= |counts| && Assemble(Plan(), counts, k).overflow
      ensures Assemble(Plan(), counts, m) == Assemble(Plan(), counts, k)
      decreases m - k
    {
      if k < m {
        OverflowPersists(counts, k, m - 1);
      }
    }

    /**
      The labelling loops of `align`: each position holding residues gets its
      labels in order; the first one holding more than the scheme allows
      stops the loop with the too-many-insertions flag.
    */
    method NumberPositions(labels: seq<Labeled>, counts: seq<nat>) returns (r: seq<Labeled>, tooManyInsertions: bool)
      requires |counts| == numPositions
      ensures var assembly := Assemble(Plan(), counts, numPositions);
        r == labels + assembly.labels && tooManyInsertions == assembly.overflow
    {
      r := labels;
      for i := 0 to numPositions
        invariant !Assemble(Plan(), counts, i).overflow && r == labels + Assemble(Plan(), counts, i).labels
      {
        var n := counts[i];
        if n == 0 {
          continue;
        }
        if (scheme == "imgt" && (n > |alphabet| || n > 70)) || (scheme != "imgt" && n > |alphabet|) {
          OverflowPersists(counts, i + 1, numPositions);
          return r, true;
        }
        r := AppendPositionLabels(r, i, n);
      }
      tooManyInsertions := false;
    }

    /** The identity loop of `align`: matches at restricted positions, and how many of them are highly conserved. */
    method ScoreIdentity(query: string, positionKey: seq<int>) returns (matches: nat, requiredPositionsFound: nat)
      requires |positionKey| <= |query| && KeysBelow(positionKey, |consensusMap|)
      ensures matches == Matches(query, positionKey, consensusMap)
      ensures requiredPositionsFound == ConservedMatches(query, positionKey, consensusMap, highlyConservedPositions)
    {
      matches, requiredPositionsFound := 0, 0;
      for k := 0 to |positionKey|
        invariant matches == Matches(query, positionKey[..k], consensusMap)
        invariant requiredPositionsFound == ConservedMatches(query, positionKey[..k], consensusMap, highlyConservedPositions)
      {
        assert positionKey[..k + 1][..k] == positionKey[..k];
        var position := positionKey[k];
        if position < 0 {
          continue;
        }
        if consensusMap[position] == {} {
          continue;
        }
        if query[k] in consensusMap[position] {
          matches := matches + 1;
          if position in highlyConservedPositions {
            requiredPositionsFound := requiredPositionsFound + 1;
          }
        }
      }
      assert positionKey[..|positionKey|] == positionKey;
    }

    // -------------------------------------------------------------------
    // align, as a function of its inputs
    // -------------------------------------------------------------------

    /** The counts the labelling sees: the backtrace's, after the compress pass when it applies. */
    function PositionCounts(queryLength: nat, counts: seq<nat>): (r: seq<nat>)
      requires Valid() && |counts| == numPositions
      ensures |r| == numPositions && Sum(r) == Sum(counts)
    {
      if compressInitialGaps && queryLength > 5 then
        CompressedRearranges(counts);
        Compressed(counts)
      else counts
    }

    /** Overhangs around the assembled labels cover the query, and positions appear in increasing order. */
    lemma LabelsFit(counts: seq<nat>, nTerm: nat, cTerm: nat)
      requires Valid() && |counts| == numPositions && !Assemble(Plan(), counts, numPositions).overflow
      ensures var keys := Keys(Overhang(nTerm) + Assemble(Plan(), counts, numPositions).labels + Overhang(cTerm));
        && |keys| == nTerm + Sum(counts) + cTerm
        && KeysBelow(keys, numPositions) && KeysBelow(keys, |consensusMap|)
        && KeysAscending(keys)
    {
      var assembled := Assemble(Plan(), counts, numPositions).labels;
      AssembleLength(Plan(), counts, numPositions);
      assert counts[..numPositions] == counts;
      AssembleKeys(Plan(), counts, numPositions);
      KeysAppend(Overhang(nTerm), assembled);
      KeysAppend(Overhang(nTerm) + assembled, Overhang(cTerm));
      var keys := Keys(Overhang(nTerm)) + Keys(assembled) + Keys(Overhang(cTerm));
      assert forall a :: 0 <= a < |keys| && (a < nTerm || a >= nTerm + |assembled|) ==> keys[a] == -1;
    }

    /** The numbering, identity and error code `align` derives from a backtrace tally. */
    function NumberTally(query: string, tally: Tally, init: seq<string>): AlignOutcome
      requires Valid() && |tally.counts| == numPositions
      requires tally.nTerm + tally.cTerm + Sum(tally.counts) == |query|
    {
      var counts := PositionCounts(|query|, tally.counts);
      var assembly := Assemble(Plan(), counts, numPositions);
      if assembly.overflow then
        AlignOutcome(init + Texts(Overhang(tally.nTerm) + assembly.labels), Fraction(0.0), TooManyInsertions)
      else
        var labels := Overhang(tally.nTerm) + assembly.labels + Overhang(tally.cTerm);
        LabelsFit(counts, tally.nTerm, tally.cTerm);
        var keys := Keys(labels);
        var percentIdentity := Quotient(Matches(query, keys, consensusMap), numRestrictedPositions);
        var numbering := init + Texts(labels);
        if |query| != |numbering| then AlignOutcome(numbering, percentIdentity, AlignmentWrongLength)
        else if ConservedMatches(query, keys, consensusMap, highlyConservedPositions) != 6 then
          AlignOutcome(numbering, percentIdentity, UnacceptableConservedPositions)
        else AlignOutcome(numbering, percentIdentity, NoError)
    }

    /** The backtrace of the filled table. */
    function Traced(encoded: seq<int>): Option<Tally>
      requires Valid() && EncodedQuery(encoded)
    {
      Walk(TraceTable(encoded), numPositions, |encoded|, numPositions, |encoded|, Tally(Zeros(numPositions), 0, 0))
    }

    /** The backtrace of the filled table puts every query residue in the tally exactly once. */
    lemma TracedCountsEveryResidue(encoded: seq<int>)
      requires Valid() && EncodedQuery(encoded) && Traced(encoded).Some?
      ensures var tally := Traced(encoded).value;
        |tally.counts| == numPositions && tally.nTerm + tally.cTerm + Sum(tally.counts) == |encoded|
    {
      WalkCountsEveryResidue(TraceTable(encoded), numPositions, |encoded|, numPositions, |encoded|, Tally(Zeros(numPositions), 0, 0));
    }

    /** `align` on a query and its encoding, appending to the caller's numbering `init`. */
    function AlignResult(query: string, encoded: seq<int>, init: seq<string>): AlignOutcome
      requires Valid() && |encoded| == |query| && EncodedQuery(encoded)
    {
      if |query| < minimumSequenceLength then AlignOutcome(init, Fraction(0.0), InvalidSequence)
      else
        var walked := Traced(encoded);
        if walked.None? then AlignOutcome(init, Fraction(0.0), FatalRuntimeError)
        else
          TracedCountsEveryResidue(encoded);
          NumberTally(query, walked.value, init)
    }

    method Align(query: string, encoded: seq<int>, finalNumbering: seq<string>)
      returns (numbering: seq<string>, percentIdentity: Ratio, error: AlignError)
      requires Valid() && |encoded| == |query| && EncodedQuery(encoded)
      ensures AlignOutcome(numbering, percentIdentity, error) == AlignResult(query, encoded, finalNumbering)
    {
      percentIdentity := Fraction(0.0);
      numbering := finalNumbering;
      if |query| < minimumSequenceLength {
        error := InvalidSequence;
        return;
      }
      var queryLength := |query|;
      var pathTrace := new int[numPositions + 1, queryLength + 1];
      var initNumbering := new nat[numPositions];
      FillNeedleScoringTable(encoded, pathTrace);
      for i := 0 to numPositions
        modifies initNumbering
        invariant forall k :: 0 <= k < i ==> initNumbering[k] == 0
      {
        initNumbering[i] := 0;
      }
      ghost var t := TraceTable(encoded);
      forall i, j | 0 <= i <= numPositions && 0 <= j <= queryLength
        ensures pathTrace[i, j] == t[i][j]
      {
        assert TraceTable(encoded)[i][j] == CellAt(encoded, i, j).move;
      }
      var ok, numNTermGaps, numCTermGaps := Backtrace(pathTrace, t, numPositions, queryLength, initNumbering);
      if !ok {
        error := FatalRuntimeError;
        return;
      }
      TracedCountsEveryResidue(encoded);
      numbering, percentIdentity, error :=
        NumberBacktrace(query, initNumbering, numNTermGaps, numCTermGaps, finalNumbering, Traced(encoded).value);
    }

    /** Everything `align` does after a successful backtrace. */
    method NumberBacktrace(query: string, initNumbering: array<nat>, numNTermGaps: nat, numCTermGaps: nat,
                           finalNumbering: seq<string>, ghost tally: Tally)
      returns (numbering: seq<string>, percentIdentity: Ratio, error: AlignError)
      requires Valid() && |tally.counts| == numPositions
      requires tally.nTerm + tally.cTerm + Sum(tally.counts) == |query|
      requires initNumbering[..] == tally.counts && numNTermGaps == tally.nTerm && numCTermGaps == tally.cTerm
      modifies initNumbering
      ensures AlignOutcome(numbering, percentIdentity, error) == NumberTally(query, tally, finalNumbering)
    {
      var queryLength := |query|;
      percentIdentity := Fraction(0.0);
      var labels: seq<Labeled> := [];
      for k := 0 to numNTermGaps
        invariant labels == Overhang(k)
      {
        labels := labels + [Labeled("-", -1)];
      }
      if compressInitialGaps && queryLength > 5 {
        CompressInitialGaps(initNumbering);
      }
      assert initNumbering[..] == PositionCounts(queryLength, tally.counts);
      var tooManyInsertions;
      labels, tooManyInsertions := NumberPositions(labels, initNumbering[..]);
      if tooManyInsertions {
        numbering := finalNumbering + Texts(labels);
        error := TooManyInsertions;
        return;
      }
      ghost var numbered := labels;
      for k := 0 to numCTermGaps
        invariant labels == numbered + Overhang(k)
      {
        labels := labels + [Labeled("-", -1)];
      }
      LabelsFit(initNumbering[..], numNTermGaps, numCTermGaps);
      var matches, requiredPositionsFound := ScoreIdentity(query, Keys(labels));
      percentIdentity := Quotient(matches, numRestrictedPositions);
      numbering := finalNumbering + Texts(labels);
      if queryLength != |numbering| {
        error := AlignmentWrongLength;
        return;
      }
      error := if requiredPositionsFound != 6 then UnacceptableConservedPositions else NoError;
    }

    // -------------------------------------------------------------------
    // Properties of align
    // -------------------------------------------------------------------

    /** The fill only writes the three known moves, so align never reports a fatal runtime error. */
    lemma AlignNeverFatal(query: string, encoded: seq<int>, init: seq<string>)
      requires Valid() && |encoded| == |query| && EncodedQuery(encoded)
      ensures AlignResult(query, encoded, init).error != FatalRuntimeError
    {
      var t := TraceTable(encoded);
      forall a, b | 0 <= a <= numPositions && 0 <= b <= |encoded|
        ensures KnownMove(t[a][b])
      {
        assert TraceTable(encoded)[a][b] == CellAt(encoded, a, b).move;
      }
      WalkSucceedsOnKnownMoves(t, numPositions, |encoded|, numPositions, |encoded|, Tally(Zeros(numPositions), 0, 0));
    }

    /**
      Percent identity is a fraction of the restricted positions. It is
      non-finite exactly when the division is reached with no restricted
      position.
    */
    lemma AlignIdentityBounded(query: string, encoded: seq<int>, init: seq<string>)
      requires Valid() && |encoded| == |query| && EncodedQuery(encoded)
      ensures var r := AlignResult(query, encoded, init);
        && (r.percentIdentity.Fraction? ==> 0.0 <= r.percentIdentity.value <= 1.0)
        && (r.percentIdentity.NonFinite? <==>
              numRestrictedPositions == 0 && r.error in {NoError, UnacceptableConservedPositions, AlignmentWrongLength})
    {
      if |query| >= minimumSequenceLength && Traced(encoded).Some? {
        var tally := Traced(encoded).value;
        TracedCountsEveryResidue(encoded);
        var counts := PositionCounts(|query|, tally.counts);
        var assembly := Assemble(Plan(), counts, numPositions);
        if !assembly.overflow {
          var keys := Keys(Overhang(tally.nTerm) + assembly.labels + Overhang(tally.cTerm));
          LabelsFit(counts, tally.nTerm, tally.cTerm);
          MatchesAtMostRestricted(query, keys, consensusMap, numPositions);
          CountRestrictedMonotone(consensusMap, numPositions, |consensusMap|);
        }
      }
    }

    /**
      Align only appends to the caller's numbering; once labels are built it
      appends exactly one entry per query residue, so the length check
      fails exactly when the caller's numbering was not empty.
    */
    lemma AlignNumberingLength(query: string, encoded: seq<int>, init: seq<string>)
      requires Valid() && |encoded| == |query| && EncodedQuery(encoded)
      ensures var r := AlignResult(query, encoded, init);
        && |r.numbering| >= |init| && r.numbering[..|init|] == init
        && (r.error in {NoError, UnacceptableConservedPositions, AlignmentWrongLength} ==>
              |r.numbering| == |init| + |query| && (r.error == AlignmentWrongLength <==> init != []))
    {
      var r := AlignResult(query, encoded, init);
      if |query| >= minimumSequenceLength && Traced(encoded).Some? {
        var tally := Traced(encoded).value;
        TracedCountsEveryResidue(encoded);
        var counts := PositionCounts(|query|, tally.counts);
        var assembly := Assemble(Plan(), counts, numPositions);
        if !assembly.overflow {
          LabelsFit(counts, tally.nTerm, tally.cTerm);
        }
      }
    }

    /**
      Align reports too many insertions exactly when, after any compress
      pass, some position holds more residues than the scheme can letter.
    */
    lemma AlignTooManyInsertions(query: string, encoded: seq<int>, init: seq<string>)
      requires Valid() && |encoded| == |query| && EncodedQuery(encoded)
      ensures AlignResult(query, encoded, init).error == TooManyInsertions <==>
        && |query| >= minimumSequenceLength && Traced(encoded).Some?
        && |Traced(encoded).value.counts| == numPositions
        && exists p :: 0 <= p < numPositions && PositionCounts(|query|, Traced(encoded).value.counts)[p] > InsertionLimit(Plan())
    {
      if |query| >= minimumSequenceLength && Traced(encoded).Some? {
        TracedCountsEveryResidue(encoded);
        AssembleOverflow(Plan(), PositionCounts(|query|, Traced(encoded).value.counts), numPositions);
      }
    }
  }
}
