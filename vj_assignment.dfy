/**
  The germline-gene matcher: projects a numbered antibody chain onto the
  128 IMGT coordinates and ranks the V and J germline genes of a species
  against it, by percent identity or by substitution-matrix score, keeping
  every tied gene.
*/
module VjAssignment {
  import opened Wrappers
  import opened Text
  import opened IgAligner

  /** Every germline gene is stored aligned to the 128 IMGT positions. */
  const REQUIRED_SEQUENCE_LENGTH: nat := 128
  /** J genes are compared over IMGT positions 106-128, V genes over 1-108 (0-based ranges). */
  const J_START: nat := 105
  const V_END: nat := 108
  /** Two identity scores closer than this are treated as a tie. */
  const IDENTITY_TOLERANCE: real := 0.0000000001
  /** Codes of the residue encoding beyond the twenty standard residues. */
  const X_CODE: int := 20
  const GAP_CODE: int := 21
  const BLOSUM_SIZE: nat := 22

  const CHAINS: set<string> := {"H", "K", "L"}
  const SCHEMES: set<string> := {"imgt", "aho", "kabat", "martin"}

  /** The labels "1" .. "128": plain, unlettered IMGT positions. */
  const ESSENTIAL_LABELS: set<string> := LabelsBelow(REQUIRED_SEQUENCE_LENGTH + 1)

  /** The decimal labels of 1 up to, but excluding, n. */
  function LabelsBelow(n: nat): set<string> {
    set k | 1 <= k < n :: NatToString(k)
  }

  /** A coordinate string with every IMGT position still a gap. */
  const ALL_GAPS: seq<char> := Gaps(REQUIRED_SEQUENCE_LENGTH)

  function Gaps(n: nat): (g: seq<char>)
    ensures |g| == n && forall p :: 0 <= p < n ==> g[p] == '-'
  {
    if n == 0 then [] else Gaps(n - 1) + ['-']
  }

  // -------------------------------------------------------------------
  // Residue encoding
  // -------------------------------------------------------------------

  /** The substitution-matrix row of a standard residue, or -1 for any other character. */
  function StandardIndex(c: char): (r: int)
    ensures -1 <= r < 20
    ensures r >= 0 <==> c in STANDARD_RESIDUES
  {
    match c
    case 'A' => 0
    case 'C' => 1
    case 'D' => 2
    case 'E' => 3
    case 'F' => 4
    case 'G' => 5
    case 'H' => 6
    case 'I' => 7
    case 'K' => 8
    case 'L' => 9
    case 'M' => 10
    case 'N' => 11
    case 'P' => 12
    case 'Q' => 13
    case 'R' => 14
    case 'S' => 15
    case 'T' => 16
    case 'V' => 17
    case 'W' => 18
    case 'Y' => 19
    case _ => -1
  }

  /** A sequence of standard residues and the wildcard X. */
  predicate ValidXSequence(s: string) {
    forall k :: 0 <= k < |s| ==> s[k] in STANDARD_RESIDUES || s[k] == 'X'
  }

  /** A sequence of standard residues, the wildcard X and gaps. */
  predicate ValidGappedSequence(s: string) {
    forall k :: 0 <= k < |s| ==> s[k] in STANDARD_RESIDUES || s[k] == 'X' || s[k] == '-'
  }

  function ResidueCode(c: char): int {
    if c == 'X' then X_CODE else StandardIndex(c)
  }

  function GappedCode(c: char): int {
    if c == '-' then GAP_CODE else ResidueCode(c)
  }

  /** Codes of a gapped encoding: the 21 residue categories and the gap. */
  predicate GappedCodes(encoded: seq<int>) {
    forall k :: 0 <= k < |encoded| ==> 0 <= encoded[k] < BLOSUM_SIZE
  }

  /** The residue encoding: fails exactly on a character outside the standard residues and X. */
  function EncodeX(s: string): (r: Option<seq<int>>)
    ensures r.Some? <==> ValidXSequence(s)
    ensures r.Some? ==> |r.value| == |s| && EncodedQuery(r.value)
  {
    if ValidXSequence(s) then Some(seq(|s|, k requires 0 <= k < |s| => ResidueCode(s[k]))) else None
  }

  /** The gapped residue encoding: as `EncodeX`, and a gap is code 21. */
  function EncodeGapped(s: string): (r: Option<seq<int>>)
    ensures r.Some? <==> ValidGappedSequence(s)
    ensures r.Some? ==> |r.value| == |s| && GappedCodes(r.value)
  {
    if ValidGappedSequence(s) then Some(seq(|s|, k requires 0 <= k < |s| => GappedCode(s[k]))) else None
  }

  // -------------------------------------------------------------------
  // Gene databases and the name index
  // -------------------------------------------------------------------

  /** Every sequence list has a name list of its size and every sequence has 128 positions; every name list has a sequence list. */
  predicate GeneListsValid(geneNames: map<string, seq<string>>, geneSeqs: map<string, seq<string>>) {
    && (forall key :: key in geneSeqs ==> key in geneNames && |geneNames[key]| == |geneSeqs[key]| && GenesOfLength(geneSeqs[key]))
    && (forall key :: key in geneNames ==> key in geneSeqs)
  }

  predicate GenesOfLength(genes: seq<string>) {
    forall k :: 0 <= k < |genes| ==> |genes[k]| == REQUIRED_SEQUENCE_LENGTH
  }

  predicate BlosumShaped(blosumMatrix: seq<seq<int>>) {
    |blosumMatrix| == BLOSUM_SIZE && forall r :: 0 <= r < BLOSUM_SIZE ==> |blosumMatrix[r]| == BLOSUM_SIZE
  }

  /** Name to index, filled in list order, so a repeated name keeps its last index. */
  function NameIndex(names: seq<string>): (m: map<string, nat>)
    decreases |names|
  {
    if names == [] then map[]
    else NameIndex(names[..|names| - 1])[names[|names| - 1] := |names| - 1]
  }

  /** The name index holds exactly the listed names, each at the last position it is listed. */
  lemma {:induction false} NameIndexMeaning(names: seq<string>)
    ensures forall k :: 0 <= k < |names| ==> names[k] in NameIndex(names)
    ensures forall n :: n in NameIndex(names) ==>
      && NameIndex(names)[n] < |names| && names[NameIndex(names)[n]] == n
      && forall k :: NameIndex(names)[n] < k < |names| ==> names[k] != n
    decreases |names|
  {
    if names != [] {
      var front := names[..|names| - 1];
      NameIndexMeaning(front);
      assert forall k :: 0 <= k < |front| ==> front[k] == names[k];
    }
  }

  function NamesToPositions(geneNames: map<string, seq<string>>): map<string, map<string, nat>> {
    map key | key in geneNames :: NameIndex(geneNames[key])
  }

  /** The constructor's inner loop over one name list. */
  method BuildNameMap(names: seq<string>) returns (nameSubmap: map<string, nat>)
    ensures nameSubmap == NameIndex(names)
  {
    nameSubmap := map[];
    for i := 0 to |names|
      invariant nameSubmap == NameIndex(names[..i])
    {
      assert names[..i + 1][..i] == names[..i];
      nameSubmap := nameSubmap[names[i] := i];
    }
    assert names[..|names|] == names;
  }

  /** The essential labels are exactly the decimal strings of 1 .. 128, and `stoi` reads them back. */
  lemma EssentialLabelValue(positionLabel: string)
    requires positionLabel in ESSENTIAL_LABELS
    ensures StoI(positionLabel).Some? && 1 <= StoI(positionLabel).value <= REQUIRED_SEQUENCE_LENGTH
    ensures positionLabel == NatToString(StoI(positionLabel).value)
  {
    var k :| 1 <= k <= REQUIRED_SEQUENCE_LENGTH && positionLabel == NatToString(k);
    StoIOfNatToString(k);
  }

  // -------------------------------------------------------------------
  // Projection onto IMGT coordinates
  // -------------------------------------------------------------------

  /**
    The coordinate string after copying `residues[i]` to coordinate
    `stoi(labels[i]) - 1` for every label that is a plain position
    1 .. 128, in order, so a later residue overwrites an earlier one.
  */
  function Project(base: seq<char>, labels: seq<string>, residues: string): (r: seq<char>)
    requires |base| == REQUIRED_SEQUENCE_LENGTH && |labels| <= |residues|
    ensures |r| == REQUIRED_SEQUENCE_LENGTH
    decreases |labels|
  {
    if labels == [] then base
    else
      var last := |labels| - 1;
      var prev := Project(base, labels[..last], residues);
      if labels[last] in ESSENTIAL_LABELS then
        EssentialLabelValue(labels[last]);
        prev[StoI(labels[last]).value - 1 := residues[last]]
      else prev
  }

  /** The index of the last label equal to `target`, if any. */
  function LastNaming(labels: seq<string>, target: string): (r: Option<nat>)
    ensures r.Some? ==> r.value < |labels|
    decreases |labels|
  {
    if labels == [] then None
    else if labels[|labels| - 1] == target then Some(|labels| - 1)
    else LastNaming(labels[..|labels| - 1], target)
  }

  lemma {:induction false} LastNamingMeaning(labels: seq<string>, target: string)
    ensures LastNaming(labels, target).None? ==> forall k :: 0 <= k < |labels| ==> labels[k] != target
    ensures LastNaming(labels, target).Some? ==>
      && labels[LastNaming(labels, target).value] == target
      && forall k :: LastNaming(labels, target).value < k < |labels| ==> labels[k] != target
    decreases |labels|
  {
    if labels != [] && labels[|labels| - 1] != target {
      var front := labels[..|labels| - 1];
      LastNamingMeaning(front, target);
      assert forall k :: 0 <= k < |front| ==> front[k] == labels[k];
    }
  }

  /**
    Coordinate p holds the residue of the last label equal to "p + 1", and
    keeps its base character when no label names it; lettered labels and
    gaps never reach a coordinate.
  */
  lemma {:induction false} ProjectAt(base: seq<char>, labels: seq<string>, residues: string, p: nat)
    requires |base| == REQUIRED_SEQUENCE_LENGTH && |labels| <= |residues| && p < REQUIRED_SEQUENCE_LENGTH
    ensures
      var named := LastNaming(labels, NatToString(p + 1));
      Project(base, labels, residues)[p] == if named.None? then base[p] else residues[named.value]
    decreases |labels|
  {
    if labels != [] {
      var last := |labels| - 1;
      ProjectAt(base, labels[..last], residues, p);
      var target := NatToString(p + 1);
      assert target in ESSENTIAL_LABELS;
      if labels[last] in ESSENTIAL_LABELS {
        EssentialLabelValue(labels[last]);
        if labels[last] == target {
          NatToStringInjective(StoI(labels[last]).value, p + 1);
        }
      }
    }
  }

  /** Every coordinate comes from the base or from one of the residues. */
  lemma {:induction false} ProjectDrawsFrom(base: seq<char>, labels: seq<string>, residues: string)
    requires |base| == REQUIRED_SEQUENCE_LENGTH && |labels| <= |residues|
    ensures forall p :: 0 <= p < REQUIRED_SEQUENCE_LENGTH ==>
      Project(base, labels, residues)[p] in base || Project(base, labels, residues)[p] in residues
    decreases |labels|
  {
    if labels != [] {
      ProjectDrawsFrom(base, labels[..|labels| - 1], residues);
    }
  }

  /** The projection loop, writing into the caller's coordinate buffer. */
  method ProjectInto(prepped: array<char>, labels: seq<string>, residues: string)
    requires prepped.Length == REQUIRED_SEQUENCE_LENGTH && |labels| <= |residues|
    modifies prepped
    ensures prepped[..] == Project(old(prepped[..]), labels, residues)
  {
    ghost var base := prepped[..];
    for i := 0 to |labels|
      invariant prepped[..] == Project(base, labels[..i], residues)
    {
      assert labels[..i + 1][..i] == labels[..i];
      if labels[i] in ESSENTIAL_LABELS {
        EssentialLabelValue(labels[i]);
        prepped[StoI(labels[i]).value - 1] := residues[i];
      }
    }
    assert labels[..|labels|] == labels;
  }

  // -------------------------------------------------------------------
  // Identity scoring
  // -------------------------------------------------------------------

  /** The 0-based half-open range of coordinates compared for a gene of this type. */
  function RangeStart(geneType: char): (lo: nat)
    ensures lo <= RangeEnd(geneType)
  {
    if geneType == 'j' then J_START else 0
  }

  function RangeEnd(geneType: char): (hi: nat)
    ensures hi <= REQUIRED_SEQUENCE_LENGTH
  {
    if geneType == 'j' then REQUIRED_SEQUENCE_LENGTH else V_END
  }

  /** Coordinates in [lo, hi) where the gene has a residue. */
  function InformativeAt(gene: string, lo: nat, hi: nat): set<nat>
    requires lo <= hi <= |gene|
  {
    set j: nat | lo <= j < hi && gene[j] != '-'
  }

  /** Informative coordinates where the query has the gene's residue or the wildcard X. */
  function MatchingAt(gene: string, prepped: string, lo: nat, hi: nat): set<nat>
    requires lo <= hi <= |gene| && hi <= |prepped|
  {
    set j: nat | lo <= j < hi && gene[j] != '-' && (gene[j] == prepped[j] || prepped[j] == 'X')
  }

  function Informative(gene: string, lo: nat, hi: nat): nat
    requires lo <= hi <= |gene|
  {
    |InformativeAt(gene, lo, hi)|
  }

  function Matching(gene: string, prepped: string, lo: nat, hi: nat): nat
    requires lo <= hi <= |gene| && hi <= |prepped|
  {
    |MatchingAt(gene, prepped, lo, hi)|
  }

  lemma MatchingAtMostInformative(gene: string, prepped: string, lo: nat, hi: nat)
    requires lo <= hi <= |gene| && hi <= |prepped|
    ensures Matching(gene, prepped, lo, hi) <= Informative(gene, lo, hi)
  {
    var m, i := MatchingAt(gene, prepped, lo, hi), InformativeAt(gene, lo, hi);
    assert i == m + (i - m);
  }

  /** Extending the range by one coordinate counts it exactly when the gene has a residue there. */
  lemma InformativeStep(gene: string, lo: nat, j: nat)
    requires lo <= j < |gene|
    ensures Informative(gene, lo, j + 1) == Informative(gene, lo, j) + (if gene[j] != '-' then 1 else 0)
  {
    var before := InformativeAt(gene, lo, j);
    assert j !in before;
    assert InformativeAt(gene, lo, j + 1) == before + (if gene[j] != '-' then {j} else {});
  }

  /** Extending the range by one coordinate counts it exactly when it is informative and matches. */
  lemma MatchingStep(gene: string, prepped: string, lo: nat, j: nat)
    requires lo <= j < |gene| && j < |prepped|
    ensures Matching(gene, prepped, lo, j + 1) == Matching(gene, prepped, lo, j) +
      (if gene[j] != '-' && (gene[j] == prepped[j] || prepped[j] == 'X') then 1 else 0)
  {
    var before := MatchingAt(gene, prepped, lo, j);
    assert j !in before;
    assert MatchingAt(gene, prepped, lo, j + 1) ==
      before + (if gene[j] != '-' && (gene[j] == prepped[j] || prepped[j] == 'X') then {j} else {});
  }

  /** Matching over informative coordinates, with a gene of no informative coordinate counted over 1. */
  function GeneIdentity(gene: string, prepped: string, geneType: char): real
    requires |gene| == REQUIRED_SEQUENCE_LENGTH && |prepped| == REQUIRED_SEQUENCE_LENGTH
  {
    var informative := Informative(gene, RangeStart(geneType), RangeEnd(geneType));
    (Matching(gene, prepped, RangeStart(geneType), RangeEnd(geneType)) as real) /
      ((if informative == 0 then 1 else informative) as real)
  }

  /** The body of the identity ranking's outer loop: one gene's identity. */
  method ComputeGeneIdentity(gene: string, prepped: string, geneType: char) returns (currentIdentity: real)
    requires |gene| == REQUIRED_SEQUENCE_LENGTH && |prepped| == REQUIRED_SEQUENCE_LENGTH
    ensures currentIdentity == GeneIdentity(gene, prepped, geneType)
  {
    var startLetter := RangeStart(geneType);
    var endLetter := RangeEnd(geneType);
    var matchingPositions: nat, nonzeroPositions: nat := 0, 0;
    for j := startLetter to endLetter
      invariant matchingPositions == Matching(gene, prepped, startLetter, j)
      invariant nonzeroPositions == Informative(gene, startLetter, j)
    {
      InformativeStep(gene, startLetter, j);
      MatchingStep(gene, prepped, startLetter, j);
      if gene[j] == '-' {
        continue;
      }
      nonzeroPositions := nonzeroPositions + 1;
      if gene[j] == prepped[j] || prepped[j] == 'X' {
        matchingPositions := matchingPositions + 1;
      }
    }
    if nonzeroPositions == 0 {
      nonzeroPositions := 1;
    }
    currentIdentity := matchingPositions as real / nonzeroPositions as real;
  }

  lemma GeneIdentityBounded(gene: string, prepped: string, geneType: char)
    requires |gene| == REQUIRED_SEQUENCE_LENGTH && |prepped| == REQUIRED_SEQUENCE_LENGTH
    ensures 0.0 <= GeneIdentity(gene, prepped, geneType) <= 1.0
  {
    var lo, hi := RangeStart(geneType), RangeEnd(geneType);
    MatchingAtMostInformative(gene, prepped, lo, hi);
    var informative := Informative(gene, lo, hi);
    FractionAtMostOne(Matching(gene, prepped, lo, hi), if informative == 0 then 1 else informative);
  }

  /** The identity of every gene of a list. */
  function GeneIdentities(genes: seq<string>, prepped: string, geneType: char): (scores: seq<real>)
    requires GenesOfLength(genes) && |prepped| == REQUIRED_SEQUENCE_LENGTH
    ensures |scores| == |genes|
  {
    seq(|genes|, k requires 0 <= k < |genes| => GeneIdentity(genes[k], prepped, geneType))
  }

  predicate Fractions(scores: seq<real>) {
    forall k :: 0 <= k < |scores| ==> 0.0 <= scores[k] <= 1.0
  }

  lemma GeneIdentitiesBounded(genes: seq<string>, prepped: string, geneType: char)
    requires GenesOfLength(genes) && |prepped| == REQUIRED_SEQUENCE_LENGTH
    ensures Fractions(GeneIdentities(genes, prepped, geneType))
  {
    forall k | 0 <= k < |genes|
      ensures 0.0 <= GeneIdentities(genes, prepped, geneType)[k] <= 1.0
    {
      GeneIdentityBounded(genes[k], prepped, geneType);
    }
  }

  /** The best score so far and the indices of the genes tied with it, in scan order. */
  datatype Ranking<S> = Ranking(best: S, ties: seq<nat>)

  /** The identity scan over the first n scores. */
  function IdentityScan(scores: seq<real>, n: nat): (r: Ranking<real>)
    requires n <= |scores|
    ensures forall t :: 0 <= t < |r.ties| ==> r.ties[t] < n
  {
    if n == 0 then Ranking(0.0, []) else IdentityStep(IdentityScan(scores, n - 1), scores[n - 1], n - 1)
  }

  /** One gene of the identity scan: a clear improvement starts new ties, a near-equal score joins them. */
  function IdentityStep(prev: Ranking<real>, score: real, index: nat): Ranking<real> {
    if score > prev.best + IDENTITY_TOLERANCE then Ranking(score, [index])
    else if score > prev.best - IDENTITY_TOLERANCE then Ranking(prev.best, prev.ties + [index])
    else prev
  }

  /** The identity scan over n scores reads only the first n. */
  lemma {:induction false} IdentityScanPrefix(a: seq<real>, b: seq<real>, n: nat)
    requires n <= |a| && n <= |b| && a[..n] == b[..n]
    ensures IdentityScan(a, n) == IdentityScan(b, n)
  {
    if n > 0 {
      assert a[n - 1] == a[..n][n - 1] == b[..n][n - 1] == b[n - 1];
      assert a[..n - 1] == a[..n][..n - 1];
      assert b[..n - 1] == b[..n][..n - 1];
      IdentityScanPrefix(a, b, n - 1);
    }
  }

  /** The best stays an identity in [0, 1]: it is 0 or the first tie's score, and some gene ties once any was scanned. */
  lemma {:induction false} IdentityBestBounds(scores: seq<real>, n: nat)
    requires n <= |scores| && Fractions(scores)
    ensures var r := IdentityScan(scores, n);
      && 0.0 <= r.best <= 1.0
      && (r.best == 0.0 || (r.ties != [] && r.best == scores[r.ties[0]]))
      && (n > 0 ==> r.ties != [])
  {
    if n > 0 {
      IdentityBestBounds(scores, n - 1);
    }
  }

  /** No scanned gene beats the best by more than the tolerance. */
  lemma {:induction false} IdentityNoneBetter(scores: seq<real>, n: nat)
    requires n <= |scores|
    ensures forall k :: 0 <= k < n ==> scores[k] <= IdentityScan(scores, n).best + IDENTITY_TOLERANCE
  {
    if n > 0 {
      IdentityNoneBetter(scores, n - 1);
    }
  }

  /** The ties are in scan order and each lies within the tolerance below the best. */
  lemma {:induction false} IdentityTiesOrdered(scores: seq<real>, n: nat)
    requires n <= |scores|
    ensures forall a, b :: 0 <= a < b < |IdentityScan(scores, n).ties| ==>
      IdentityScan(scores, n).ties[a] < IdentityScan(scores, n).ties[b]
    ensures forall t :: 0 <= t < |IdentityScan(scores, n).ties| ==>
      scores[IdentityScan(scores, n).ties[t]] > IdentityScan(scores, n).best - IDENTITY_TOLERANCE
  {
    if n > 0 {
      IdentityTiesOrdered(scores, n - 1);
    }
  }

  /** From the first tie on, a gene is a tie exactly when its score is within the tolerance below the best. */
  lemma {:induction false} IdentityTiesExact(scores: seq<real>, n: nat)
    requires n <= |scores| && Fractions(scores)
    ensures var r := IdentityScan(scores, n);
      r.ties != [] ==> forall k :: r.ties[0] <= k < n ==> (k in r.ties <==> scores[k] > r.best - IDENTITY_TOLERANCE)
  {
    if n > 0 {
      var prev := IdentityScan(scores, n - 1);
      IdentityTiesExact(scores, n - 1);
      IdentityBestBounds(scores, n - 1);
      var score := scores[n - 1];
      if score > prev.best + IDENTITY_TOLERANCE {
      } else if score > prev.best - IDENTITY_TOLERANCE {
        var ties := prev.ties + [n - 1];
        assert forall k :: k in ties <==> k in prev.ties || k == n - 1;
        if prev.ties == [] {
          assert n - 1 == 0;
        } else {
          assert ties[0] == prev.ties[0];
        }
      } else {
        assert n - 1 !in prev.ties;
      }
    }
  }

  /** The tied genes' names joined with "_", or "" when there is no tie. */
  function TiedName(names: seq<string>, ties: seq<nat>): string
    requires forall t :: 0 <= t < |ties| ==> ties[t] < |names|
  {
    JoinWith(TiedNames(names, ties), "_")
  }

  function TiedNames(names: seq<string>, ties: seq<nat>): (r: seq<string>)
    requires forall t :: 0 <= t < |ties| ==> ties[t] < |names|
    ensures |r| == |ties|
  {
    seq(|ties|, i requires 0 <= i < |ties| => names[ties[i]])
  }

  /** When no gene name contains "_", every tied name can be read back from the reported name. */
  lemma TiedNameSplits(names: seq<string>, ties: seq<nat>)
    requires forall t :: 0 <= t < |ties| ==> ties[t] < |names|
    requires ties != [] && forall k :: 0 <= k < |names| ==> '_' !in names[k]
    ensures SplitOn(TiedName(names, ties), '_') == TiedNames(names, ties)
  {
    JoinWithThenSplit(TiedNames(names, ties), '_');
  }

  /** The name-building tail shared by both scoring modes. */
  method JoinTiedNames(names: seq<string>, bestMatches: seq<nat>) returns (bestGeneName: string)
    requires forall t :: 0 <= t < |bestMatches| ==> bestMatches[t] < |names|
    ensures bestGeneName == TiedName(names, bestMatches)
  {
    bestGeneName := "";
    ghost var parts := TiedNames(names, bestMatches);
    if |bestMatches| == 1 {
      bestGeneName := names[bestMatches[0]];
    } else if |bestMatches| > 1 {
      bestGeneName := names[bestMatches[0]];
      for i := 1 to |bestMatches|
        invariant bestGeneName == JoinWith(parts[..i], "_")
      {
        assert parts[..i + 1][..i] == parts[..i];
        bestGeneName := bestGeneName + "_" + names[bestMatches[i]];
      }
    }
    assert parts[..|parts|] == parts;
  }

  // -------------------------------------------------------------------
  // Substitution-score scoring
  // -------------------------------------------------------------------

  /**
    The summed substitution scores of a gene segment against the query
    segment aligned with it, skipping gene gaps; `None` at a gene character
    that is no standard residue.
  */
  function SegmentScore(genePart: string, queryPart: seq<int>, blosumMatrix: seq<seq<int>>): Option<int>
    requires |genePart| == |queryPart| && GappedCodes(queryPart) && BlosumShaped(blosumMatrix)
  {
    if genePart == [] then Some(0)
    else
      var last := |genePart| - 1;
      var prev := SegmentScore(genePart[..last], queryPart[..last], blosumMatrix);
      var c := genePart[last];
      if prev.None? then None
      else if c == '-' then prev
      else if StandardIndex(c) >= 0 then Some(prev.value + blosumMatrix[StandardIndex(c)][queryPart[last]])
      else None
  }

  /** The substitution score of a gene over the coordinates [lo, hi). */
  function BlosumScore(gene: string, encoded: seq<int>, blosumMatrix: seq<seq<int>>, lo: nat, hi: nat): Option<int>
    requires lo <= hi <= |gene| && hi <= |encoded| && GappedCodes(encoded) && BlosumShaped(blosumMatrix)
  {
    SegmentScore(gene[lo..hi], encoded[lo..hi], blosumMatrix)
  }

  /** Extending the range by coordinate j adds that coordinate's score, skips a gap, or fails. */
  lemma BlosumScoreStep(gene: string, encoded: seq<int>, blosumMatrix: seq<seq<int>>, lo: nat, j: nat)
    requires lo <= j < |gene| && j < |encoded| && GappedCodes(encoded) && BlosumShaped(blosumMatrix)
    ensures BlosumScore(gene, encoded, blosumMatrix, lo, j + 1) ==
      if BlosumScore(gene, encoded, blosumMatrix, lo, j).None? then None
      else if gene[j] == '-' then BlosumScore(gene, encoded, blosumMatrix, lo, j)
      else if StandardIndex(gene[j]) >= 0 then
        Some(BlosumScore(gene, encoded, blosumMatrix, lo, j).value + blosumMatrix[StandardIndex(gene[j])][encoded[j]])
      else None
  {
    assert gene[lo..j + 1][..j - lo] == gene[lo..j];
    assert encoded[lo..j + 1][..j - lo] == encoded[lo..j];
  }

  /** A gene can be scored exactly when every compared character is a gap or a standard residue. */
  lemma {:induction false} BlosumScoreDefined(gene: string, encoded: seq<int>, blosumMatrix: seq<seq<int>>, lo: nat, hi: nat)
    requires lo <= hi <= |gene| && hi <= |encoded| && GappedCodes(encoded) && BlosumShaped(blosumMatrix)
    ensures BlosumScore(gene, encoded, blosumMatrix, lo, hi).Some? <==>
      forall j :: lo <= j < hi ==> gene[j] == '-' || gene[j] in STANDARD_RESIDUES
    decreases hi - lo
  {
    if hi > lo {
      BlosumScoreDefined(gene, encoded, blosumMatrix, lo, hi - 1);
      BlosumScoreStep(gene, encoded, blosumMatrix, lo, hi - 1);
    }
  }

  /**
    The inner loop of the score ranking: the summed score over [lo, hi), or
    `None` as soon as a gene character is no standard residue or gap.
  */
  method ScoreGene(gene: string, encoded: seq<int>, blosumMatrix: seq<seq<int>>, lo: nat, hi: nat)
    returns (score: Option<int>)
    requires lo <= hi <= |gene| && hi <= |encoded| && GappedCodes(encoded) && BlosumShaped(blosumMatrix)
    ensures score == BlosumScore(gene, encoded, blosumMatrix, lo, hi)
  {
    var blosumScore := 0;
    for j := lo to hi
      invariant BlosumScore(gene, encoded, blosumMatrix, lo, j) == Some(blosumScore)
    {
      BlosumScoreStep(gene, encoded, blosumMatrix, lo, j);
      var c := gene[j];
      if c != '-' {
        var row := StandardIndex(c);
        if row < 0 {
          BlosumScoreDefined(gene, encoded, blosumMatrix, lo, hi);
          return None;
        }
        blosumScore := blosumScore + blosumMatrix[row][encoded[j]];
      }
    }
    score := Some(blosumScore);
  }

  /** The substitution score of every gene of a list over its gene type's range. */
  function GeneScores(genes: seq<string>, encoded: seq<int>, blosumMatrix: seq<seq<int>>, geneType: char)
    : (scores: seq<Option<int>>)
    requires GenesOfLength(genes) && |encoded| == REQUIRED_SEQUENCE_LENGTH
    requires GappedCodes(encoded) && BlosumShaped(blosumMatrix)
    ensures |scores| == |genes|
  {
    seq(|genes|, k requires 0 <= k < |genes| =>
      BlosumScore(genes[k], encoded, blosumMatrix, RangeStart(geneType), RangeEnd(geneType)))
  }

  /** The score scan over the first n scores; `None` once a gene cannot be scored. */
  function EvalueScan(scores: seq<Option<int>>, n: nat): (r: Option<Ranking<int>>)
    requires n <= |scores|
    ensures r.Some? ==> forall t :: 0 <= t < |r.value.ties| ==> r.value.ties[t] < n
  {
    if n == 0 then Some(Ranking(0, []))
    else
      var prev := EvalueScan(scores, n - 1);
      var score := scores[n - 1];
      if prev.None? || score.None? then None
      else if score.value > prev.value.best then Some(Ranking(score.value, [n - 1]))
      else if score.value == prev.value.best then Some(Ranking(prev.value.best, prev.value.ties + [n - 1]))
      else prev
  }

  /** The scan succeeds exactly when every gene can be scored. */
  lemma {:induction false} EvalueScanDefined(scores: seq<Option<int>>, n: nat)
    requires n <= |scores|
    ensures EvalueScan(scores, n).Some? <==> forall k :: 0 <= k < n ==> scores[k].Some?
  {
    if n > 0 {
      EvalueScanDefined(scores, n - 1);
    }
  }

  /** The best is the larger of 0 and the highest score. */
  lemma {:induction false} EvalueBestIsMax(scores: seq<Option<int>>, n: nat)
    requires n <= |scores| && EvalueScan(scores, n).Some?
    ensures var r := EvalueScan(scores, n).value;
      && r.best >= 0
      && (forall k :: 0 <= k < n ==> scores[k].Some? && scores[k].value <= r.best)
      && (r.best > 0 ==> r.ties != [] && scores[r.ties[0]] == Some(r.best))
  {
    if n > 0 {
      EvalueBestIsMax(scores, n - 1);
    }
  }

  /** The ties are exactly the genes scoring the best, in scan order. */
  lemma {:induction false} EvalueTiesExact(scores: seq<Option<int>>, n: nat)
    requires n <= |scores| && EvalueScan(scores, n).Some?
    ensures var r := EvalueScan(scores, n).value;
      && (forall k :: 0 <= k < n ==> (k in r.ties <==> scores[k] == Some(r.best)))
      && (forall a, b :: 0 <= a < b < |r.ties| ==> r.ties[a] < r.ties[b])
  {
    if n > 0 {
      EvalueTiesExact(scores, n - 1);
      EvalueBestIsMax(scores, n - 1);
    }
  }

  // -------------------------------------------------------------------
  // The matcher
  // -------------------------------------------------------------------

  /** The numbering, percent identity, chain and error message of an alignment. */
  datatype Alignment = Alignment(numbering: seq<string>, percentIdentity: real, chain: string, errorMessage: string)

  /** V gene name, J gene name, and their identities (or scores in score mode). */
  datatype Assignment = Assignment(vGene: string, jGene: string, vIdentity: real, jIdentity: real)

  const NO_ASSIGNMENT: Assignment := Assignment("", "", 0.0, 0.0)

  /** An aligner built for the IMGT scheme and the given chain, without initial-gap compression. */
  predicate ImgtAligner(aligner: IGAligner, chain: string) {
    aligner.Valid() && aligner.chainName == chain && aligner.scheme == "imgt" && !aligner.compressInitialGaps
  }

  /** The name reported by one score-mode scan: "" when the scan failed. */
  function EvalueName(names: seq<string>, scan: Option<Ranking<int>>, n: nat): string
    requires scan.Some? ==> forall t :: 0 <= t < |scan.value.ties| ==> scan.value.ties[t] < n
    requires n <= |names|
  {
    if scan.Some? then TiedName(names, scan.value.ties) else ""
  }

  function EvalueBest(scan: Option<Ranking<int>>): real {
    if scan.Some? then scan.value.best as real else 0.0
  }

  /** The constructor's first pass: every sequence list has a name list of its size and 128-position sequences. */
  method CheckSequenceLists(geneNames: map<string, seq<string>>, geneSeqs: map<string, seq<string>>)
    returns (ok: bool)
    ensures ok <==> forall key :: key in geneSeqs ==>
      key in geneNames && |geneNames[key]| == |geneSeqs[key]| && GenesOfLength(geneSeqs[key])
  {
    var unchecked := geneSeqs.Keys;
    while unchecked != {}
      invariant unchecked <= geneSeqs.Keys
      invariant forall key :: key in geneSeqs && key !in unchecked ==>
        key in geneNames && |geneNames[key]| == |geneSeqs[key]| && GenesOfLength(geneSeqs[key])
      decreases |unchecked|
    {
      var key :| key in unchecked;
      if key !in geneNames || |geneNames[key]| != |geneSeqs[key]| {
        return false;
      }
      var sequences := geneSeqs[key];
      for k := 0 to |sequences|
        invariant forall k' :: 0 <= k' < k ==> |sequences[k']| == REQUIRED_SEQUENCE_LENGTH
      {
        if |sequences[k]| != REQUIRED_SEQUENCE_LENGTH {
          return false;
        }
      }
      unchecked := unchecked - {key};
    }
    ok := true;
  }

  /** The constructor's second pass: the name index of every name list, which must have a sequence list. */
  method IndexNameLists(geneNames: map<string, seq<string>>, geneSeqs: map<string, seq<string>>)
    returns (namesToPositions: Option<map<string, map<string, nat>>>)
    ensures namesToPositions.Some? <==> forall key :: key in geneNames ==> key in geneSeqs
    ensures namesToPositions.Some? ==> namesToPositions.value == NamesToPositions(geneNames)
  {
    var built: map<string, map<string, nat>> := map[];
    var unindexed := geneNames.Keys;
    while unindexed != {}
      invariant unindexed <= geneNames.Keys
      invariant forall key :: key in geneNames && key !in unindexed ==> key in geneSeqs
      invariant built == map key | key in geneNames && key !in unindexed :: NameIndex(geneNames[key])
      decreases |unindexed|
    {
      var key :| key in unindexed;
      if key !in geneSeqs {
        return None;
      }
      var nameSubmap := BuildNameMap(geneNames[key]);
      built := built[key := nameSubmap];
      unindexed := unindexed - {key};
    }
    namesToPositions := Some(built);
  }

  /** The set of the labels "1" to "128". */
  method EssentialLabels() returns (essentialImgtMap: set<string>)
    ensures essentialImgtMap == ESSENTIAL_LABELS
  {
    essentialImgtMap := {};
    for i := 1 to REQUIRED_SEQUENCE_LENGTH + 1
      invariant essentialImgtMap == LabelsBelow(i)
    {
      assert LabelsBelow(i + 1) == essentialImgtMap + {NatToString(i)};
      essentialImgtMap := essentialImgtMap + {NatToString(i)};
    }
  }

  class VJMatchCounter {
    const geneNames: map<string, seq<string>>
    const geneSeqs: map<string, seq<string>>
    const blosumMatrix: seq<seq<int>>
    const scheme: string
    const namesToPositions: map<string, map<string, nat>>
    const essentialImgtMap: set<string>
    const hAligner: IGAligner
    const kAligner: IGAligner
    const lAligner: IGAligner

    predicate Valid()
    {
      && GeneListsValid(geneNames, geneSeqs)
      && BlosumShaped(blosumMatrix)
      && scheme in SCHEMES
      && namesToPositions == NamesToPositions(geneNames)
      && essentialImgtMap == ESSENTIAL_LABELS
      && ImgtAligner(hAligner, "H") && ImgtAligner(kAligner, "K") && ImgtAligner(lAligner, "L")
    }

    constructor (geneNames: map<string, seq<string>>, geneSeqs: map<string, seq<string>>,
                 blosumMatrix: seq<seq<int>>, scheme: string, namesToPositions: map<string, map<string, nat>>,
                 essentialImgtMap: set<string>, hAligner: IGAligner, kAligner: IGAligner, lAligner: IGAligner)
      requires GeneListsValid(geneNames, geneSeqs) && BlosumShaped(blosumMatrix) && scheme in SCHEMES
      requires namesToPositions == NamesToPositions(geneNames) && essentialImgtMap == ESSENTIAL_LABELS
      requires ImgtAligner(hAligner, "H") && ImgtAligner(kAligner, "K") && ImgtAligner(lAligner, "L")
      ensures Valid()
      ensures this.geneNames == geneNames && this.geneSeqs == geneSeqs && this.blosumMatrix == blosumMatrix
      ensures this.scheme == scheme && this.hAligner == hAligner && this.kAligner == kAligner
      ensures this.lAligner == lAligner
    {
      this.geneNames := geneNames;
      this.geneSeqs := geneSeqs;
      this.blosumMatrix := blosumMatrix;
      this.scheme := scheme;
      this.namesToPositions := namesToPositions;
      this.essentialImgtMap := essentialImgtMap;
      this.hAligner := hAligner;
      this.kAligner := kAligner;
      this.lAligner := lAligner;
    }

    /**
      The constructor: every sequence list must have a name list of the
      same size and sequences of 128 positions, every name list a sequence
      list, and the scheme must be one of the four; any failed check is an
      exception (`None`). It builds the name index of every list and the set
      of plain IMGT labels.
    */
    static method Create(geneNames: map<string, seq<string>>, geneSeqs: map<string, seq<string>>,
                         blosumMatrix: seq<seq<int>>, scheme: string,
                         hAligner: IGAligner, kAligner: IGAligner, lAligner: IGAligner)
      returns (counter: Option<VJMatchCounter>)
      requires BlosumShaped(blosumMatrix)
      requires ImgtAligner(hAligner, "H") && ImgtAligner(kAligner, "K") && ImgtAligner(lAligner, "L")
      ensures counter.Some? <==> GeneListsValid(geneNames, geneSeqs) && scheme in SCHEMES
      ensures counter.Some? ==>
        && fresh(counter.value) && counter.value.Valid()
        && counter.value.geneNames == geneNames && counter.value.geneSeqs == geneSeqs
        && counter.value.blosumMatrix == blosumMatrix && counter.value.scheme == scheme
        && counter.value.hAligner == hAligner && counter.value.kAligner == kAligner
        && counter.value.lAligner == lAligner
    {
      var sequencesOk := CheckSequenceLists(geneNames, geneSeqs);
      if !sequencesOk {
        return None;
      }
      var namesToPositions := IndexNameLists(geneNames, geneSeqs);
      if namesToPositions.None? {
        return None;
      }
      var essentialImgtMap := EssentialLabels();
      if scheme != "imgt" && scheme != "aho" && scheme != "kabat" && scheme != "martin" {
        return None;
      }
      var built := new VJMatchCounter(geneNames, geneSeqs, blosumMatrix, scheme, namesToPositions.value,
                                      essentialImgtMap, hAligner, kAligner, lAligner);
      counter := Some(built);
    }

    function AlignerFor(chain: string): IGAligner {
      if chain == "H" then hAligner else if chain == "K" then kAligner else lAligner
    }

    /**
      `prep_sequence` on a coordinate buffer holding `base`: under IMGT the
      alignment's own labels are projected; otherwise the trimmed sequence
      is encoded and realigned with the chain's IMGT aligner, which must
      give one label per trimmed residue. `None` is an invalid sequence.
    */
    function PrepResult(base: seq<char>, sequence: string, numbering: seq<string>, chain: string, trimmed: string)
      : Option<seq<char>>
      requires Valid() && |base| == REQUIRED_SEQUENCE_LENGTH
      requires |numbering| == |sequence| && |trimmed| <= |sequence|
    {
      if scheme == "imgt" then Some(Project(base, numbering, sequence))
      else
        var encoded := EncodeX(trimmed);
        if encoded.None? then None
        else
          var realigned := AlignerFor(chain).AlignResult(trimmed, encoded.value, []);
          if |realigned.numbering| != |trimmed| then None
          else Some(Project(base, realigned.numbering, sequence))
    }

    method PrepSequence(prepped: array<char>, sequence: string, numbering: seq<string>, chain: string, trimmed: string)
      returns (valid: bool)
      requires Valid() && prepped.Length == REQUIRED_SEQUENCE_LENGTH
      requires |numbering| == |sequence| && |trimmed| <= |sequence|
      requires chain in CHAINS
      modifies prepped
      ensures valid == PrepResult(old(prepped[..]), sequence, numbering, chain, trimmed).Some?
      ensures valid ==> prepped[..] == PrepResult(old(prepped[..]), sequence, numbering, chain, trimmed).value
      ensures !valid ==> prepped[..] == old(prepped[..])
    {
      if scheme == "imgt" {
        ProjectInto(prepped, numbering, sequence);
        return true;
      }
      var queryAsIdx := EncodeX(trimmed);
      if queryAsIdx.None? {
        return false;
      }
      var imgtNumbering: seq<string>, percentIdentity: Ratio, errorMessage: AlignError;
      if chain == "H" {
        imgtNumbering, percentIdentity, errorMessage := hAligner.Align(trimmed, queryAsIdx.value, []);
      } else if chain == "K" {
        imgtNumbering, percentIdentity, errorMessage := kAligner.Align(trimmed, queryAsIdx.value, []);
      } else {
        imgtNumbering, percentIdentity, errorMessage := lAligner.Align(trimmed, queryAsIdx.value, []);
      }
      if |imgtNumbering| != |trimmed| {
        return false;
      }
      ProjectInto(prepped, imgtNumbering, sequence);
      valid := true;
    }

    /** The identity-mode ranking of one gene list against the projected query. */
    static method AssignGeneByIdentity(geneSeqs: seq<string>, geneNames: seq<string>, preppedSequence: string, geneType: char)
      returns (bestIdentity: real, bestGeneName: string)
      requires |geneNames| == |geneSeqs| && GenesOfLength(geneSeqs) && |preppedSequence| == REQUIRED_SEQUENCE_LENGTH
      ensures bestIdentity == IdentityScan(GeneIdentities(geneSeqs, preppedSequence, geneType), |geneSeqs|).best
      ensures bestGeneName ==
        TiedName(geneNames, IdentityScan(GeneIdentities(geneSeqs, preppedSequence, geneType), |geneSeqs|).ties)
    {
      var bestMatches: seq<nat> := [];
      bestIdentity := 0.0;
      ghost var scores: seq<real> := [];
      for i := 0 to |geneSeqs|
        invariant |scores| == i
        invariant forall k :: 0 <= k < i ==> scores[k] == GeneIdentity(geneSeqs[k], preppedSequence, geneType)
        invariant Ranking(bestIdentity, bestMatches) == IdentityScan(scores, i)
      {
        var currentIdentity := ComputeGeneIdentity(geneSeqs[i], preppedSequence, geneType);
        IdentityScanPrefix(scores + [currentIdentity], scores, i);
        if currentIdentity > bestIdentity + IDENTITY_TOLERANCE {
          bestMatches := [i];
          bestIdentity := currentIdentity;
        } else if currentIdentity > bestIdentity - IDENTITY_TOLERANCE {
          bestMatches := bestMatches + [i];
        }
        scores := scores + [currentIdentity];
      }
      assert scores == GeneIdentities(geneSeqs, preppedSequence, geneType);
      bestGeneName := JoinTiedNames(geneNames, bestMatches);
    }

    /**
      The score-mode ranking of one gene list against the encoded query.
      `valid` is false when a gene holds a character that is no standard
      residue or gap; the name is then "".
    */
    method AssignGeneByEvalue(geneSeqs: seq<string>, geneNames: seq<string>, encodedSequence: seq<int>, geneType: char)
      returns (valid: bool, bestScore: int, bestGeneName: string)
      requires Valid()
      requires |geneNames| == |geneSeqs| && GenesOfLength(geneSeqs)
      requires |encodedSequence| == REQUIRED_SEQUENCE_LENGTH && GappedCodes(encodedSequence)
      ensures var scan := EvalueScan(GeneScores(geneSeqs, encodedSequence, blosumMatrix, geneType), |geneSeqs|);
        && (valid <==> scan.Some?)
        && (valid ==> bestScore == scan.value.best && bestGeneName == TiedName(geneNames, scan.value.ties))
        && (!valid ==> bestGeneName == "" && bestScore == 0)
    {
      ghost var scores := GeneScores(geneSeqs, encodedSequence, blosumMatrix, geneType);
      var bestMatches: seq<nat> := [];
      bestGeneName := "";
      bestScore := 0;
      var startLetter := RangeStart(geneType);
      var endLetter := RangeEnd(geneType);
      for i := 0 to |geneSeqs|
        invariant EvalueScan(scores, i) == Some(Ranking(bestScore, bestMatches))
      {
        var geneScore := ScoreGene(geneSeqs[i], encodedSequence, blosumMatrix, startLetter, endLetter);
        assert scores[i] == geneScore;
        if geneScore.None? {
          EvalueScanDefined(scores, |geneSeqs|);
          return false, 0, "";
        }
        var blosumScore := geneScore.value;
        if blosumScore > bestScore {
          assert EvalueScan(scores, i + 1) == Some(Ranking(blosumScore, [i]));
          bestMatches := [i];
          bestScore := blosumScore;
        } else if blosumScore == bestScore {
          assert EvalueScan(scores, i + 1) == Some(Ranking(bestScore, bestMatches + [i]));
          bestMatches := bestMatches + [i];
        } else {
          assert EvalueScan(scores, i + 1) == Some(Ranking(bestScore, bestMatches));
        }
      }
      valid := true;
      bestGeneName := JoinTiedNames(geneNames, bestMatches);
    }

    /** The two rankings of the chosen mode for a projected query; `None` is an exception. */
    function ModeResult(vKey: string, jKey: string, prepped: seq<char>, mode: string): Option<Assignment>
      requires Valid() && vKey in geneSeqs && jKey in geneSeqs && |prepped| == REQUIRED_SEQUENCE_LENGTH
    {
      var vGenes, jGenes := geneSeqs[vKey], geneSeqs[jKey];
      if mode == "identity" then
        var v := IdentityScan(GeneIdentities(vGenes, prepped, 'v'), |vGenes|);
        var j := IdentityScan(GeneIdentities(jGenes, prepped, 'j'), |jGenes|);
        Some(Assignment(TiedName(geneNames[vKey], v.ties), TiedName(geneNames[jKey], j.ties), v.best, j.best))
      else if mode == "evalue" then
        var encoded := EncodeGapped(prepped);
        if encoded.None? then None
        else
          var v := EvalueScan(GeneScores(vGenes, encoded.value, blosumMatrix, 'v'), |vGenes|);
          var j := EvalueScan(GeneScores(jGenes, encoded.value, blosumMatrix, 'j'), |jGenes|);
          Some(Assignment(EvalueName(geneNames[vKey], v, |vGenes|), EvalueName(geneNames[jKey], j, |jGenes|),
                          EvalueBest(v), EvalueBest(j)))
      else None
    }

    /** `assign_vj_genes` as a function of its inputs; `None` is an exception. */
    function AssignResult(alignment: Alignment, sequence: string, species: string, mode: string, trimmed: string)
      : Option<Assignment>
      requires Valid() && |trimmed| <= |sequence|
    {
      if species != "human" && species != "mouse" then None
      else if alignment.chain !in CHAINS then Some(NO_ASSIGNMENT)
      else if |sequence| != |alignment.numbering| then Some(NO_ASSIGNMENT)
      else if !ValidXSequence(sequence) then Some(NO_ASSIGNMENT)
      else
        var vKey := species + "_IG" + alignment.chain + "V";
        var jKey := species + "_IG" + alignment.chain + "J";
        if vKey !in geneNames || jKey !in geneNames || vKey !in geneSeqs || jKey !in geneSeqs then None
        else
          var prepped := PrepResult(ALL_GAPS, sequence, alignment.numbering, alignment.chain, trimmed);
          if prepped.None? then Some(NO_ASSIGNMENT)
          else ModeResult(vKey, jKey, prepped.value, mode)
    }

    /**
      V and J gene assignment for one numbered chain. `trimmed` is the
      sequence cut to its numbered region, which only the non-IMGT path uses.
    */
    method AssignVjGenes(alignment: Alignment, sequence: string, species: string, mode: string, trimmed: string)
      returns (r: Option<Assignment>)
      requires Valid() && |trimmed| <= |sequence|
      ensures r == AssignResult(alignment, sequence, species, mode, trimmed)
    {
      if species != "human" && species != "mouse" {
        return None;
      }
      var chain := alignment.chain;
      if chain != "H" && chain != "K" && chain != "L" {
        return Some(NO_ASSIGNMENT);
      }
      if |sequence| != |alignment.numbering| {
        return Some(NO_ASSIGNMENT);
      }
      if !ValidXSequence(sequence) {
        return Some(NO_ASSIGNMENT);
      }
      var vKey := species + "_IG" + chain + "V";
      var jKey := species + "_IG" + chain + "J";
      if vKey !in geneNames || jKey !in geneNames || vKey !in geneSeqs || jKey !in geneSeqs {
        return None;
      }
      var preppedBuffer := new char[REQUIRED_SEQUENCE_LENGTH](p => '-');
      assert preppedBuffer[..] == ALL_GAPS;
      var valid := PrepSequence(preppedBuffer, sequence, alignment.numbering, chain, trimmed);
      if !valid {
        return Some(NO_ASSIGNMENT);
      }
      r := AssignByMode(vKey, jKey, preppedBuffer[..], mode);
    }

    /** The tail of `assign_vj_genes`: both rankings in the chosen mode. */
    method AssignByMode(vKey: string, jKey: string, preppedSequence: seq<char>, mode: string) returns (r: Option<Assignment>)
      requires Valid() && vKey in geneSeqs && jKey in geneSeqs && |preppedSequence| == REQUIRED_SEQUENCE_LENGTH
      ensures r == ModeResult(vKey, jKey, preppedSequence, mode)
    {
      var vGenes, jGenes := geneSeqs[vKey], geneSeqs[jKey];
      var vNames, jNames := geneNames[vKey], geneNames[jKey];
      if mode == "identity" {
        var vIdentity, vGeneName := AssignGeneByIdentity(vGenes, vNames, preppedSequence, 'v');
        var jIdentity, jGeneName := AssignGeneByIdentity(jGenes, jNames, preppedSequence, 'j');
        r := Some(Assignment(vGeneName, jGeneName, vIdentity, jIdentity));
      } else if mode == "evalue" {
        var encodedQuery := EncodeGapped(preppedSequence);
        if encodedQuery.None? {
          return None;
        }
        var vValid, vScore, vGeneName := AssignGeneByEvalue(vGenes, vNames, encodedQuery.value, 'v');
        var jValid, jScore, jGeneName := AssignGeneByEvalue(jGenes, jNames, encodedQuery.value, 'j');
        r := Some(Assignment(vGeneName, jGeneName, vScore as real, jScore as real));
      } else {
        r := None;
      }
    }

    /** The projected query of a valid sequence always encodes, so score mode never fails to encode it. */
    lemma PreppedSequenceEncodes(sequence: string, numbering: seq<string>, chain: string, trimmed: string)
      requires Valid() && |numbering| == |sequence| && |trimmed| <= |sequence| && ValidXSequence(sequence)
      ensures var prepped := PrepResult(ALL_GAPS, sequence, numbering, chain, trimmed);
        prepped.Some? ==> EncodeGapped(prepped.value).Some?
    {
      if scheme == "imgt" {
        ProjectDrawsFrom(ALL_GAPS, numbering, sequence);
      } else {
        var encoded := EncodeX(trimmed);
        if encoded.Some? {
          var realigned := AlignerFor(chain).AlignResult(trimmed, encoded.value, []);
          if |realigned.numbering| == |trimmed| {
            ProjectDrawsFrom(ALL_GAPS, realigned.numbering, sequence);
          }
        }
      }
    }

    /** In identity mode both reported identities lie in [0, 1]. */
    lemma AssignIdentityBounded(alignment: Alignment, sequence: string, species: string, trimmed: string)
      requires Valid() && |trimmed| <= |sequence|
      requires AssignResult(alignment, sequence, species, "identity", trimmed).Some?
      ensures var a := AssignResult(alignment, sequence, species, "identity", trimmed).value;
        0.0 <= a.vIdentity <= 1.0 && 0.0 <= a.jIdentity <= 1.0
    {
      var vKey := species + "_IG" + alignment.chain + "V";
      var jKey := species + "_IG" + alignment.chain + "J";
      if species in {"human", "mouse"} && alignment.chain in CHAINS && |sequence| == |alignment.numbering|
         && ValidXSequence(sequence) && vKey in geneSeqs && jKey in geneSeqs {
        var prepped := PrepResult(ALL_GAPS, sequence, alignment.numbering, alignment.chain, trimmed);
        if prepped.Some? {
          GeneIdentitiesBounded(geneSeqs[vKey], prepped.value, 'v');
          GeneIdentitiesBounded(geneSeqs[jKey], prepped.value, 'j');
          IdentityBestBounds(GeneIdentities(geneSeqs[vKey], prepped.value, 'v'), |geneSeqs[vKey]|);
          IdentityBestBounds(GeneIdentities(geneSeqs[jKey], prepped.value, 'j'), |geneSeqs[jKey]|);
        }
      }
    }

    /** The stored germline sequence of a gene name: its first four characters select the list. */
    function GetVjGeneSequence(queryName: string, species: string): string
      requires Valid()
    {
      if |queryName| < 4 then ""
      else
        var dictKey := species + "_" + queryName[..4];
        if dictKey in namesToPositions && queryName in namesToPositions[dictKey] then
          NameIndexMeaning(geneNames[dictKey]);
          geneSeqs[dictKey][namesToPositions[dictKey][queryName]]
        else ""
    }

    /**
      A listed name gives the sequence at the last index the name is listed
      at; a name shorter than four characters, or one its list does not
      hold, gives "".
    */
    lemma GetVjGeneSequenceMeaning(queryName: string, species: string)
      requires Valid()
      ensures |queryName| < 4 ==> GetVjGeneSequence(queryName, species) == ""
      ensures |queryName| >= 4 ==>
        var dictKey := species + "_" + queryName[..4];
        && (dictKey !in geneNames || queryName !in geneNames[dictKey] ==> GetVjGeneSequence(queryName, species) == "")
        && (dictKey in geneNames ==>
              forall k ::
                (&& 0 <= k < |geneNames[dictKey]| && geneNames[dictKey][k] == queryName
                 && forall k' :: k < k' < |geneNames[dictKey]| ==> geneNames[dictKey][k'] != queryName)
                ==> GetVjGeneSequence(queryName, species) == geneSeqs[dictKey][k])
    {
      if |queryName| >= 4 {
        var dictKey := species + "_" + queryName[..4];
        if dictKey in geneNames {
          NameIndexMeaning(geneNames[dictKey]);
        }
      }
    }
  }
}
