/**
  The reader of a scheme's consensus text file. The file is given as its
  sequence of lines. Reading starts after a line beginning with `#` and stops
  at a line beginning with `/`; each data line in between is
  `position,residue,residue,...`, the positions must run 1, 2, 3, ... and a
  `-` field means that any residue is accepted at that position.
*/
module ConsensusFile {
  import opened Wrappers
  import opened Text

  /**
    How a read ends: the two return codes of the reader (`VALID_CONSENSUS_FILE`
    = 1, `INVALID_CONSENSUS_FILE` = 0) and the exceptions escaping from it
    (`at(0)` on an empty line, `std::stoi` on a position field it cannot read).
  */
  datatype ReadStatus = ValidConsensusFile | InvalidConsensusFile | Threw

  /** The status together with the entries appended to the output so far. */
  datatype ReadResult = ReadResult(status: ReadStatus, entries: seq<seq<string>>)

  /** The comma fields of a data line; the first one is its position. */
  function LineFields(line: string): (fields: seq<string>)
    requires line != []
    ensures |fields| >= 1
  {
    GetlineFields(line, ',')
  }

  /**
    What a data line contributes: nothing is allowed specifically (an empty
    list) when some residue field is `-`; otherwise all residue fields, in order.
  */
  function LineEntry(fields: seq<string>): seq<string>
    requires |fields| >= 1
  {
    if "-" in fields[1..] then [] else fields[1..]
  }

  /**
    The reader as a state machine over the remaining lines: `readNow` is set
    by a `#` line, `lastPosition` is the position of the last data line and
    `acc` the output built so far.
  */
  function ReadFrom(lines: seq<string>, readNow: bool, lastPosition: int, acc: seq<seq<string>>): ReadResult
    decreases |lines|
  {
    if lines == [] then ReadResult(ValidConsensusFile, acc)
    else
      var line := lines[0];
      if line == [] then ReadResult(Threw, acc)
      else if line[0] == '#' then ReadFrom(lines[1..], true, lastPosition, acc)
      else if line[0] == '/' then ReadResult(ValidConsensusFile, acc)
      else if !readNow then ReadFrom(lines[1..], false, lastPosition, acc)
      else
        var fields := LineFields(line);
        match StoI(fields[0])
        case None => ReadResult(Threw, acc)
        case Some(position) =>
          if position - 1 != lastPosition then ReadResult(InvalidConsensusFile, acc)
          else ReadFrom(lines[1..], true, lastPosition + 1, acc + [LineEntry(fields)])
  }

  function ReadConsensus(lines: seq<string>): ReadResult
  {
    ReadFrom(lines, false, 0, [])
  }

  /**
    The data lines of a file, read declaratively: the lines after some `#`
    line that are neither `#` lines themselves nor at or after the first `/`
    line (or the first empty line, where the reader throws).
  */
  function DataLines(lines: seq<string>, readNow: bool): (d: seq<string>)
    ensures forall k :: 0 <= k < |d| ==> d[k] != [] && d[k][0] != '#' && d[k][0] != '/'
    decreases |lines|
  {
    if lines == [] || lines[0] == [] || lines[0][0] == '/' then []
    else if lines[0][0] == '#' then DataLines(lines[1..], true)
    else if readNow then [lines[0]] + DataLines(lines[1..], true)
    else DataLines(lines[1..], false)
  }

  /** One entry per data line, in file order. */
  function EntriesOf(d: seq<string>): (e: seq<seq<string>>)
    requires forall k :: 0 <= k < |d| ==> d[k] != []
    ensures |e| == |d|
  {
    if d == [] then [] else [LineEntry(LineFields(d[0]))] + EntriesOf(d[1..])
  }

  /** A successful read appends one entry per data line, in order. */
  lemma {:induction false} ReadFromEntries(lines: seq<string>, readNow: bool, lastPosition: int, acc: seq<seq<string>>)
    requires ReadFrom(lines, readNow, lastPosition, acc).status == ValidConsensusFile
    ensures ReadFrom(lines, readNow, lastPosition, acc).entries == acc + EntriesOf(DataLines(lines, readNow))
    decreases |lines|
  {
    if lines != [] && lines[0] != [] && lines[0][0] != '/' {
      if lines[0][0] == '#' {
        ReadFromEntries(lines[1..], true, lastPosition, acc);
      } else if !readNow {
        ReadFromEntries(lines[1..], false, lastPosition, acc);
      } else {
        var entry := LineEntry(LineFields(lines[0]));
        ReadFromEntries(lines[1..], true, lastPosition + 1, acc + [entry]);
        var d' := DataLines(lines[1..], true);
        assert DataLines(lines, readNow) == [lines[0]] + d';
        assert EntriesOf([lines[0]] + d') == [entry] + EntriesOf(d');
      }
    }
  }

  /** The data lines carry the positions first, first + 1, ... in order. */
  predicate Numbered(d: seq<string>, first: int)
    requires forall k :: 0 <= k < |d| ==> d[k] != []
    decreases |d|
  {
    d == [] || (StoI(LineFields(d[0])[0]) == Some(first) && Numbered(d[1..], first + 1))
  }

  lemma {:induction false} NumberedPositions(d: seq<string>, first: int)
    requires forall k :: 0 <= k < |d| ==> d[k] != []
    requires Numbered(d, first)
    ensures forall k :: 0 <= k < |d| ==> StoI(LineFields(d[k])[0]) == Some(first + k)
    decreases |d|
  {
    if d != [] {
      NumberedPositions(d[1..], first + 1);
      forall k | 0 <= k < |d|
        ensures StoI(LineFields(d[k])[0]) == Some(first + k)
      {
        if k > 0 {
          assert d[k] == d[1..][k - 1];
        }
      }
    }
  }

  /** In a successful read the data lines carry consecutive positions after `lastPosition`. */
  lemma {:induction false} ReadFromPositions(lines: seq<string>, readNow: bool, lastPosition: int, acc: seq<seq<string>>)
    requires ReadFrom(lines, readNow, lastPosition, acc).status == ValidConsensusFile
    ensures Numbered(DataLines(lines, readNow), lastPosition + 1)
    decreases |lines|
  {
    if lines != [] && lines[0] != [] && lines[0][0] != '/' {
      if lines[0][0] == '#' {
        ReadFromPositions(lines[1..], true, lastPosition, acc);
      } else if !readNow {
        ReadFromPositions(lines[1..], false, lastPosition, acc);
      } else {
        var entry := LineEntry(LineFields(lines[0]));
        ReadDataLine(lines, lastPosition, acc);
        ReadFromPositions(lines[1..], true, lastPosition + 1, acc + [entry]);
        var d := DataLines(lines, readNow);
        assert d == [lines[0]] + DataLines(lines[1..], true);
        assert d[1..] == DataLines(lines[1..], true);
      }
    }
  }

  /** A data line read successfully carries the next position, and reading goes on after it. */
  lemma ReadDataLine(lines: seq<string>, lastPosition: int, acc: seq<seq<string>>)
    requires lines != [] && lines[0] != [] && lines[0][0] != '#' && lines[0][0] != '/'
    requires ReadFrom(lines, true, lastPosition, acc).status == ValidConsensusFile
    ensures StoI(LineFields(lines[0])[0]) == Some(lastPosition + 1)
    ensures ReadFrom(lines[1..], true, lastPosition + 1, acc + [LineEntry(LineFields(lines[0]))])
      == ReadFrom(lines, true, lastPosition, acc)
  {
  }

  /**
    A successful read yields exactly one entry per data line, in order, and
    the data lines carry the positions 1, 2, ..., n; so the number of
    entries is the last position read.
  */
  lemma ReadConsensusCharacterized(lines: seq<string>)
    requires ReadConsensus(lines).status == ValidConsensusFile
    ensures var d := DataLines(lines, false);
      && ReadConsensus(lines).entries == EntriesOf(d)
      && forall k :: 0 <= k < |d| ==> StoI(LineFields(d[k])[0]) == Some(k + 1)
  {
    ReadFromEntries(lines, false, 0, []);
    ReadFromPositions(lines, false, 0, []);
    NumberedPositions(DataLines(lines, false), 1);
  }

  /** Nothing after the first `/` line is looked at. */
  lemma {:induction false} ReadStopsAtSlash(lines: seq<string>, k: nat, readNow: bool, lastPosition: int, acc: seq<seq<string>>)
    requires k < |lines| && lines[k] != [] && lines[k][0] == '/'
    ensures ReadFrom(lines, readNow, lastPosition, acc) == ReadFrom(lines[..k + 1], readNow, lastPosition, acc)
    decreases k
  {
    var prefix := lines[..k + 1];
    if k > 0 {
      assert prefix[1..] == lines[1..][..k];
      assert prefix[0] == lines[0];
      if lines[0] != [] && lines[0][0] != '/' && lines[0][0] != '#' && readNow {
        var fields := LineFields(lines[0]);
        match StoI(fields[0])
        case None =>
        case Some(position) =>
          if position - 1 == lastPosition {
            ReadStopsAtSlash(lines[1..], k - 1, true, lastPosition + 1, acc + [LineEntry(fields)]);
          }
      } else {
        ReadStopsAtSlash(lines[1..], k - 1, if lines[0] != [] && lines[0][0] == '#' then true else readNow, lastPosition, acc);
      }
    }
  }

  /** Lines before the first `#` line are skipped unread (unless one is empty or a `/` line). */
  lemma {:induction false} ReadSkipsPreamble(preamble: seq<string>, lines: seq<string>)
    requires forall k :: 0 <= k < |preamble| ==> preamble[k] != [] && preamble[k][0] != '#' && preamble[k][0] != '/'
    ensures ReadConsensus(preamble + lines) == ReadConsensus(lines)
    decreases |preamble|
  {
    if preamble != [] {
      assert (preamble + lines)[1..] == preamble[1..] + lines;
      assert ReadFrom(preamble + lines, false, 0, []) == ReadFrom(preamble[1..] + lines, false, 0, []);
      ReadSkipsPreamble(preamble[1..], lines);
    } else {
      assert preamble + lines == lines;
    }
  }

  /** `read_consensus_file` once the file has been opened: a loop over its lines. */
  method ReadConsensusFile(lines: seq<string>) returns (status: ReadStatus, consensusAAs: seq<seq<string>>)
    ensures ReadResult(status, consensusAAs) == ReadConsensus(lines)
    ensures status == ValidConsensusFile ==>
      var d := DataLines(lines, false);
      && consensusAAs == EntriesOf(d)
      && forall k :: 0 <= k < |d| ==> StoI(LineFields(d[k])[0]) == Some(k + 1)
  {
    var lastPosition := 0;
    var readNow := false;
    consensusAAs := [];
    var n := 0;
    while n < |lines|
      invariant 0 <= n <= |lines|
      invariant ReadFrom(lines[n..], readNow, lastPosition, consensusAAs) == ReadConsensus(lines)
    {
      var currentLine := lines[n];
      assert lines[n..][0] == currentLine && lines[n..][1..] == lines[n + 1..];
      n := n + 1;
      if |currentLine| == 0 {
        status := Threw;
        return;
      }
      if currentLine[0] == '#' {
        readNow := true;
        continue;
      }
      if currentLine[0] == '/' {
        break;
      }
      if !readNow {
        continue;
      }
      var fields := LineFields(currentLine);
      ghost var previous, acc := lastPosition, consensusAAs;
      var firstSegment, allAAsAllowed := true, false;
      var allowedAAs: seq<string> := [];
      var f := 0;
      while f < |fields|
        invariant 0 <= f <= |fields|
        invariant firstSegment <==> f == 0
        invariant f == 0 ==> lastPosition == previous && allowedAAs == []
        invariant f > 0 ==> StoI(fields[0]) == Some(previous + 1) && lastPosition == previous + 1
        invariant f > 0 ==> allowedAAs == fields[1..f] && "-" !in allowedAAs
        invariant !allAAsAllowed && consensusAAs == acc
      {
        var segment := fields[f];
        if firstSegment {
          var position := StoI(segment);
          if position.None? {
            status := Threw;
            return;
          }
          if position.value - 1 != lastPosition {
            status := InvalidConsensusFile;
            return;
          }
          firstSegment := false;
          lastPosition := lastPosition + 1;
        } else {
          if segment == "-" {
            assert "-" in fields[1..];
            consensusAAs := consensusAAs + [[]];
            allAAsAllowed := true;
            break;
          }
          assert fields[1..f + 1] == fields[1..f] + [segment];
          allowedAAs := allowedAAs + [segment];
        }
        f := f + 1;
      }
      if !allAAsAllowed {
        assert fields[1..] == allowedAAs;
        consensusAAs := consensusAAs + [allowedAAs];
      }
    }
    status := ValidConsensusFile;
    if status == ValidConsensusFile {
      ReadConsensusCharacterized(lines);
    }
  }
}
