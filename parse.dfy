/** `parse_dataset_lines` of hui.py (lines 1-39), repeated verbatim in ihup.py
    (lines 1-39): the skip rules of the dataset line format
    `item_1 ... item_n : total : util_1 ... util_n`. Lines arrive already
    tokenised; converting a token to a number is not modelled. */
module Parse {
  import opened Db

  /** A dataset line: `blank` says the stripped line is empty; otherwise each
      colon-separated section is given by its whitespace-separated tokens,
      already converted to numbers. */
  datatype Line = Line(blank: bool, sections: seq<seq<int>>)

  /** What the parser makes of a whole input: the transactions, or the index
      of the first line whose total section is not one number (`float` raises
      there and the parse stops). */
  datatype Outcome = Parsed(txns: seq<Txn>) | BadTotal(line: nat)

  datatype LineResult = Skip | Keep(t: Txn) | Fail

  /** One line: skipped when blank, when it has other than three sections, or
      when its item and utility counts differ. */
  function ParseLine(l: Line): (r: LineResult)
    ensures r.Keep? ==> |r.t.items| == |r.t.utils|
  {
    if l.blank then Skip
    else if |l.sections| != 3 then Skip
    else if |l.sections[1]| != 1 then Fail
    else if |l.sections[0]| != |l.sections[2]| then Skip
    else Keep(Txn(l.sections[0], l.sections[2], l.sections[1][0]))
  }

  /** The parse of the first |lines| lines, one line at a time. */
  function ParseLines(lines: seq<Line>): Outcome {
    if |lines| == 0 then Parsed([])
    else
      match ParseLines(lines[..|lines| - 1])
      case BadTotal(i) => BadTotal(i)
      case Parsed(ts) =>
        match ParseLine(lines[|lines| - 1])
        case Skip => Parsed(ts)
        case Keep(t) => Parsed(ts + [t])
        case Fail => BadTotal(|lines| - 1)
  }

  /** The loop of `parse_dataset_lines`. */
  method ParseDatasetLines(lines: seq<Line>) returns (r: Outcome)
    ensures r == ParseLines(lines)
  {
    var parsed: seq<Txn> := [];
    for n := 0 to |lines|
      invariant ParseLines(lines[..n]) == Parsed(parsed)
    {
      assert lines[..n + 1][..n] == lines[..n];
      var l := lines[n];
      if l.blank {
        continue;
      }
      if |l.sections| != 3 {
        continue;
      }
      if |l.sections[1]| != 1 {
        assert ParseLines(lines[..n + 1]) == BadTotal(n);
        BadTotalSticks(lines, n + 1);
        return BadTotal(n);
      }
      var total := l.sections[1][0];
      if |l.sections[0]| != |l.sections[2]| {
        continue;
      }
      parsed := parsed + [Txn(l.sections[0], l.sections[2], total)];
    }
    assert lines[..|lines|] == lines;
    r := Parsed(parsed);
  }

  /** Once a prefix has failed, the whole input fails at the same line. */
  lemma {:induction false} BadTotalSticks(lines: seq<Line>, m: nat)
    requires m <= |lines| && ParseLines(lines[..m]).BadTotal?
    ensures ParseLines(lines) == ParseLines(lines[..m])
    decreases |lines| - m
  {
    if m < |lines| {
      assert lines[..m + 1][..m] == lines[..m];
      BadTotalSticks(lines, m + 1);
    } else {
      assert lines[..m] == lines;
    }
  }

  // ---------------------------------------------------------------------
  // An independent reading of the skip rules

  /** The transactions of the accepted lines, in input order. */
  function Accepted(lines: seq<Line>): seq<Txn> {
    if |lines| == 0 then []
    else (match ParseLine(lines[0]) case Keep(t) => [t] case _ => []) + Accepted(lines[1..])
  }

  predicate NoBadTotal(lines: seq<Line>) {
    forall i :: 0 <= i < |lines| ==> !ParseLine(lines[i]).Fail?
  }

  lemma {:induction false} AcceptedAppend(a: seq<Line>, b: seq<Line>)
    ensures Accepted(a + b) == Accepted(a) + Accepted(b)
  {
    if |a| == 0 {
      assert a + b == b;
    } else {
      assert (a + b)[1..] == a[1..] + b;
      AcceptedAppend(a[1..], b);
    }
  }

  /** Parsing never fails on input whose total sections are single numbers,
      and then yields exactly one transaction per accepted line, in order. */
  lemma {:induction false} ParseIsAccepted(lines: seq<Line>)
    requires NoBadTotal(lines)
    ensures ParseLines(lines) == Parsed(Accepted(lines))
  {
    if |lines| > 0 {
      var init := lines[..|lines| - 1];
      var last := lines[|lines| - 1];
      assert NoBadTotal(init) by {
        forall i | 0 <= i < |init| ensures !ParseLine(init[i]).Fail? {
          assert init[i] == lines[i];
        }
      }
      ParseIsAccepted(init);
      assert lines == init + [last];
      AcceptedAppend(init, [last]);
      assert [last][1..] == [];
      assert !ParseLine(lines[|lines| - 1]).Fail?;
    }
  }

  /** The first line with a malformed total stops the parse. */
  lemma {:induction false} ParseStopsAtBadTotal(lines: seq<Line>, i: nat)
    requires i < |lines| && ParseLine(lines[i]).Fail? && NoBadTotal(lines[..i])
    ensures ParseLines(lines) == BadTotal(i)
  {
    if i < |lines| - 1 {
      var init := lines[..|lines| - 1];
      assert init[i] == lines[i];
      assert init[..i] == lines[..i];
      ParseStopsAtBadTotal(init, i);
    } else {
      var init := lines[..|lines| - 1];
      assert init == lines[..i];
      ParseIsAccepted(init);
    }
  }

  /** Each accepted line carries one utility per item. */
  lemma {:induction false} AcceptedAligned(lines: seq<Line>)
    ensures forall t :: t in Accepted(lines) ==> |t.items| == |t.utils|
  {
    if |lines| > 0 {
      AcceptedAligned(lines[1..]);
    }
  }

  /** Blank lines, lines with other than three sections and lines whose
      counts differ are exactly the ones that add nothing. */
  lemma SkipRules(l: Line)
    ensures ParseLine(l).Skip? <==>
      l.blank || |l.sections| != 3 || (|l.sections[1]| == 1 && |l.sections[0]| != |l.sections[2]|)
  {
  }
}
