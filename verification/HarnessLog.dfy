// One run's log: frames kept up to a bound that always leaves room for the
// lines that end it.
module HarnessLog {
  import opened Basics
  import opened Decimal

  const RESERVED_TAIL_BYTES := 256
  const FLUSH_EVERY_FRAMES := 256

  // A line is the sequence of its bytes, its newline included.
  type Line = string

  datatype TerminalState = Exited(code: Option<int>) | Killed | OrphanRiskUncertain

  // A frame as the supervisor hands it over; `json` is the text line's object.
  datatype Frame = TextFrame(json: string) | StateFrame

  predicate IsI32(n: int) {
    -0x8000_0000 <= n < 0x8000_0000
  }

  function Signed(n: int): string {
    if n < 0 then "-" + Digits(-n) else Digits(n)
  }

  function StateFields(state: TerminalState): string {
    match state
    case Exited(None) => "\"exited\",\"code\":null"
    case Exited(Some(code)) => "\"exited\",\"code\":" + Signed(code)
    case Killed => "\"killed\",\"code\":null"
    case OrphanRiskUncertain => "\"orphan-risk/uncertain\",\"code\":null"
  }

  function MarkerLine(framesDropped: nat): Line {
    "{\"kind\":\"truncated\",\"framesDropped\":" + Digits(framesDropped) + "}\n"
  }

  function StateLine(state: TerminalState, droppedBefore: nat): Line {
    "{\"kind\":\"state\",\"droppedBefore\":" + Digits(droppedBefore) + ",\"state\":" + StateFields(state) + "}\n"
  }

  const EXITED := "\"exited\",\"code\":"
  const KILLED := "\"killed\",\"code\":"
  const UNCERTAIN := "\"orphan-risk/uncertain\",\"code\":"

  // The number a signed decimal text spells.
  function SignedValue(s: string): Option<int> {
    if s != [] && AllDigits(s) then Some(Value(s))
    else if |s| > 1 && s[0] == '-' && AllDigits(s[1..]) then Some(-(Value(s[1..]) as int))
    else None
  }

  // Each terminal state is named as itself, followed by its exit code, if it has one,
  // and `null` otherwise.
  lemma StateIsNamed(state: TerminalState)
    ensures EXITED <= StateFields(state) <==> state.Exited?
    ensures KILLED <= StateFields(state) <==> state.Killed?
    ensures UNCERTAIN <= StateFields(state) <==> state.OrphanRiskUncertain?
    ensures var code := StateFields(state)[if state.Exited? then |EXITED| else if state.Killed? then |KILLED|
                                           else |UNCERTAIN|..];
            if state.Exited? && state.code.Some? then SignedValue(code) == Some(state.code.value) else code == "null"
  {
    assert EXITED[1] == 'e' && KILLED[1] == 'k' && UNCERTAIN[1] == 'o';
    if state.Exited? && state.code.Some? {
      var n := state.code.value;
      assert StateFields(state) == EXITED + Signed(n);
      ValueOfDigits(if n < 0 then -n else n);
      if n < 0 {
        assert Signed(n)[1..] == Digits(-n) && !IsDigit(Signed(n)[0]);
      }
    }
  }

  // The closing lines say how many frames were dropped, here and before the log.
  lemma LinesCount(framesDropped: nat, state: TerminalState, droppedBefore: nat)
    ensures var front := "{\"kind\":\"truncated\",\"framesDropped\":";
            exists digits: string :: AllDigits(digits) && Value(digits) == framesDropped
              && MarkerLine(framesDropped) == front + digits + "}\n"
    ensures var front := "{\"kind\":\"state\",\"droppedBefore\":";
            exists digits: string :: AllDigits(digits) && Value(digits) == droppedBefore
              && StateLine(state, droppedBefore) == front + digits + ",\"state\":" + StateFields(state) + "}\n"
  {
    ValueOfDigits(framesDropped);
    ValueOfDigits(droppedBefore);
  }

  function TotalLength(lines: seq<Line>): nat {
    if lines == [] then 0 else TotalLength(lines[..|lines| - 1]) + |lines[|lines| - 1]|
  }

  lemma U64Digits(n: nat)
    requires n < U64_END
    ensures |Digits(n)| <= 20
  {
    DigitsLength(n, 20);
    assert Pow10(20) == 100_000_000_000_000_000_000 by {
      assert Pow10(4) == 10_000 by {
        assert Pow10(4) == 10 * Pow10(3) && Pow10(3) == 10 * Pow10(2) && Pow10(2) == 10 * Pow10(1);
      }
      PowStep(4);
      PowStep(8);
      PowStep(12);
      PowStep(16);
    }
  }

  lemma PowStep(k: nat)
    ensures Pow10(k + 4) == 10_000 * Pow10(k)
  {
    assert Pow10(k + 4) == 10 * Pow10(k + 3) && Pow10(k + 3) == 10 * Pow10(k + 2);
    assert Pow10(k + 2) == 10 * Pow10(k + 1) && Pow10(k + 1) == 10 * Pow10(k);
  }

  lemma I32Digits(n: int)
    requires IsI32(n)
    ensures |Signed(n)| <= 11
  {
    var m := if n < 0 then -n else n;
    DigitsLength(m, 10);
    assert Pow10(10) == 10_000_000_000 by {
      assert Pow10(2) == 100 by { assert Pow10(2) == 10 * Pow10(1); }
      PowStep(2);
      PowStep(6);
    }
  }

  // Whatever the counters and the exit code, the two closing lines fit the room
  // kept for them.
  lemma TailFits(framesDropped: nat, state: TerminalState, droppedBefore: nat)
    requires framesDropped < U64_END && droppedBefore < U64_END
    requires state.Exited? && state.code.Some? ==> IsI32(state.code.value)
    ensures |MarkerLine(framesDropped)| + |StateLine(state, droppedBefore)| <= 256
  {
    U64Digits(framesDropped);
    U64Digits(droppedBefore);
    if state.Exited? && state.code.Some? {
      I32Digits(state.code.value);
    }
  }

  lemma TotalLengthAppend(lines: seq<Line>, line: Line)
    ensures TotalLength(lines + [line]) == TotalLength(lines) + |line|
  {
    assert (lines + [line])[..|lines|] == lines;
  }

  predicate Roomy(header: Line, cap: nat, texts: seq<Line>) {
    TotalLength([header] + texts) + RESERVED_TAIL_BYTES <= cap
  }

  // How many of the text frames are kept.
  function Kept(header: Line, cap: nat, texts: seq<Line>): (k: nat)
    ensures k <= |texts|
  {
    if texts == [] then 0
    else
      var front := texts[..|texts| - 1];
      var k := Kept(header, cap, front);
      if k == |front| && Roomy(header, cap, texts) then k + 1 else k
  }

  function KeptLines(header: Line, cap: nat, texts: seq<Line>): seq<Line> {
    [header] + texts[..Kept(header, cap, texts)]
  }

  // The whole file of a run that offered `texts` and then ended.
  function FileOf(header: Line, cap: nat, texts: seq<Line>, state: TerminalState, droppedBefore: nat): seq<Line> {
    var dropped := |texts| - Kept(header, cap, texts);
    KeptLines(header, cap, texts)
    + (if dropped > 0 then [MarkerLine(dropped)] else [])
    + [StateLine(state, droppedBefore)]
  }

  // The kept frames are the longest run of first frames that leaves the
  // reserved room at every point; the next one, if any, did not fit.
  lemma {:induction false} KeptIsLongest(header: Line, cap: nat, texts: seq<Line>)
    ensures var k := Kept(header, cap, texts);
            && (forall j :: 0 < j <= k ==> Roomy(header, cap, texts[..j]))
            && (k < |texts| ==> !Roomy(header, cap, texts[..k + 1]))
  {
    if texts != [] {
      var front, k := texts[..|texts| - 1], Kept(header, cap, texts);
      KeptIsLongest(header, cap, front);
      assert forall j :: 0 <= j <= |front| ==> texts[..j] == front[..j];
      assert texts[..|texts|] == texts;
    }
  }

  // The header and the first `j` frames leave the reserved room.
  predicate FitsUpTo(header: Line, cap: nat, texts: seq<Line>, j: nat)
    requires j <= |texts|
  {
    TotalLength([header] + texts[..j]) + 256 <= cap
  }

  // The file of a run: its header, every frame and the state line when the frames leave
  // that room; otherwise the frames before the first that does not, one line that
  // counts the others, and the state line.
  lemma FileMeans(header: Line, cap: nat, texts: seq<Line>, state: TerminalState, droppedBefore: nat)
    ensures var file, last := FileOf(header, cap, texts, state, droppedBefore), StateLine(state, droppedBefore);
            if forall j :: 0 < j <= |texts| ==> FitsUpTo(header, cap, texts, j)
            then file == [header] + texts + [last]
            else exists k :: && 0 <= k < |texts| && !FitsUpTo(header, cap, texts, k + 1)
                             && (forall j :: 0 < j <= k ==> FitsUpTo(header, cap, texts, j))
                             && file == [header] + texts[..k] + [MarkerLine(|texts| - k), last]
  {
    hide TotalLength, Kept, MarkerLine, StateLine;
    KeptIsLongest(header, cap, texts);
    var k := Kept(header, cap, texts);
    assert forall j :: 0 < j <= k ==> Roomy(header, cap, texts[..j]) && FitsUpTo(header, cap, texts, j);
    if k < |texts| {
      assert !FitsUpTo(header, cap, texts, k + 1);
      assert FileOf(header, cap, texts, state, droppedBefore)
             == [header] + texts[..k] + [MarkerLine(|texts| - k), StateLine(state, droppedBefore)];
    } else {
      assert texts[..k] == texts;
    }
  }

  // Over every run: the file, from its header to its one state line, is within
  // the bound whenever the header left the reserved room.
  lemma FileFits(header: Line, cap: nat, texts: seq<Line>, state: TerminalState, droppedBefore: nat)
    requires |texts| < U64_END && droppedBefore < U64_END
    requires state.Exited? && state.code.Some? ==> IsI32(state.code.value)
    requires |header| + 256 <= cap
    ensures TotalLength(FileOf(header, cap, texts, state, droppedBefore)) <= cap
  {
    hide MarkerLine, StateLine;
    var k := Kept(header, cap, texts);
    var kept := KeptLines(header, cap, texts);
    KeptIsLongest(header, cap, texts);
    if k == 0 {
      assert kept == [] + [header];
      TotalLengthAppend([], header);
    } else {
      assert Roomy(header, cap, texts[..k]);
    }
    TailFits(|texts| - k, state, droppedBefore);
    var last := StateLine(state, droppedBefore);
    if k < |texts| {
      TotalLengthAppend(kept, MarkerLine(|texts| - k));
      TotalLengthAppend(kept + [MarkerLine(|texts| - k)], last);
    } else {
      assert kept + [] == kept;
      TotalLengthAppend(kept, last);
    }
  }

  class HarnessLog {
    // The lines handed to the writer, and how many of them reached the file.
    var lines: seq<Line>
    var flushed: nat
    var written: nat
    const cap: nat
    var framesDropped: nat
    var framesSinceFlush: nat
    // The header and every text frame's line offered since.
    ghost const header: Line
    ghost var offered: seq<Line>

    ghost predicate Valid()
      reads this
    {
      && lines == KeptLines(header, cap, offered)
      && framesDropped == |offered| - Kept(header, cap, offered)
      && written == TotalLength(lines)
      && flushed + framesSinceFlush == |lines| && framesSinceFlush < 256
    }

    // `from_writer`
    constructor (header: Line, cap: nat)
      ensures Valid() && this.header == header && this.cap == cap
      ensures offered == [] && flushed == 1
    {
      lines, flushed, written := [header], 1, |header|;
      this.cap, framesDropped, framesSinceFlush := cap, 0, 0;
      offered := [];
      this.header := header;
      new;
      TotalLengthAppend([], header);
      assert [] + [header] == [header] && [header] + [] == [header];
    }

    method WriteFrame(frame: Frame)
      requires Valid()
      modifies this
      ensures Valid()
      ensures offered == old(offered) + if frame.TextFrame? then [frame.json + "\n"] else []
      // Every 256 lines are flushed at once.
      ensures flushed == if |lines| - old(flushed) >= 256 then |lines| else old(flushed)
    {
      hide Roomy, Kept, TotalLength;
      if frame.StateFrame? {
        return;
      }
      var bytes := frame.json + "\n";
      ghost var before := offered;
      offered := offered + [bytes];
      assert offered[..|before|] == before;
      if framesDropped > 0 || written + |bytes| + RESERVED_TAIL_BYTES > cap {
        NotKept(header, cap, before, bytes);
        framesDropped := framesDropped + 1;
        return;
      }
      KeptToo(header, cap, before, bytes);
      TotalLengthAppend(lines, bytes);
      lines := lines + [bytes];
      written := written + |bytes|;
      framesSinceFlush := framesSinceFlush + 1;
      if framesSinceFlush >= FLUSH_EVERY_FRAMES {
        framesSinceFlush := 0;
        flushed := |lines|;
      }
    }

    // The closing lines are always written.
    method WriteState(state: TerminalState, droppedBefore: nat)
      requires Valid()
      modifies this
      ensures lines == FileOf(header, cap, offered, state, droppedBefore)
      ensures offered == old(offered) && framesDropped == old(framesDropped)
      ensures written == TotalLength(lines) && flushed == |lines|
    {
      hide MarkerLine, StateLine, TotalLength, Kept;
      if framesDropped > 0 {
        var marker := MarkerLine(framesDropped);
        TotalLengthAppend(lines, marker);
        lines := lines + [marker];
        written := written + |marker|;
      }
      var line := StateLine(state, droppedBefore);
      TotalLengthAppend(lines, line);
      lines := lines + [line];
      written := written + |line|;
      flushed := |lines|;
    }
  }

  lemma KeptToo(header: Line, cap: nat, before: seq<Line>, line: Line)
    requires Kept(header, cap, before) == |before|
    requires TotalLength(KeptLines(header, cap, before)) + |line| + RESERVED_TAIL_BYTES <= cap
    ensures KeptLines(header, cap, before + [line]) == KeptLines(header, cap, before) + [line]
    ensures Kept(header, cap, before + [line]) == |before| + 1
  {
    var all := before + [line];
    assert all[..|before|] == before && before[..|before|] == before && all[..|before| + 1] == all;
    assert [header] + all == KeptLines(header, cap, before) + [line];
    TotalLengthAppend(KeptLines(header, cap, before), line);
  }

  lemma NotKept(header: Line, cap: nat, before: seq<Line>, line: Line)
    requires Kept(header, cap, before) < |before| ||
             TotalLength(KeptLines(header, cap, before)) + |line| + RESERVED_TAIL_BYTES > cap
    ensures KeptLines(header, cap, before + [line]) == KeptLines(header, cap, before)
    ensures Kept(header, cap, before + [line]) == Kept(header, cap, before)
  {
    var all, k := before + [line], Kept(header, cap, before);
    assert all[..|before|] == before && all[..k] == before[..k];
    if k == |before| {
      assert [header] + all == KeptLines(header, cap, before) + [line];
      TotalLengthAppend(KeptLines(header, cap, before), line);
    }
  }
}
