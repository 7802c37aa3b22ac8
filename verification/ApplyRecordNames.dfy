// The stored name of an apply record, and reading one back.
module ApplyRecordNames {
  import opened Basics
  import opened Decimal
  import opened Sorting

  const PLAN_WIDTH := 64
  const NANOS_WIDTH := 20
  const SEQUENCE_WIDTH := 4

  // How many names one record tries.
  const MAX_SEQUENCE := 10000

  predicate IsLowerHex(c: char) {
    IsDigit(c) || 'a' <= c <= 'f'
  }

  // A plan id, as the lowercase hex it is written in.
  predicate IsPlanText(s: string) {
    |s| == PLAN_WIDTH && forall i :: 0 <= i < |s| ==> IsLowerHex(s[i])
  }

  // Nanoseconds since the epoch; an earlier instant counts as the epoch.
  function Instant(takenAt: int): nat {
    if takenAt < 0 then 0 else takenAt
  }

  // `apply_record_name`
  function RecordName(plan: string, takenAt: int, sequence: nat): string {
    plan + "-" + (Pad(Instant(takenAt), NANOS_WIDTH) + "-" + Pad(sequence, SEQUENCE_WIDTH))
  }

  datatype Parsed = Parsed(plan: string, takenAt: int, sequence: nat)

  // `parse_apply_record_name`; twenty digits of nanoseconds fit the clock.
  function ParseRecordName(name: string): Option<Parsed> {
    var i := DashAt(name);
    if i == |name| then None
    else
      var rest := name[i + 1..];
      var j := DashAt(rest);
      if j == |rest| then None
      else
        var plan, nanos, sequence := name[..i], rest[..j], rest[j + 1..];
        if '-' in sequence then None
        else if |plan| != PLAN_WIDTH || |nanos| != NANOS_WIDTH || |sequence| != SEQUENCE_WIDTH then None
        else if !AllDigits(nanos) || !AllDigits(sequence) || !IsPlanText(plan) then None
        else Some(Parsed(plan, Value(nanos), Value(sequence)))
  }

  lemma NameSplits(plan: string, takenAt: int, sequence: nat)
    requires IsPlanText(plan)
    ensures var name := RecordName(plan, takenAt, sequence);
            var nanos := Pad(Instant(takenAt), NANOS_WIDTH);
            && DashAt(name) == |plan| < |name| && name[..|plan|] == plan
            && name[|plan| + 1..] == nanos + "-" + Pad(sequence, SEQUENCE_WIDTH)
            && DashAt(name[|plan| + 1..]) == |nanos|
  {
    hide Pad, DashAt;
    var nanos := Pad(Instant(takenAt), NANOS_WIDTH);
    DashAfter(plan, nanos + "-" + Pad(sequence, SEQUENCE_WIDTH));
    DashAfter(nanos, Pad(sequence, SEQUENCE_WIDTH));
  }

  // A stored name reads back to its parts exactly when the instant fits twenty
  // digits; otherwise it does not read back at all.
  lemma NameReadsBackIff(plan: string, takenAt: int, sequence: nat)
    requires IsPlanText(plan) && sequence < MAX_SEQUENCE
    ensures var instant := if takenAt < 0 then 0 else takenAt;
            ParseRecordName(RecordName(plan, takenAt, sequence))
            == if instant < Pow10(20) then Some(Parsed(plan, instant, sequence)) else None
  {
    hide Pad, DashAt, Pow10;
    NameSplits(plan, takenAt, sequence);
    var nanos, tail := Pad(Instant(takenAt), NANOS_WIDTH), Pad(sequence, SEQUENCE_WIDTH);
    var rest := nanos + "-" + tail;
    assert rest[..|nanos|] == nanos && rest[|nanos| + 1..] == tail;
    assert AllDigits(tail) && '-' !in tail;
    PadLength(Instant(takenAt), NANOS_WIDTH);
    SequenceFits(sequence);
    ValueOfPad(Instant(takenAt), NANOS_WIDTH);
    ValueOfPad(sequence, SEQUENCE_WIDTH);
  }

  lemma SequenceFits(sequence: nat)
    requires sequence < MAX_SEQUENCE
    ensures |Pad(sequence, SEQUENCE_WIDTH)| == SEQUENCE_WIDTH
  {
    assert Pow10(2) == 100 && Pow10(4) == 10000;
    PadLength(sequence, SEQUENCE_WIDTH);
  }

  // No two records share a name, at any instant.
  lemma NamesAreDistinct(plan: string, takenAt: int, sequence: nat, plan': string, takenAt': int, sequence': nat)
    requires IsPlanText(plan) && IsPlanText(plan')
    requires RecordName(plan, takenAt, sequence) == RecordName(plan', takenAt', sequence')
    ensures plan == plan' && Instant(takenAt) == Instant(takenAt') && sequence == sequence'
  {
    hide Pad, DashAt;
    NameSplits(plan, takenAt, sequence);
    NameSplits(plan', takenAt', sequence');
    var nanos, tail := Pad(Instant(takenAt), NANOS_WIDTH), Pad(sequence, SEQUENCE_WIDTH);
    var nanos', tail' := Pad(Instant(takenAt'), NANOS_WIDTH), Pad(sequence', SEQUENCE_WIDTH);
    var rest := nanos + "-" + tail;
    assert rest == nanos' + "-" + tail';
    assert nanos == rest[..|nanos|] == nanos' && tail == rest[|nanos| + 1..] == tail';
    ValueOfPad(Instant(takenAt), NANOS_WIDTH);
    ValueOfPad(Instant(takenAt'), NANOS_WIDTH);
    ValueOfPad(sequence, SEQUENCE_WIDTH);
    ValueOfPad(sequence', SEQUENCE_WIDTH);
  }

  // Digit strings of one width sort as the numbers they spell.
  lemma {:induction false} DigitsSortAsNumbers(a: string, b: string)
    requires |a| == |b| && AllDigits(a) && AllDigits(b)
    ensures Before(Codes(a), Codes(b)) <==> Value(a) < Value(b)
    ensures Value(a) == Value(b) ==> a == b
  {
    if a != [] {
      var k := |a| - 1;
      DigitsSortAsNumbers(a[..k], b[..k]);
      BeforeAppend(Codes(a[..k]), [a[k] as int], Codes(b[..k]), [b[k] as int]);
      assert Codes(a) == Codes(a[..k]) + [a[k] as int] && Codes(b) == Codes(b[..k]) + [b[k] as int];
      CodesDecide(a[..k], b[..k]);
      assert a == a[..k] + [a[k]] && b == b[..k] + [b[k]];
    }
  }

  lemma CodesDecide(a: string, b: string)
    ensures Codes(a) == Codes(b) <==> a == b
  {
    if Codes(a) == Codes(b) {
      assert forall i :: 0 <= i < |a| ==> a[i] as int == Codes(a)[i] == Codes(b)[i] == b[i] as int;
    }
  }

  lemma CodesAppend(a: string, b: string)
    ensures Codes(a + b) == Codes(a) + Codes(b)
  {
  }

  lemma BeforeNamed(a: string, x: string, b: string, y: string)
    requires |a| == |b|
    ensures Before(Codes(a + x), Codes(b + y)) <==> Before(Codes(a), Codes(b)) || (a == b && Before(Codes(x), Codes(y)))
  {
    CodesAppend(a, x);
    CodesAppend(b, y);
    CodesDecide(a, b);
    BeforeAppend(Codes(a), Codes(x), Codes(b), Codes(y));
  }

  // The fixed widths make one plan's names sort the way its records do: by
  // instant, then by attempt, as long as the instants fit twenty digits.
  lemma NamesSortByInstant(plan: string, takenAt: int, sequence: nat, takenAt': int, sequence': nat)
    requires Instant(takenAt) < Pow10(NANOS_WIDTH) && Instant(takenAt') < Pow10(NANOS_WIDTH)
    requires sequence < MAX_SEQUENCE && sequence' < MAX_SEQUENCE
    ensures Before(Codes(RecordName(plan, takenAt, sequence)), Codes(RecordName(plan, takenAt', sequence')))
            <==> Instant(takenAt) < Instant(takenAt') || (Instant(takenAt) == Instant(takenAt') && sequence < sequence')
  {
    hide Pad, Before, Codes, Pow10;
    var nanos, tail := Pad(Instant(takenAt), NANOS_WIDTH), Pad(sequence, SEQUENCE_WIDTH);
    var nanos', tail' := Pad(Instant(takenAt'), NANOS_WIDTH), Pad(sequence', SEQUENCE_WIDTH);
    PadLength(Instant(takenAt), NANOS_WIDTH);
    PadLength(Instant(takenAt'), NANOS_WIDTH);
    SequenceFits(sequence);
    SequenceFits(sequence');
    BeforeTrichotomy(Codes(plan + "-"), Codes(plan + "-"));
    BeforeNamed(plan + "-", nanos + "-" + tail, plan + "-", nanos' + "-" + tail');
    BeforeNamed(nanos + "-", tail, nanos' + "-", tail');
    BeforeNamed(nanos, "-", nanos', "-");
    BeforeTrichotomy(Codes("-"), Codes("-"));
    DigitsSortAsNumbers(nanos, nanos');
    DigitsSortAsNumbers(tail, tail');
    ValueOfPad(Instant(takenAt), NANOS_WIDTH);
    ValueOfPad(Instant(takenAt'), NANOS_WIDTH);
    ValueOfPad(sequence, SEQUENCE_WIDTH);
    ValueOfPad(sequence', SEQUENCE_WIDTH);
    assert nanos + "-" == nanos' + "-" ==> nanos == nanos' by {
      assert (nanos + "-")[..|nanos|] == nanos && (nanos' + "-")[..|nanos'|] == nanos';
    }
  }

  // Digits of one width are the padded number they spell.
  lemma PadOfValue(s: string, width: nat)
    requires AllDigits(s) && |s| == width >= 1
    ensures Pad(Value(s), width) == s
  {
    hide Pad, Value, Before, Pow10, Codes;
    ValueBound(s);
    PadLength(Value(s), width);
    ValueOfPad(Value(s), width);
    DigitsSortAsNumbers(Pad(Value(s), width), s);
  }

  // A name parses to a plan, an instant and an attempt exactly when it is the name
  // such a record is stored under.
  lemma ParsesIff(name: string, parsed: Parsed)
    ensures ParseRecordName(name) == Some(parsed) <==>
            && IsPlanText(parsed.plan) && 0 <= parsed.takenAt < Pow10(20) && parsed.sequence < 10_000
            && name == RecordName(parsed.plan, parsed.takenAt, parsed.sequence)
  {
    hide Pow10, Pad, Value, IsPlanText;
    if ParseRecordName(name) == Some(parsed) {
      var i := DashAt(name);
      var rest := name[i + 1..];
      var j := DashAt(rest);
      var nanos, sequence := rest[..j], rest[j + 1..];
      PadOfValue(nanos, NANOS_WIDTH);
      PadOfValue(sequence, SEQUENCE_WIDTH);
      ValueBound(nanos);
      ValueBound(sequence);
      FourDigits();
      assert name == name[..i] + "-" + rest && rest == nanos + "-" + sequence;
    }
    if IsPlanText(parsed.plan) && 0 <= parsed.takenAt < Pow10(20) && parsed.sequence < 10_000 {
      NameReadsBackIff(parsed.plan, parsed.takenAt, parsed.sequence);
    }
  }

  lemma FourDigits()
    ensures Pow10(4) == 10_000
  {
    assert Pow10(2) == 100;
  }
}
