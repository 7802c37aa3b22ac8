// Files of text lines: what `str::lines` yields, and what an append does to the
// text of a file that ends its lines.
module TextFiles {
  import opened Basics
  import opened Lines
  import opened Utf8

  const NL: Scalar := 10
  const RETURN: Scalar := 13

  predicate IsWhitespace(c: Scalar) {
    || 9 <= c <= 13 || c == 0x20 || c == 0x85 || c == 0xA0 || c == 0x1680
    || 0x2000 <= c <= 0x200A || c == 0x2028 || c == 0x2029 || c == 0x202F
    || c == 0x205F || c == 0x3000
  }

  // `text.trim().is_empty()`
  predicate Blank(t: Text) {
    forall i :: 0 <= i < |t| ==> IsWhitespace(t[i])
  }

  // One line as `str::lines` yields it: a carriage return goes only together
  // with the line feed behind it.
  function Chomp(line: Text): Text {
    if !Terminated(line, NL) then line
    else
      var body := line[..|line| - 1];
      if Terminated(body, RETURN) then body[..|body| - 1] else body
  }

  // A line written with its line feed splits off as one line, and reads back
  // without it.
  lemma OneLineSplits(t: Text)
    requires NL !in t && !Terminated(t, RETURN)
    ensures SplitInclusive(t + [NL], NL) == [t + [NL]] && Chomp(t + [NL]) == t
  {
    IndexOfFirst(t, NL, []);
    assert t + [NL] + [] == t + [NL];
    assert (t + [NL])[..|t|] == t;
    assert SplitInclusive<Scalar>([], NL) == [];
  }

  // How an append ends: as asked, before the file opened, or after only some
  // of the line's bytes reached the file.
  datatype AppendFault = NoFault | CannotOpen | Torn(written: nat)

  function Prefix(b: Bytes, n: nat): Bytes {
    if n < |b| then b[..n] else b
  }

  lemma DecodeSuffix(body: Bytes, x: byte)
    requires x < 0x80
    ensures Decode(body + [x]).Some? <==> Decode(body).Some?
    ensures Decode(body).Some? ==> Decode(body + [x]).value == Decode(body).value + [x]
  {
    assert body + [x] + [] == body + [x];
    DecodeAcross(body, x, []);
  }

  lemma AppendedDecodes(before: Bytes, line: Bytes)
    requires before == [] || Terminated(before, LF)
    requires Decode(before).Some? && Decode(line).Some?
    ensures Decode(before + line) == Some(Decode(before).value + Decode(line).value)
    ensures Decode(before).value == [] || Terminated(Decode(before).value, NL)
  {
    if before == [] {
      assert before + line == line;
      assert Decode(before).value + Decode(line).value == Decode(line).value;
    } else {
      var body := before[..|before| - 1];
      assert before == body + [LF];
      DecodeSuffix(body, LF);
      DecodeAcross(body, LF, line);
    }
  }
}
