// The display-name rule, and exactly when applying it again changes nothing.
module DisplayNames {
  import opened Basics
  import opened TextFiles
  import Utf8

  const MAX_BYTES := 255
  const UNDERSCORE: Scalar := 95
  const DOT: Scalar := 46
  const SPACE: Scalar := 32
  // "unnamed"
  const EMPTY_FALLBACK: Text := [117, 110, 110, 97, 109, 101, 100]

  predicate IsSeparator(c: Scalar) {
    c == 47 || c == 92
  }

  predicate IsControl(c: Scalar) {
    c < 0x20 || 0x7F <= c < 0xA0
  }

  predicate IsBidiControl(c: Scalar) {
    0x202A <= c <= 0x202E || 0x2066 <= c <= 0x2069
  }

  function UntilSeparator(t: Text): (i: nat)
    ensures i <= |t|
    ensures forall k :: 0 <= k < i ==> !IsSeparator(t[k])
    ensures i < |t| ==> IsSeparator(t[i])
  {
    if t == [] || IsSeparator(t[0]) then 0 else 1 + UntilSeparator(t[1..])
  }

  // The components that are not empty, `.` or `..`, joined by underscores.
  function JoinComponents(t: Text, joined: Text): Text
    decreases |t|
  {
    var i := UntilSeparator(t);
    var component := t[..i];
    var next :=
      if component == [] || component == [DOT] || component == [DOT, DOT] then joined
      else if joined == [] then component
      else joined + [UNDERSCORE] + component;
    if i == |t| then next else JoinComponents(t[i + 1..], next)
  }

  function StripControls(t: Text): Text {
    if t == [] then []
    else (if IsControl(t[0]) || IsBidiControl(t[0]) then [] else [t[0]]) + StripControls(t[1..])
  }

  function ByteLength(t: Text): nat {
    |Utf8.Encode(t)|
  }

  // The longest prefix of at most `room` bytes.
  function Fitting(t: Text, room: nat): (r: Text)
    ensures r <= t
  {
    if t == [] || |Utf8.EncodeOne(t[0])| > room then []
    else [t[0]] + Fitting(t[1..], room - |Utf8.EncodeOne(t[0])|)
  }

  function TrimEnd(t: Text): (r: Text)
    ensures r <= t
    ensures r == [] || (r[|r| - 1] != DOT && r[|r| - 1] != SPACE)
  {
    if t != [] && (t[|t| - 1] == DOT || t[|t| - 1] == SPACE) then TrimEnd(t[..|t| - 1]) else t
  }

  // How many leading characters are whitespace.
  function LeadingBlanks(t: Text): (n: nat)
    ensures n <= |t|
    ensures n < |t| ==> !IsWhitespace(t[n])
  {
    if t != [] && IsWhitespace(t[0]) then 1 + LeadingBlanks(t[1..]) else 0
  }

  function UpperOne(c: Scalar): Scalar {
    if 97 <= c <= 122 then c - 32 else c
  }

  function Upper(t: Text): Text {
    seq(|t|, i requires 0 <= i < |t| => UpperOne(t[i]))
  }

  // CON, PRN, AUX, NUL, COM1 to COM9 and LPT1 to LPT9, in any case.
  predicate IsReservedDeviceName(stem: Text) {
    var u := Upper(stem);
    || u == [67, 79, 78] || u == [80, 82, 78] || u == [65, 85, 88] || u == [78, 85, 76]
    || (|u| == 4 && (u[..3] == [67, 79, 77] || u[..3] == [76, 80, 84]) && 49 <= u[3] <= 57)
  }

  function Stem(t: Text): Text {
    if t == [] || t[0] == DOT then [] else [t[0]] + Stem(t[1..])
  }

  function Trimmed(t: Text): Text {
    var ended := TrimEnd(t);
    ended[LeadingBlanks(ended)..]
  }

  function Shortened(raw: Text): Text {
    Trimmed(Fitting(StripControls(JoinComponents(raw, [])), MAX_BYTES))
  }

  // `DisplayName::sanitize`
  function Sanitize(raw: Text): Text {
    var trimmed := Shortened(raw);
    if trimmed == [] then EMPTY_FALLBACK
    else if IsReservedDeviceName(Stem(trimmed)) then [UNDERSCORE] + trimmed
    else trimmed
  }

  predicate IsPlain(c: Scalar) {
    !IsSeparator(c) && !IsControl(c) && !IsBidiControl(c)
  }

  predicate Plain(t: Text) {
    forall i :: 0 <= i < |t| ==> IsPlain(t[i])
  }

  predicate NoSeparator(t: Text) {
    forall i :: 0 <= i < |t| ==> !IsSeparator(t[i])
  }

  lemma {:induction false} JoinedHasNoSeparator(t: Text, joined: Text)
    requires NoSeparator(joined)
    ensures NoSeparator(JoinComponents(t, joined))
    decreases |t|
  {
    var i := UntilSeparator(t);
    var component := t[..i];
    var next :=
      if component == [] || component == [DOT] || component == [DOT, DOT] then joined
      else if joined == [] then component
      else joined + [UNDERSCORE] + component;
    assert NoSeparator(next);
    if i < |t| {
      JoinedHasNoSeparator(t[i + 1..], next);
    }
  }

  lemma {:induction false} StrippedIsPlain(t: Text)
    requires NoSeparator(t)
    ensures Plain(StripControls(t))
    ensures Plain(t) ==> StripControls(t) == t
  {
    if t != [] {
      assert forall k :: 0 <= k < |t| - 1 ==> t[1..][k] == t[k + 1];
      StrippedIsPlain(t[1..]);
      if Plain(t) {
        assert IsPlain(t[0]);
        assert t == [t[0]] + t[1..];
      }
    }
  }

  lemma {:induction false} FittingLength(t: Text, room: nat)
    ensures ByteLength(Fitting(t, room)) <= room
    ensures ByteLength(t) <= room ==> Fitting(t, room) == t
  {
    if t != [] {
      var n := |Utf8.EncodeOne(t[0])|;
      if n <= room {
        FittingLength(t[1..], room - n);
        var rest := Fitting(t[1..], room - n);
        assert ([t[0]] + rest)[0] == t[0] && ([t[0]] + rest)[1..] == rest;
        assert t == [t[0]] + t[1..];
      }
    }
  }

  lemma {:induction false} LengthAppend(a: Text, b: Text)
    ensures ByteLength(a + b) == ByteLength(a) + ByteLength(b)
  {
    if a == [] {
      assert a + b == b;
    } else {
      assert (a + b)[0] == a[0] && (a + b)[1..] == a[1..] + b;
      LengthAppend(a[1..], b);
    }
  }

  lemma TrimmedLength(t: Text)
    ensures ByteLength(Trimmed(t)) <= ByteLength(t)
  {
    var ended := TrimEnd(t);
    var n := LeadingBlanks(ended);
    assert t == ended + t[|ended|..] && ended == ended[..n] + ended[n..];
    LengthAppend(ended, t[|ended|..]);
    LengthAppend(ended[..n], ended[n..]);
  }

  // A name that starts and ends as a sanitized one does.
  predicate WellEnded(t: Text) {
    t != [] && !IsWhitespace(t[0]) && t[|t| - 1] != DOT && t[|t| - 1] != SPACE
  }

  lemma ShortenedShape(raw: Text)
    ensures Plain(Shortened(raw))
    ensures Shortened(raw) == [] || WellEnded(Shortened(raw))
    ensures ByteLength(Shortened(raw)) <= MAX_BYTES
  {
    hide ByteLength, Utf8.Encode, JoinComponents, StripControls, Fitting;
    var joined := JoinComponents(raw, []);
    var stripped := StripControls(joined);
    var fitting := Fitting(stripped, MAX_BYTES);
    JoinedHasNoSeparator(raw, []);
    StrippedIsPlain(joined);
    FittingLength(stripped, MAX_BYTES);
    TrimmedLength(fitting);
    var ended := TrimEnd(fitting);
    assert ended <= stripped;
    assert forall k :: 0 <= k < |ended| ==> ended[k] == stripped[k];
  }

  // On a plain, well-ended name only the length cut can still bite.
  lemma PlainShortens(t: Text)
    requires Plain(t) && WellEnded(t)
    ensures Shortened(t) == Trimmed(Fitting(t, MAX_BYTES))
    ensures ByteLength(t) <= MAX_BYTES ==> Shortened(t) == t
  {
    assert forall k :: 0 <= k < |t| ==> IsPlain(t[k]);
    assert UntilSeparator(t) == |t| && t[..|t|] == t;
    assert JoinComponents(t, []) == t;
    StrippedIsPlain(t);
    FittingLength(t, MAX_BYTES);
    if ByteLength(t) <= MAX_BYTES {
      assert t[0..] == t;
    }
  }

  lemma UnderscoreIsNotReserved(t: Text)
    requires t != [] && t[0] == UNDERSCORE
    ensures !IsReservedDeviceName(Stem(t))
  {
    var u := Upper(Stem(t));
    assert u[0] == UNDERSCORE;
    assert |u| == 4 ==> u[..3][0] == UNDERSCORE;
  }

  lemma {:induction false} AsciiLength(t: Text)
    requires forall i :: 0 <= i < |t| ==> t[i] < 0x80
    ensures ByteLength(t) == |t|
  {
    if t != [] {
      AsciiLength(t[1..]);
    }
  }

  // The stem ends at the first dot, or takes the whole name.
  lemma {:induction false} StemOf(a: Text, rest: Text)
    requires forall i :: 0 <= i < |a| ==> a[i] != DOT
    requires rest == [] || rest[0] == DOT
    ensures Stem(a + rest) == a
  {
    if a == [] {
      assert a + rest == rest;
    } else {
      assert (a + rest)[0] == a[0] && (a + rest)[1..] == a[1..] + rest;
      StemOf(a[1..], rest);
    }
  }

  predicate Letters(t: Text) {
    forall i :: 0 <= i < |t| ==> 65 <= t[i] <= 90 || 97 <= t[i] <= 122
  }

  lemma LettersShape(t: Text)
    requires Letters(t) && |t| > 4
    ensures Plain(t) && WellEnded(t)
    ensures ByteLength(t) == |t|
    ensures !IsReservedDeviceName(Stem(t))
  {
    hide Utf8.Encode, Stem;
    AsciiLength(t);
    StemOf(t, []);
    assert t + [] == t;
    assert |Upper(t)| == |t|;
  }

  lemma EmptyIsNotReserved()
    ensures !IsReservedDeviceName(Stem([]))
  {
    assert |Upper(Stem([]))| == 0;
  }

  // The rule caps a name at 255 bytes and then still puts an underscore
  // before a reserved device name.
  lemma SanitizedLength(raw: Text)
    ensures ByteLength(Sanitize(raw)) > MAX_BYTES <==>
            ByteLength(Shortened(raw)) == MAX_BYTES && IsReservedDeviceName(Stem(Shortened(raw)))
  {
    hide Utf8.Encode, Stem, Shortened, IsReservedDeviceName, Plain;
    var trimmed, name := Shortened(raw), Sanitize(raw);
    ShortenedShape(raw);
    if trimmed == [] {
      assert IsReservedDeviceName(Stem(trimmed)) ==> |trimmed| > 0 by { EmptyIsNotReserved(); }
      LettersShape(name);
    } else {
      var prefix: Text := seq(1, _ => UNDERSCORE);
      AsciiLength(prefix);
      LengthAppend(prefix, trimmed);
      assert prefix + trimmed == [UNDERSCORE] + trimmed;
    }
  }

  lemma SanitizedShape(raw: Text)
    ensures var name := Sanitize(raw);
            Plain(name) && WellEnded(name) && !IsReservedDeviceName(Stem(name))
  {
    hide Utf8.Encode, Stem, Shortened, IsReservedDeviceName;
    var trimmed, name := Shortened(raw), Sanitize(raw);
    ShortenedShape(raw);
    if trimmed == [] {
      LettersShape(name);
    } else if IsReservedDeviceName(Stem(trimmed)) {
      assert forall k :: 0 < k < |name| ==> name[k] == trimmed[k - 1];
      UnderscoreIsNotReserved(name);
    }
  }

  // A name every supported system takes: no path separator, control or bidirectional
  // control in it, no blank before it, no dot or blank after it, and no reserved device
  // before its first dot.
  predicate IsSafe(name: Text) {
    && name != []
    && (forall i :: 0 <= i < |name| ==>
          && name[i] != 47 && name[i] != 92 && !(name[i] < 0x20) && !(0x7F <= name[i] < 0xA0)
          && !(0x202A <= name[i] <= 0x202E) && !(0x2066 <= name[i] <= 0x2069))
    && !IsWhitespace(name[0]) && name[|name| - 1] != 46 && name[|name| - 1] != 32
    && !IsReservedDeviceName(Stem(name))
  }

  lemma NothingJoins()
    ensures JoinComponents([], []) == []
  {
  }

  lemma NothingIsLeft()
    ensures Trimmed(Fitting(StripControls([]), MAX_BYTES)) == []
  {
    hide Utf8.EncodeOne;
  }

  // A name with nothing in it is called `unnamed`.
  lemma EmptyIsUnnamed()
    ensures Sanitize([]) == seq(7, i requires 0 <= i < 7 => "unnamed"[i] as Scalar)
  {
    hide JoinComponents, Trimmed, Fitting, StripControls;
    NothingJoins();
    NothingIsLeft();
  }

  // The rule always gives such a name, and changes a name exactly when it is not one,
  // or exceeds 255 bytes.
  lemma UnchangedIff(raw: Text)
    ensures IsSafe(Sanitize(raw))
    ensures Sanitize(raw) == raw <==> IsSafe(raw) && ByteLength(raw) <= 255
  {
    hide Utf8.Encode, Stem, Shortened, IsReservedDeviceName;
    SanitizedShape(raw);
    SafeIff(Sanitize(raw));
    SafeIff(raw);
    if IsSafe(raw) {
      PlainShortens(raw);
    }
    if ByteLength(raw) > 255 {
      TooLongChanges(raw);
    }
  }

  // What the cap leaves of a name is its longest prefix of whole characters that fits.
  lemma {:induction false} CutIsLongest(t: Text, room: nat, prefix: Text)
    ensures Fitting(t, room) <= t && ByteLength(Fitting(t, room)) <= room
    ensures prefix <= t && ByteLength(prefix) <= room ==> prefix <= Fitting(t, room)
  {
    FittingLength(t, room);
    if prefix <= t && ByteLength(prefix) <= room && prefix != [] {
      var n := |Utf8.EncodeOne(t[0])|;
      assert prefix[0] == t[0] && prefix[1..] <= t[1..];
      CutIsLongest(t[1..], room - n, prefix[1..]);
      assert prefix == [t[0]] + prefix[1..];
    }
  }

  lemma SafeIff(name: Text)
    ensures IsSafe(name) <==> Plain(name) && WellEnded(name) && !IsReservedDeviceName(Stem(name))
  {
    hide Stem, IsReservedDeviceName;
    if Plain(name) {
      assert forall i :: 0 <= i < |name| ==> IsPlain(name[i]);
    }
  }

  lemma TooLongChanges(raw: Text)
    requires ByteLength(raw) > 255
    ensures Sanitize(raw) != raw
  {
    hide Utf8.Encode, Stem, Shortened, IsReservedDeviceName, Plain;
    if Sanitize(raw) == raw {
      SanitizedLength(raw);
      SanitizedShape(raw);
      EmptyIsNotReserved();
      assert raw == [UNDERSCORE] + Shortened(raw);
      ShortenedHead(raw);
      UnderscoreIsNotReserved(Shortened(raw));
    }
  }

  // Path components are joined by underscores, the empty ones and the dots left out.
  lemma ComponentsJoined(a: Text, b: Text, separator: Scalar)
    requires NoSeparator(a) && NoSeparator(b) && (separator == 47 || separator == 92)
    ensures JoinComponents(a + [separator] + b, []) ==
            if IsNoComponent(a) then (if IsNoComponent(b) then [] else b)
            else if IsNoComponent(b) then a
            else a + [95] + b
  {
    var raw := a + [separator] + b;
    OneComponent(b, if IsNoComponent(a) then [] else a);
    assert raw[..|a|] == a && raw[|a| + 1..] == b;
    assert UntilSeparator(raw) == |a| by {
      assert raw[|a|] == separator;
      assert forall k :: 0 <= k < |a| ==> raw[k] == a[k];
    }
  }

  predicate IsNoComponent(t: Text) {
    t == [] || t == [46] || t == [46, 46]
  }

  lemma OneComponent(t: Text, joined: Text)
    requires NoSeparator(t)
    ensures JoinComponents(t, joined) ==
            if IsNoComponent(t) then joined else if joined == [] then t else joined + [95] + t
  {
    assert UntilSeparator(t) == |t| && t[..|t|] == t;
  }

  // Cutting a plain, well-ended name short keeps its first character.
  lemma ShortenedHead(t: Text)
    requires Plain(t) && WellEnded(t)
    ensures Shortened(t) == [] || Shortened(t)[0] == t[0]
  {
    PlainShortens(t);
    var ended := TrimEnd(Fitting(t, MAX_BYTES));
    if ended != [] {
      assert ended[0] == t[0];
    }
  }

  // Sanitizing a sanitized name changes nothing exactly when the name is
  // within the cap.
  lemma SanitizeTwiceIff(raw: Text)
    ensures Sanitize(Sanitize(raw)) == Sanitize(raw) <==> ByteLength(Sanitize(raw)) <= MAX_BYTES
  {
    var name := Sanitize(raw);
    SanitizedShape(raw);
    if ByteLength(name) <= MAX_BYTES {
      PlainShortens(name);
    } else {
      SanitizedLength(raw);
      SanitizedLength(name);
      ShortenedHead(name);
      var again := Shortened(name);
      if again != [] {
        UnderscoreIsNotReserved(again);
      } else {
        assert !IsReservedDeviceName(Stem(again));
      }
    }
  }

  // The names the rule does not settle: a reserved stem and an extension that
  // together fill the cap.
  lemma ReservedAtTheCap(stem: Text, extension: Text)
    requires Letters(stem) && IsReservedDeviceName(stem)
    requires Letters(extension) && |stem| + 1 + |extension| == MAX_BYTES
    ensures var raw := stem + ([DOT] + extension);
            ByteLength(Sanitize(raw)) > MAX_BYTES && Sanitize(Sanitize(raw)) != Sanitize(raw)
  {
    var raw := stem + ([DOT] + extension);
    assert |Upper(stem)| == |stem|;
    assert raw[|raw| - 1] == extension[|extension| - 1];
    assert Plain(raw) && WellEnded(raw);
    AsciiLength(raw);
    PlainShortens(raw);
    StemOf(stem, [DOT] + extension);
    SanitizedLength(raw);
    SanitizeTwiceIff(raw);
  }

  // One of them: `CON.` and 251 times `x`.
  lemma SanitizeNotIdempotent() returns (raw: Text)
    ensures |raw| == MAX_BYTES && Sanitize(Sanitize(raw)) != Sanitize(raw)
  {
    var stem: Text := seq(3, i => if i == 0 then 67 else if i == 1 then 79 else 78);
    assert Upper(stem) == [67, 79, 78];
    var extension: Text := seq(251, i => 120);
    ReservedAtTheCap(stem, extension);
    raw := stem + ([DOT] + extension);
  }
}
