/**
 UTF-8 as the machine protocol checks and produces it.  A std::string is a
 Dafny string whose characters stand for bytes; nothing here needs them to be
 below 256, since a larger one is simply never part of a valid sequence.
 */
module Utf8 {

  // ----- scalar values and their encodings (section 3 of RFC 3629) -----

  predicate IsScalar(cp: int) {
    0 <= cp < 0xD800 || 0xE000 <= cp < 0x11_0000
  }

  function Encode(cp: int): (s: string)
    requires IsScalar(cp)
    ensures |s| == if cp < 0x80 then 1 else if cp < 0x800 then 2 else if cp < 0x1_0000 then 3 else 4
  {
    if cp < 0x80 then [cp as char]
    else if cp < 0x800 then [(0xC0 + cp / 64) as char, (0x80 + cp % 64) as char]
    else if cp < 0x1_0000 then
      [(0xE0 + cp / 4096) as char, (0x80 + cp / 64 % 64) as char, (0x80 + cp % 64) as char]
    else
      [(0xF0 + cp / 0x4_0000) as char, (0x80 + cp / 4096 % 64) as char,
       (0x80 + cp / 64 % 64) as char, (0x80 + cp % 64) as char]
  }

  function EncodeAll(cps: seq<int>): string
    requires forall k :: 0 <= k < |cps| ==> IsScalar(cps[k])
  {
    if cps == [] then "" else Encode(cps[0]) + EncodeAll(cps[1..])
  }

  // ----- the recogniser -----

  predicate Continuation(value: string, index: nat) {
    index < |value| && 0x80 <= value[index] as int <= 0xBF
  }

  predicate Between(value: string, index: nat, lo: int, hi: int) {
    index < |value| && lo <= value[index] as int <= hi
  }

  /** `validUtf8SequenceLength`: the length of the multi-byte sequence at offset, or 0. */
  function ValidSequenceLength(value: string, offset: nat): (n: nat)
    requires offset < |value|
    ensures n <= 4 && n != 1 && offset + n <= |value|
  {
    var byte := value[offset] as int;
    var remaining := |value| - offset;
    if 0xC2 <= byte <= 0xDF && Continuation(value, offset + 1) then 2
    else if byte == 0xE0 && remaining >= 3 then
      if Between(value, offset + 1, 0xA0, 0xBF) && Continuation(value, offset + 2) then 3 else 0
    else if (0xE1 <= byte <= 0xEC || 0xEE <= byte <= 0xEF)
         && Continuation(value, offset + 1) && Continuation(value, offset + 2) then 3
    else if byte == 0xED && remaining >= 3 then
      if Between(value, offset + 1, 0x80, 0x9F) && Continuation(value, offset + 2) then 3 else 0
    else if byte == 0xF0 && remaining >= 4 then
      if Between(value, offset + 1, 0x90, 0xBF) && Continuation(value, offset + 2) && Continuation(value, offset + 3)
        then 4 else 0
    else if 0xF1 <= byte <= 0xF3
         && Continuation(value, offset + 1) && Continuation(value, offset + 2) && Continuation(value, offset + 3) then 4
    else if byte == 0xF4 && remaining >= 4 then
      if Between(value, offset + 1, 0x80, 0x8F) && Continuation(value, offset + 2) && Continuation(value, offset + 3)
        then 4 else 0
    else 0
  }

  /** The six payload bits of a byte after the first. */
  function Low(value: string, index: nat): int
    requires index < |value|
  {
    value[index] as int - 0x80
  }

  /** The scalar a sequence stands for, read off its payload bits. */
  function Payload(value: string, offset: nat, n: nat): int
    requires 2 <= n <= 4 && offset + n <= |value|
  {
    var lead := value[offset] as int;
    if n == 2 then (lead - 0xC0) * 64 + Low(value, offset + 1)
    else if n == 3 then (lead - 0xE0) * 4096 + Low(value, offset + 1) * 64 + Low(value, offset + 2)
    else (lead - 0xF0) * 0x4_0000 + Low(value, offset + 1) * 4096 + Low(value, offset + 2) * 64 + Low(value, offset + 3)
  }

  lemma {:induction false} Sextets(high: nat, low: nat)
    requires low < 64
    ensures (high * 64 + low) / 64 == high && (high * 64 + low) % 64 == low
  {
  }

  /** The bytes of an accepted sequence as a number in base 64, lead byte first. */
  lemma {:induction false} TwoBytes(lead: char, second: char)
    requires var a, b := lead as int, second as int; 0xC2 <= a <= 0xDF && 0x80 <= b <= 0xBF
    ensures var cp := (lead as int - 0xC0) * 64 + (second as int - 0x80);
      0x80 <= cp < 0x800 && Encode(cp) == [lead, second]
  {
    Sextets(lead as int - 0xC0, second as int - 0x80);
  }

  lemma {:induction false} ThreeBytes(lead: char, second: char, third: char)
    requires var a, b, c := lead as int, second as int, third as int;
      && 0xE0 <= a <= 0xEF && 0x80 <= b <= 0xBF && 0x80 <= c <= 0xBF
      && (a == 0xE0 ==> b >= 0xA0) && (a == 0xED ==> b <= 0x9F)
    ensures var cp := (lead as int - 0xE0) * 4096 + (second as int - 0x80) * 64 + (third as int - 0x80);
      0x800 <= cp < 0x1_0000 && IsScalar(cp) && Encode(cp) == [lead, second, third]
  {
    var a, b, c := lead as int - 0xE0, second as int - 0x80, third as int - 0x80;
    Sextets(a * 64 + b, c);
    Sextets(a, b);
    assert (a * 4096 + b * 64 + c) / 4096 == a;
  }

  lemma {:induction false} FourBytes(lead: char, second: char, third: char, fourth: char)
    requires var a, b, c, d := lead as int, second as int, third as int, fourth as int;
      && 0xF0 <= a <= 0xF4 && 0x80 <= b <= 0xBF && 0x80 <= c <= 0xBF && 0x80 <= d <= 0xBF
      && (a == 0xF0 ==> b >= 0x90) && (a == 0xF4 ==> b <= 0x8F)
    ensures
      var cp := (lead as int - 0xF0) * 0x4_0000 + (second as int - 0x80) * 4096 + (third as int - 0x80) * 64 +
        (fourth as int - 0x80);
      0x1_0000 <= cp && IsScalar(cp) && Encode(cp) == [lead, second, third, fourth]
  {
    var a, b, c, d := lead as int - 0xF0, second as int - 0x80, third as int - 0x80, fourth as int - 0x80;
    var cp := a * 0x4_0000 + b * 4096 + c * 64 + d;
    Sextets((a * 64 + b) * 64 + c, d);
    Sextets(a * 64 + b, c);
    Sextets(a, b);
    assert cp / 4096 == a * 64 + b && cp / 0x4_0000 == a;
  }

  /** What acceptance says about the bytes. */
  lemma {:induction false} AcceptedBytes(value: string, offset: nat)
    requires offset < |value| && ValidSequenceLength(value, offset) > 0
    ensures var n, a := ValidSequenceLength(value, offset), value[offset] as int;
      && 2 <= n <= 4
      && (forall k :: offset < k < offset + n ==> 0x80 <= value[k] as int <= 0xBF)
      && (n == 2 ==> 0xC2 <= a <= 0xDF)
      && (n == 3 ==> 0xE0 <= a <= 0xEF)
      && (n == 4 ==> 0xF0 <= a <= 0xF4)
      && (a == 0xE0 ==> value[offset + 1] as int >= 0xA0) && (a == 0xED ==> value[offset + 1] as int <= 0x9F)
      && (a == 0xF0 ==> value[offset + 1] as int >= 0x90) && (a == 0xF4 ==> value[offset + 1] as int <= 0x8F)
  {
  }

  /** An accepted sequence is the encoding of a non-ASCII scalar value. */
  lemma {:induction false} AcceptedIsEncoding(value: string, offset: nat)
    requires offset < |value| && ValidSequenceLength(value, offset) > 0
    ensures var n := ValidSequenceLength(value, offset);
      IsScalar(Payload(value, offset, n)) && Payload(value, offset, n) >= 0x80
      && Encode(Payload(value, offset, n)) == value[offset..offset + n]
  {
    AcceptedBytes(value, offset);
    var n := ValidSequenceLength(value, offset);
    hide Encode, ValidSequenceLength;
    var window := value[offset..offset + n];
    if n == 2 {
      assert window == [value[offset], value[offset + 1]];
      TwoBytes(value[offset], value[offset + 1]);
    } else if n == 3 {
      assert window == [value[offset], value[offset + 1], value[offset + 2]];
      ThreeBytes(value[offset], value[offset + 1], value[offset + 2]);
    } else {
      assert window == [value[offset], value[offset + 1], value[offset + 2], value[offset + 3]];
      FourBytes(value[offset], value[offset + 1], value[offset + 2], value[offset + 3]);
    }
  }

  /** The encoding of any non-ASCII scalar value is accepted, whatever surrounds it. */
  lemma {:induction false} EncodingIsAccepted(value: string, offset: nat, cp: int)
    requires IsScalar(cp) && cp >= 0x80
    requires offset + |Encode(cp)| <= |value| && value[offset..offset + |Encode(cp)|] == Encode(cp)
    ensures ValidSequenceLength(value, offset) == |Encode(cp)|
  {
    var s := Encode(cp);
    var window := value[offset..offset + |s|];
    assert value[offset] == window[0] && value[offset + 1] == window[1];
    if cp < 0x800 {
      assert 2 <= cp / 64 < 32;
    } else if cp < 0x1_0000 {
      assert value[offset + 2] == window[2];
      assert 0 <= cp / 4096 < 16;
      assert cp / 4096 == 0 ==> cp / 64 % 64 >= 32;
      assert cp / 4096 == 13 ==> cp / 64 % 64 < 32;
    } else {
      assert value[offset + 2] == window[2] && value[offset + 3] == window[3];
      assert 0 <= cp / 0x4_0000 <= 4;
      assert cp / 0x4_0000 == 0 ==> cp / 4096 % 64 >= 16;
      assert cp / 0x4_0000 == 4 ==> cp / 4096 % 64 < 16;
    }
  }

  /** The recogniser accepts exactly the encodings of non-ASCII scalar values (section 4 of RFC 3629). */
  lemma {:induction false} RecognisesExactlyUtf8(value: string, offset: nat, n: nat)
    requires offset < |value| && n > 0
    ensures ValidSequenceLength(value, offset) == n <==>
            exists cp :: IsScalar(cp) && cp >= 0x80 && n == |Encode(cp)| && offset + n <= |value| &&
                         value[offset..offset + n] == Encode(cp)
  {
    if ValidSequenceLength(value, offset) == n {
      AcceptedIsEncoding(value, offset);
    }
    if cp :| IsScalar(cp) && cp >= 0x80 && n == |Encode(cp)| && offset + n <= |value| &&
             value[offset..offset + n] == Encode(cp) {
      EncodingIsAccepted(value, offset, cp);
    }
  }

  /** What is accepted depends on the sequence alone. */
  lemma {:induction false} AcceptedAnywhere(a: string, i: nat, b: string, j: nat, n: nat)
    requires i < |a| && j < |b| && n > 0 && i + n <= |a| && j + n <= |b| && a[i..i + n] == b[j..j + n]
    ensures ValidSequenceLength(a, i) == n ==> ValidSequenceLength(b, j) == n
  {
    if ValidSequenceLength(a, i) == n {
      AcceptedIsEncoding(a, i);
      EncodingIsAccepted(b, j, Payload(a, i, n));
    }
  }

  // ----- well-formed strings, and repairing others -----

  predicate WellFormed(s: string) {
    if s == "" then true
    else if s[0] as int < 0x80 then WellFormed(s[1..])
    else
      var n := ValidSequenceLength(s, 0);
      n > 0 && WellFormed(s[n..])
  }

  /** Each byte that is neither ASCII nor in a well-formed sequence becomes U+FFFD. */
  function Sanitize(s: string): string {
    if s == "" then ""
    else if s[0] as int < 0x80 then [s[0]] + Sanitize(s[1..])
    else
      var n := ValidSequenceLength(s, 0);
      if n == 0 then Encode(0xFFFD) + Sanitize(s[1..]) else s[..n] + Sanitize(s[n..])
  }

  lemma {:induction false} WellFormedConcat(a: string, b: string)
    requires WellFormed(a) && WellFormed(b)
    ensures WellFormed(a + b)
  {
    if a == "" {
      assert a + b == b;
    } else if a[0] as int < 0x80 {
      assert (a + b)[1..] == a[1..] + b;
      WellFormedConcat(a[1..], b);
    } else {
      var n := ValidSequenceLength(a, 0);
      AcceptedAnywhere(a, 0, a + b, 0, n);
      assert (a + b)[n..] == a[n..] + b;
      WellFormedConcat(a[n..], b);
    }
  }

  lemma {:induction false} EncodeWellFormed(cp: int)
    requires IsScalar(cp)
    ensures WellFormed(Encode(cp))
  {
    var s := Encode(cp);
    if cp >= 0x80 {
      assert s[0..|s|] == s;
      EncodingIsAccepted(s, 0, cp);
      assert s[|s|..] == "";
    }
  }

  /** Well-formed strings are the concatenations of encoded scalar values. */
  lemma {:induction false} WellFormedIsEncoded(s: string) returns (cps: seq<int>)
    requires WellFormed(s)
    ensures forall k :: 0 <= k < |cps| ==> IsScalar(cps[k])
    ensures EncodeAll(cps) == s
  {
    if s == "" {
      cps := [];
    } else if s[0] as int < 0x80 {
      var rest := WellFormedIsEncoded(s[1..]);
      cps := [s[0] as int] + rest;
      assert cps[1..] == rest && Encode(cps[0]) == [s[0]];
    } else {
      var n := ValidSequenceLength(s, 0);
      AcceptedIsEncoding(s, 0);
      var rest := WellFormedIsEncoded(s[n..]);
      cps := [Payload(s, 0, n)] + rest;
      assert cps[1..] == rest && s == s[0..n] + s[n..];
    }
  }

  lemma {:induction false} EncodedIsWellFormed(cps: seq<int>)
    requires forall k :: 0 <= k < |cps| ==> IsScalar(cps[k])
    ensures WellFormed(EncodeAll(cps))
  {
    if cps != [] {
      EncodeWellFormed(cps[0]);
      EncodedIsWellFormed(cps[1..]);
      WellFormedConcat(Encode(cps[0]), EncodeAll(cps[1..]));
    }
  }

  ghost predicate AllScalar(cps: seq<int>) { forall k :: 0 <= k < |cps| ==> IsScalar(cps[k]) }

  lemma {:induction false} WellFormedIff(s: string)
    ensures WellFormed(s) <==> exists cps: seq<int> :: AllScalar(cps) && EncodeAll(cps) == s
  {
    if WellFormed(s) {
      var cps := WellFormedIsEncoded(s);
      assert AllScalar(cps);
    }
    if cps: seq<int> :| AllScalar(cps) && EncodeAll(cps) == s {
      EncodedIsWellFormed(cps);
    }
  }

  /** A first character or sequence that is accepted stays first. */
  lemma {:induction false} WellFormedAfter(first: string, rest: string)
    requires first != "" && WellFormed(rest)
    requires if first[0] as int < 0x80 then |first| == 1 else ValidSequenceLength(first, 0) == |first|
    ensures WellFormed(first + rest)
  {
    var s := first + rest;
    assert s[|first|..] == rest;
    if first[0] as int >= 0x80 {
      assert first[0..|first|] == s[0..|first|];
      AcceptedAnywhere(first, 0, s, 0, |first|);
    }
  }

  lemma {:induction false} SanitizeWellFormed(s: string)
    ensures WellFormed(Sanitize(s))
    ensures WellFormed(s) ==> Sanitize(s) == s
  {
    if s == "" {
    } else if s[0] as int < 0x80 {
      SanitizeWellFormed(s[1..]);
      WellFormedAfter([s[0]], Sanitize(s[1..]));
    } else {
      var n := ValidSequenceLength(s, 0);
      if n == 0 {
        SanitizeWellFormed(s[1..]);
        EncodeWellFormed(0xFFFD);
        WellFormedConcat(Encode(0xFFFD), Sanitize(s[1..]));
      } else {
        SanitizeWellFormed(s[n..]);
        assert s[..n][0..n] == s[0..n];
        AcceptedAnywhere(s, 0, s[..n], 0, n);
        hide ValidSequenceLength;
        WellFormedAfter(s[..n], Sanitize(s[n..]));
      }
    }
  }

  // ----- UTF-16 input -----

  /** `runtimeUtf16ToUtf8`: surrogate pairs combine, lone surrogates become U+FFFD. */
  function FromUtf16(units: seq<nat>): string
    requires forall k :: 0 <= k < |units| ==> units[k] < 0x1_0000
  {
    if units == [] then ""
    else if 0xD800 <= units[0] <= 0xDBFF && |units| > 1 && 0xDC00 <= units[1] <= 0xDFFF then
      Encode(0x1_0000 + (units[0] - 0xD800) * 1024 + (units[1] - 0xDC00)) + FromUtf16(units[2..])
    else if 0xD800 <= units[0] <= 0xDFFF then Encode(0xFFFD) + FromUtf16(units[1..])
    else Encode(units[0]) + FromUtf16(units[1..])
  }

  /** A scalar value in UTF-16: one unit, or a high and a low surrogate. */
  function Utf16(cp: int): seq<nat>
    requires IsScalar(cp)
  {
    if cp < 0x1_0000 then [cp] else [0xD800 + (cp - 0x1_0000) / 0x400, 0xDC00 + (cp - 0x1_0000) % 0x400]
  }

  function Utf16All(cps: seq<int>): (units: seq<nat>)
    requires AllScalar(cps)
    ensures forall k :: 0 <= k < |units| ==> units[k] < 0x1_0000
  {
    if cps == [] then [] else Utf16(cps[0]) + Utf16All(cps[1..])
  }

  /** UTF-16 text becomes the UTF-8 text of the same characters. */
  lemma {:induction false} FromUtf16Transcodes(cps: seq<int>)
    requires AllScalar(cps)
    ensures FromUtf16(Utf16All(cps)) == EncodeAll(cps)
  {
    if cps != [] {
      FromUtf16Transcodes(cps[1..]);
      var rest := Utf16All(cps[1..]);
      assert (Utf16(cps[0]) + rest)[|Utf16(cps[0])|..] == rest;
      hide Encode;
    }
  }

  predicate IsHigh(unit: nat) { 0xD800 <= unit < 0xDC00 }

  predicate IsLow(unit: nat) { 0xDC00 <= unit < 0xE000 }

  /** Unless a surrogate pair lies across the seam, the parts of a text are converted separately. */
  lemma {:induction false} FromUtf16Concat(a: seq<nat>, b: seq<nat>)
    requires forall k :: 0 <= k < |a| ==> a[k] < 0x1_0000
    requires forall k :: 0 <= k < |b| ==> b[k] < 0x1_0000
    requires a == [] || b == [] || !IsHigh(a[|a| - 1]) || !IsLow(b[0])
    ensures FromUtf16(a + b) == FromUtf16(a) + FromUtf16(b)
    decreases |a|
  {
    hide Encode;
    if a == [] {
      assert a + b == b;
    } else {
      var n := if IsHigh(a[0]) && |a| > 1 && IsLow(a[1]) then 2 else 1;
      assert (a + b)[n..] == a[n..] + b;
      FromUtf16Concat(a[n..], b);
    }
  }

  /** A surrogate without its partner becomes U+FFFD, wherever it stands. */
  lemma {:induction false} LoneSurrogate(a: seq<nat>, unit: nat, b: seq<nat>)
    requires forall k :: 0 <= k < |a| ==> a[k] < 0x1_0000
    requires forall k :: 0 <= k < |b| ==> b[k] < 0x1_0000
    requires IsHigh(unit) || IsLow(unit)
    requires IsHigh(unit) ==> b == [] || !IsLow(b[0])
    requires IsLow(unit) ==> a == [] || !IsHigh(a[|a| - 1])
    ensures FromUtf16(a + [unit] + b) == FromUtf16(a) + Encode(0xFFFD) + FromUtf16(b)
  {
    hide Encode;
    OneLone(unit);
    hide FromUtf16;
    FromUtf16Concat(a + [unit], b);
    FromUtf16Concat(a, [unit]);
  }

  lemma {:induction false} OneLone(unit: nat)
    requires IsHigh(unit) || IsLow(unit)
    ensures FromUtf16([unit]) == Encode(0xFFFD)
  {
    hide Encode;
    assert FromUtf16([]) == "" && Encode(0xFFFD) + "" == Encode(0xFFFD);
  }

  lemma {:induction false} FromUtf16WellFormed(units: seq<nat>)
    requires forall k :: 0 <= k < |units| ==> units[k] < 0x1_0000
    ensures WellFormed(FromUtf16(units))
  {
    if units != [] {
      if 0xD800 <= units[0] <= 0xDBFF && |units| > 1 && 0xDC00 <= units[1] <= 0xDFFF {
        var cp := 0x1_0000 + (units[0] - 0xD800) * 1024 + (units[1] - 0xDC00);
        EncodeWellFormed(cp);
        FromUtf16WellFormed(units[2..]);
        WellFormedConcat(Encode(cp), FromUtf16(units[2..]));
      } else {
        var cp := if 0xD800 <= units[0] <= 0xDFFF then 0xFFFD else units[0];
        EncodeWellFormed(cp);
        FromUtf16WellFormed(units[1..]);
        WellFormedConcat(Encode(cp), FromUtf16(units[1..]));
      }
    }
  }
}
