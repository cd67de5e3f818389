/**
 JSON strings: the escaper of the machine protocol, and a decoder for strings
 by section 7 of RFC 8259 that undoes it.
 */
module JsonStrings {
  import opened Wrappers
  import opened Collections
  import opened Utf8

  const HEX := "0123456789abcdef"

  // ----- the escaper -----

  /** The escape of one ASCII character. */
  function EscapeAscii(c: char): string
    requires c as int < 0x80
  {
    if c == '"' then "\\\""
    else if c == '\\' then "\\\\"
    else if c as int == 8 then "\\b"
    else if c as int == 12 then "\\f"
    else if c == '\n' then "\\n"
    else if c == '\r' then "\\r"
    else if c == '\t' then "\\t"
    else if c as int < 0x20 then "\\u00" + [HEX[c as int / 16]] + [HEX[c as int % 16]]
    else [c]
  }

  /** The body of the quoted form. */
  function Escape(s: string): string {
    if s == "" then ""
    else if s[0] as int < 0x80 then EscapeAscii(s[0]) + Escape(s[1..])
    else
      var n := ValidSequenceLength(s, 0);
      if n == 0 then "\\ufffd" + Escape(s[1..]) else s[..n] + Escape(s[n..])
  }

  function Quoted(s: string): string { "\"" + Escape(s) + "\"" }

  lemma {:induction false} SameLengthAt(value: string, index: nat)
    requires index < |value|
    ensures ValidSequenceLength(value[index..], 0) == ValidSequenceLength(value, index)
  {
    hide ValidSequenceLength;
    var t := value[index..];
    var n, m := ValidSequenceLength(value, index), ValidSequenceLength(t, 0);
    if n > 0 {
      assert value[index..index + n] == t[0..n];
      AcceptedAnywhere(value, index, t, 0, n);
    }
    if m > 0 {
      assert value[index..index + m] == t[0..m];
      AcceptedAnywhere(t, 0, value, index, m);
    }
  }

  lemma {:induction false} EscapeUnfoldAt(value: string, index: nat)
    requires index < |value|
    ensures value[index] as int < 0x80 ==>
      Escape(value[index..]) == EscapeAscii(value[index]) + Escape(value[index + 1..])
    ensures value[index] as int >= 0x80 ==>
      var n := ValidSequenceLength(value, index);
      Escape(value[index..]) ==
        if n == 0 then "\\ufffd" + Escape(value[index + 1..]) else value[index..index + n] + Escape(value[index + n..])
  {
    hide ValidSequenceLength, EscapeAscii;
    var t := value[index..];
    assert t[1..] == value[index + 1..];
    SameLengthAt(value, index);
    var n := ValidSequenceLength(value, index);
    assert t[n..] == value[index + n..] && t[..n] == value[index..index + n];
  }

  /** The switch over one ASCII byte. */
  method AppendAscii(output: string, byte: char) returns (r: string)
    requires byte as int < 0x80
    ensures r == output + EscapeAscii(byte)
  {
    match byte as int
    case 0x22 => r := output + "\\\"";
    case 0x5C => r := output + "\\\\";
    case 8 => r := output + "\\b";
    case 12 => r := output + "\\f";
    case 10 => r := output + "\\n";
    case 13 => r := output + "\\r";
    case 9 => r := output + "\\t";
    case _ =>
      if byte as int < 0x20 {
        r := output + "\\u00";
        r := r + [HEX[byte as int / 16]];
        r := r + [HEX[byte as int % 16]];
      } else {
        r := output + [byte];
      }
  }

  lemma {:induction false} Enclosed(output: string, body: string)
    ensures output + "\"" + body + "\"" == output + ("\"" + body + "\"")
  {
  }

  /** `JsonWriter::appendQuoted`: the index loop appends exactly the quoted form. */
  method AppendQuoted(output: string, value: string) returns (r: string)
    ensures r == output + Quoted(value)
  {
    assert Escape("") == "";
    hide Escape, EscapeAscii, ValidSequenceLength;
    r := output + "\"";
    var index := 0;
    assert value[0..] == value;
    while index < |value|
      invariant index <= |value|
      invariant r + Escape(value[index..]) == output + "\"" + Escape(value)
    {
      EscapeUnfoldAt(value, index);
      hide *;
      var byte := value[index];
      if byte as int >= 0x80 {
        var length := ValidSequenceLength(value, index);
        if length == 0 {
          Regroup(r, "\\ufffd", Escape(value[index + 1..]));
          r := r + "\\ufffd";
          index := index + 1;
        } else {
          Regroup(r, value[index..index + length], Escape(value[index + length..]));
          r := r + value[index..index + length];
          index := index + length;
        }
        continue;
      }
      Regroup(r, EscapeAscii(byte), Escape(value[index + 1..]));
      r := AppendAscii(r, byte);
      index := index + 1;
    }
    ghost var body := Escape(value);
    assert Quoted(value) == "\"" + body + "\"";
    assert value[index..] == "";
    hide *;
    assert r + "" == r;
    r := r + "\"";
    Enclosed(output, body);
  }

  // ----- the decoder -----

  function HexValue(c: char): Option<nat> {
    var b := c as int;
    if 0x30 <= b <= 0x39 then Some(b - 0x30)
    else if 0x41 <= b <= 0x46 then Some(b - 0x41 + 10)
    else if 0x61 <= b <= 0x66 then Some(b - 0x61 + 10)
    else None
  }

  /** The code unit written by the four hex digits at the front of s. */
  function HexUnit(s: string): (r: Option<nat>)
    ensures r.Some? ==> |s| >= 4 && r.value < 0x1_0000
  {
    if |s| < 4 then None
    else
      match (HexValue(s[0]), HexValue(s[1]), HexValue(s[2]), HexValue(s[3]))
      case (Some(a), Some(b), Some(c), Some(d)) => Some(a * 4096 + b * 256 + c * 16 + d)
      case _ => None
  }

  /** A decoded piece and what follows it. */
  datatype Piece = Piece(text: string, rest: string)

  /** One escape sequence, after its backslash. */
  function DecodeEscape(s: string): (r: Option<Piece>)
    ensures r.Some? ==> |r.value.rest| < |s|
  {
    if s == "" then None
    else
      var rest := s[1..];
      if s[0] == '"' then Some(Piece("\"", rest))
      else if s[0] == '\\' then Some(Piece("\\", rest))
      else if s[0] == '/' then Some(Piece("/", rest))
      else if s[0] == 'b' then Some(Piece([8 as char], rest))
      else if s[0] == 'f' then Some(Piece([12 as char], rest))
      else if s[0] == 'n' then Some(Piece("\n", rest))
      else if s[0] == 'r' then Some(Piece("\r", rest))
      else if s[0] == 't' then Some(Piece("\t", rest))
      else if s[0] == 'u' then DecodeUnicode(rest)
      else None
  }

  /** \uXXXX, with surrogate pairs combined and lone surrogates refused. */
  function DecodeUnicode(s: string): (r: Option<Piece>)
    ensures r.Some? ==> |r.value.rest| < |s|
  {
    match HexUnit(s)
    case None => None
    case Some(unit) =>
      if 0xD800 <= unit < 0xDC00 && |s| >= 6 && s[4] == '\\' && s[5] == 'u' then
        match HexUnit(s[6..])
        case Some(low) =>
          if 0xDC00 <= low < 0xE000
          then Some(Piece(Encode(0x1_0000 + (unit - 0xD800) * 1024 + (low - 0xDC00)), s[10..]))
          else None
        case None => None
      else if 0xD800 <= unit < 0xE000 then None
      else Some(Piece(Encode(unit), s[4..]))
  }

  /**
   The characters of a string up to its closing quote (section 7 of RFC 8259):
   control characters must be escaped and raw text must be UTF-8.
   */
  function DecodeBody(s: string): (r: Option<Piece>)
    ensures r.Some? ==> |r.value.rest| < |s|
    decreases |s|
  {
    if s == "" then None
    else if s[0] == '"' then Some(Piece("", s[1..]))
    else if s[0] == '\\' then
      match DecodeEscape(s[1..])
      case None => None
      case Some(p) =>
        match DecodeBody(p.rest)
        case None => None
        case Some(q) => Some(Piece(p.text + q.text, q.rest))
    else if s[0] as int < 0x20 then None
    else
      var n := if s[0] as int < 0x80 then 1 else ValidSequenceLength(s, 0);
      if n == 0 then None
      else
        match DecodeBody(s[n..])
        case None => None
        case Some(q) => Some(Piece(s[..n] + q.text, q.rest))
  }

  /** A string with both its quotes. */
  function DecodeString(s: string): (r: Option<Piece>)
    ensures r.Some? ==> |r.value.rest| < |s|
  {
    if s == "" || s[0] != '"' then None else DecodeBody(s[1..])
  }

  // ----- decoding undoes escaping -----

  lemma {:induction false} DecodeEscapedAscii(c: char, rest: string)
    requires c as int < 0x80
    ensures DecodeBody(EscapeAscii(c) + rest) ==
            match DecodeBody(rest)
            case None => None
            case Some(q) => Some(Piece([c] + q.text, q.rest))
  {
    var e := EscapeAscii(c) + rest;
    if c == '"' || c == '\\' || c as int == 8 || c as int == 12 || c == '\n' || c == '\r' || c == '\t' {
      assert e[1..][1..] == rest;
    } else if c as int < 0x20 {
      var u := e[1..];
      var h := u[1..];
      assert e == "\\u00" + [HEX[c as int / 16]] + [HEX[c as int % 16]] + rest;
      assert u[0] == 'u' && h[0] == '0' && h[1] == '0' && h[2] == HEX[c as int / 16] && h[3] == HEX[c as int % 16];
      assert h[4..] == rest;
      HexDigit(c as int / 16);
      HexDigit(c as int % 16);
      assert HexValue('0') == Some(0);
      assert HexUnit(h) == Some(c as int);
      assert DecodeUnicode(h) == Some(Piece([c], rest));
      assert DecodeEscape(u) == Some(Piece([c], rest));
    } else {
      assert e[1..] == rest && e[..1] == [c];
    }
  }

  lemma {:induction false} HexDigit(d: nat)
    requires d < 16
    ensures HexValue(HEX[d]) == Some(d)
  {
  }

  lemma {:induction false} DecodeReplacement(rest: string)
    ensures DecodeBody("\\ufffd" + rest) ==
            match DecodeBody(rest)
            case None => None
            case Some(q) => Some(Piece(Encode(0xFFFD) + q.text, q.rest))
  {
    var e := "\\ufffd" + rest;
    var u := e[1..];
    var h := u[1..];
    assert h[0] == 'f' && h[1] == 'f' && h[2] == 'f' && h[3] == 'd' && h[4..] == rest;
    assert HexUnit(h) == Some(0xFFFD);
    assert DecodeEscape(u) == Some(Piece(Encode(0xFFFD), rest));
  }

  lemma {:induction false} DecodeRaw(s: string, n: nat, rest: string)
    requires s != "" && s[0] as int >= 0x80 && n == ValidSequenceLength(s, 0) && n > 0
    ensures DecodeBody(s[..n] + rest) ==
            match DecodeBody(rest)
            case None => None
            case Some(q) => Some(Piece(s[..n] + q.text, q.rest))
  {
    var e := s[..n] + rest;
    assert s[0..n] == e[0..n] && e[n..] == rest && e[..n] == s[..n];
    AcceptedAnywhere(s, 0, e, 0, n);
  }

  lemma {:induction false} Closing(a: string, b: string, rest: string)
    ensures a + b + "\"" + rest == a + (b + "\"" + rest)
  {
  }

  /** Whatever follows, decoding a quoted string gives its sanitized bytes and leaves what follows. */
  lemma {:induction false} DecodeEscaped(s: string, rest: string)
    ensures DecodeBody(Escape(s) + "\"" + rest) == Some(Piece(Sanitize(s), rest))
    decreases |s|
  {
    if s == "" {
      assert Escape(s) + "\"" + rest == "\"" + rest;
      assert ("\"" + rest)[1..] == rest;
    } else if s[0] as int < 0x80 {
      Closing(EscapeAscii(s[0]), Escape(s[1..]), rest);
      DecodeEscapedAscii(s[0], Escape(s[1..]) + "\"" + rest);
      DecodeEscaped(s[1..], rest);
    } else if ValidSequenceLength(s, 0) == 0 {
      Closing("\\ufffd", Escape(s[1..]), rest);
      DecodeReplacement(Escape(s[1..]) + "\"" + rest);
      DecodeEscaped(s[1..], rest);
    } else {
      var n := ValidSequenceLength(s, 0);
      Closing(s[..n], Escape(s[n..]), rest);
      DecodeRaw(s, n, Escape(s[n..]) + "\"" + rest);
      DecodeEscaped(s[n..], rest);
    }
  }

  /** The quoted form is a JSON string whose value is the sanitized input, the input itself when it is UTF-8. */
  lemma {:induction false} QuotedDecodes(s: string, rest: string)
    ensures DecodeString(Quoted(s) + rest) == Some(Piece(Sanitize(s), rest))
    ensures WellFormed(s) ==> Sanitize(s) == s
  {
    assert (Quoted(s) + rest)[1..] == Escape(s) + "\"" + rest;
    DecodeEscaped(s, rest);
    SanitizeWellFormed(s);
  }

  lemma {:induction false} AsciiWellFormed(s: string)
    requires forall k :: 0 <= k < |s| ==> s[k] as int < 0x80
    ensures WellFormed(s)
  {
    if s != "" { AsciiWellFormed(s[1..]); }
  }

  /** The escaper never emits a byte sequence that is not UTF-8, whatever it was given. */
  lemma {:induction false} QuotedWellFormed(s: string)
    ensures WellFormed(Escape(s)) && WellFormed(Quoted(s))
  {
    if s == "" {
    } else if s[0] as int < 0x80 {
      hide WellFormed, EscapeAscii;
      AsciiWellFormed(EscapeAscii(s[0]));
      QuotedWellFormed(s[1..]);
      WellFormedConcat(EscapeAscii(s[0]), Escape(s[1..]));
    } else {
      var n := ValidSequenceLength(s, 0);
      if n == 0 {
        AsciiWellFormed("\\ufffd");
        QuotedWellFormed(s[1..]);
        WellFormedConcat("\\ufffd", Escape(s[1..]));
      } else {
        assert WellFormed(s[..n]) by {
          assert s[0..n] == s[..n][0..n] && s[..n][n..] == "";
          AcceptedAnywhere(s, 0, s[..n], 0, n);
        }
        QuotedWellFormed(s[n..]);
        WellFormedConcat(s[..n], Escape(s[n..]));
      }
    }
    AsciiWellFormed("\"");
    WellFormedConcat("\"", Escape(s));
    WellFormedConcat("\"" + Escape(s), "\"");
  }
}
