/**
 JSON trees, their compact text, and a parser by sections 2 to 6 of RFC 8259
 that recovers the tree.
 */
module JsonText {
  import opened Wrappers
  import opened Utf8
  import opened JsonStrings

  datatype Json =
    | JNull
    | JBool(b: bool)
    | JNumber(lexeme: string)
    | JString(s: string)
    | JArray(items: seq<Json>)
    | JObject(members: seq<Member>)
    | JEmbedded(text: string)       // a document that another serializer has already written

  datatype Member = Member(name: string, value: Json)

  // ----- numbers (section 6) -----

  predicate IsDigit(c: char) { '0' <= c <= '9' }

  function DigitCount(s: string): (n: nat)
    ensures n <= |s|
  {
    if s != "" && IsDigit(s[0]) then 1 + DigitCount(s[1..]) else 0
  }

  function IntLength(s: string): (n: nat)
    ensures n <= |s|
  {
    if s == "" then 0 else if s[0] == '0' then 1 else if IsDigit(s[0]) then DigitCount(s) else 0
  }

  function FractionLength(s: string): (n: nat)
    ensures n <= |s|
  {
    if s != "" && s[0] == '.' && DigitCount(s[1..]) > 0 then 1 + DigitCount(s[1..]) else 0
  }

  function ExponentLength(s: string): (n: nat)
    ensures n <= |s|
  {
    if s == "" || (s[0] != 'e' && s[0] != 'E') then 0
    else
      var k := if |s| > 1 && (s[1] == '+' || s[1] == '-') then 2 else 1;
      if DigitCount(s[k..]) > 0 then k + DigitCount(s[k..]) else 0
  }

  function TailLength(s: string): (n: nat)
    ensures n <= |s|
  {
    FractionLength(s) + ExponentLength(s[FractionLength(s)..])
  }

  function UnsignedLength(s: string): (n: nat)
    ensures n <= |s|
  {
    if IntLength(s) == 0 then 0 else IntLength(s) + TailLength(s[IntLength(s)..])
  }

  /** The longest number at the front of s. */
  function NumberLength(s: string): (n: nat)
    ensures n <= |s|
  {
    if s != "" && s[0] == '-' then
      if UnsignedLength(s[1..]) == 0 then 0 else 1 + UnsignedLength(s[1..])
    else UnsignedLength(s)
  }

  predicate IsNumber(s: string) { s != "" && NumberLength(s) == |s| }

  /** What may follow a value inside a document, or nothing. */
  predicate Delimited(rest: string) {
    rest == "" || rest[0] == ',' || rest[0] == ']' || rest[0] == '}'
  }

  lemma {:induction false} DigitsStop(a: string, rest: string)
    requires Delimited(rest)
    ensures DigitCount(a + rest) == DigitCount(a)
  {
    if a == "" {
      assert a + rest == rest;
    } else {
      assert (a + rest)[1..] == a[1..] + rest;
      DigitsStop(a[1..], rest);
    }
  }

  lemma {:induction false} IntStops(a: string, rest: string)
    requires Delimited(rest)
    ensures IntLength(a + rest) == IntLength(a)
  {
    DigitsStop(a, rest);
    if a == "" { assert a + rest == rest; }
  }

  lemma {:induction false} FractionStops(a: string, rest: string)
    requires Delimited(rest)
    ensures FractionLength(a + rest) == FractionLength(a)
  {
    if a == "" {
      assert a + rest == rest;
    } else {
      assert (a + rest)[1..] == a[1..] + rest;
      DigitsStop(a[1..], rest);
    }
  }

  lemma {:induction false} ExponentStops(a: string, rest: string)
    requires Delimited(rest)
    ensures ExponentLength(a + rest) == ExponentLength(a)
  {
    if a == "" {
      assert a + rest == rest;
    } else {
      var k := if |a| > 1 && (a[1] == '+' || a[1] == '-') then 2 else 1;
      assert (a + rest)[k..] == a[k..] + rest;
      DigitsStop(a[k..], rest);
    }
  }

  lemma {:induction false} TailStops(a: string, rest: string)
    requires Delimited(rest)
    ensures TailLength(a + rest) == TailLength(a)
  {
    FractionStops(a, rest);
    var n := FractionLength(a);
    assert (a + rest)[n..] == a[n..] + rest;
    ExponentStops(a[n..], rest);
  }

  lemma {:induction false} UnsignedStops(a: string, rest: string)
    requires Delimited(rest)
    ensures UnsignedLength(a + rest) == UnsignedLength(a)
  {
    IntStops(a, rest);
    var n := IntLength(a);
    assert (a + rest)[n..] == a[n..] + rest;
    TailStops(a[n..], rest);
  }

  /** A delimiter ends a number. */
  lemma {:induction false} NumberStops(a: string, rest: string)
    requires Delimited(rest)
    ensures NumberLength(a + rest) == NumberLength(a)
  {
    UnsignedStops(a, rest);
    if a == "" {
      assert a + rest == rest;
    } else {
      assert (a + rest)[1..] == a[1..] + rest;
      UnsignedStops(a[1..], rest);
    }
  }

  // ----- integers -----

  function Digit(d: nat): char
    requires d < 10
  {
    ('0' as int + d) as char
  }

  /** `std::to_chars` on an unsigned integer. */
  function Decimal(n: nat): (s: string)
    ensures s != ""
  {
    if n < 10 then [Digit(n)] else Decimal(n / 10) + [Digit(n % 10)]
  }

  function SignedDecimal(z: int): string { if z < 0 then "-" + Decimal(-z) else Decimal(z) }

  /** The integer a run of digits denotes. */
  function DigitsValue(s: string): int {
    if s == "" then 0 else DigitsValue(s[..|s| - 1]) * 10 + (s[|s| - 1] as int - '0' as int)
  }

  function SignedValue(s: string): int {
    if s != "" && s[0] == '-' then -DigitsValue(s[1..]) else DigitsValue(s)
  }

  lemma {:induction false} DigitsAll(s: string)
    requires forall k :: 0 <= k < |s| ==> IsDigit(s[k])
    ensures DigitCount(s) == |s|
  {
    if s != "" { DigitsAll(s[1..]); }
  }

  lemma {:induction false} DecimalDigits(n: nat)
    ensures forall k :: 0 <= k < |Decimal(n)| ==> IsDigit(Decimal(n)[k])
    ensures n > 0 ==> Decimal(n)[0] != '0'
    ensures n == 0 ==> Decimal(n) == "0"
    ensures DigitsValue(Decimal(n)) == n
  {
    if n < 10 {
      assert Decimal(n)[..0] == "";
    } else {
      DecimalDigits(n / 10);
      var s := Decimal(n);
      assert s[..|s| - 1] == Decimal(n / 10);
    }
  }

  /** A printed integer is a JSON number that reads back as itself. */
  lemma {:induction false} IntegerRoundTrip(z: int)
    ensures IsNumber(SignedDecimal(z))
    ensures SignedValue(SignedDecimal(z)) == z
  {
    var m: nat := if z < 0 then -z else z;
    var d, s := Decimal(m), SignedDecimal(z);
    DecimalDigits(m);
    DigitsAll(d);
    assert IntLength(d) == |d| && d[|d|..] == "";
    assert UnsignedLength(d) == |d|;
    if z < 0 { assert s[1..] == d; }
  }

  // ----- the compact text -----

  function Render(j: Json): string
    decreases j
  {
    match j
    case JNull => "null"
    case JBool(b) => if b then "true" else "false"
    case JNumber(lexeme) => lexeme
    case JString(s) => Quoted(s)
    case JArray(items) => "[" + RenderItems(items) + "]"
    case JObject(members) => "{" + RenderMembers(members) + "}"
    case JEmbedded(text) => text
  }

  /** Items with commas between them. */
  function RenderItems(items: seq<Json>): string
    decreases items
  {
    if items == [] then ""
    else if |items| == 1 then Render(items[0])
    else Render(items[0]) + "," + RenderItems(items[1..])
  }

  function RenderMember(m: Member): string
    decreases m
  {
    Quoted(m.name) + ":" + Render(m.value)
  }

  function RenderMembers(members: seq<Member>): string
    decreases members
  {
    if members == [] then ""
    else if |members| == 1 then RenderMember(members[0])
    else RenderMember(members[0]) + "," + RenderMembers(members[1..])
  }

  /** What an embedded document parses to. */
  function Meaning(text: string): Json { match ParseValue(text) case None => JNull case Some(p) => p.value }

  /** The text is one JSON value, however it is written, and remains so whatever may follow it. */
  ghost predicate StandsAlone(text: string) {
    && text != "" && !IsSpace(text[0])
    && forall rest :: Delimited(rest) ==> ParseValue(text + rest) == Some(Parsed(Meaning(text), rest))
  }

  /** Every number lexeme is a JSON number, and every embedded document a JSON value. */
  ghost predicate Proper(j: Json)
    decreases j
  {
    match j
    case JNumber(lexeme) => IsNumber(lexeme)
    case JArray(items) => ProperItems(items)
    case JObject(members) => ProperMembers(members)
    case JEmbedded(text) => StandsAlone(text)
    case _ => true
  }

  ghost predicate ProperItems(items: seq<Json>)
    decreases items
  {
    items == [] || (Proper(items[0]) && ProperItems(items[1..]))
  }

  ghost predicate ProperMembers(members: seq<Member>)
    decreases members
  {
    members == [] || (Proper(members[0].value) && ProperMembers(members[1..]))
  }

  /** The tree with every string sanitized and embedded documents opened; the tree itself when it has neither. */
  function Clean(j: Json): Json
    decreases j
  {
    match j
    case JString(s) => JString(Sanitize(s))
    case JArray(items) => JArray(CleanItems(items))
    case JObject(members) => JObject(CleanMembers(members))
    case JEmbedded(text) => Meaning(text)
    case _ => j
  }

  function CleanItems(items: seq<Json>): (r: seq<Json>)
    decreases items
  {
    if items == [] then [] else [Clean(items[0])] + CleanItems(items[1..])
  }

  function CleanMembers(members: seq<Member>): (r: seq<Member>)
    decreases members
  {
    if members == [] then []
    else [Member(Sanitize(members[0].name), Clean(members[0].value))] + CleanMembers(members[1..])
  }

  // ----- the parser -----

  datatype Parsed<+T> = Parsed(value: T, rest: string)

  predicate IsSpace(c: char) { c == ' ' || c == '\t' || c == '\n' || c == '\r' }

  function SkipSpace(s: string): (r: string)
    ensures |r| <= |s|
  {
    if s != "" && IsSpace(s[0]) then SkipSpace(s[1..]) else s
  }

  predicate StartsWith(s: string, p: string) { |p| <= |s| && s[..|p|] == p }

  function ParseValue(s: string): (r: Option<Parsed<Json>>)
    ensures r.Some? ==> |r.value.rest| < |s|
    decreases |s|, 1
  {
    var t := SkipSpace(s);
    if t == "" then None
    else if t[0] == '{' then ParseObject(SkipSpace(t[1..]))
    else if t[0] == '[' then ParseArray(SkipSpace(t[1..]))
    else ParseScalar(t)
  }

  /** After the opening bracket. */
  function ParseArray(s: string): (r: Option<Parsed<Json>>)
    ensures r.Some? ==> |r.value.rest| < |s|
    decreases |s|, 4
  {
    if s != "" && s[0] == ']' then Some(Parsed(JArray([]), s[1..]))
    else
      match ParseItems(s)
      case None => None
      case Some(p) => Some(Parsed(JArray(p.value), p.rest))
  }

  /** After the opening brace. */
  function ParseObject(s: string): (r: Option<Parsed<Json>>)
    ensures r.Some? ==> |r.value.rest| < |s|
    decreases |s|, 4
  {
    if s != "" && s[0] == '}' then Some(Parsed(JObject([]), s[1..]))
    else
      match ParseMembers(s)
      case None => None
      case Some(p) => Some(Parsed(JObject(p.value), p.rest))
  }

  function ParseScalar(s: string): (r: Option<Parsed<Json>>)
    requires s != ""
    ensures r.Some? ==> |r.value.rest| < |s|
  {
    if s[0] == '"' then
      (match DecodeString(s)
       case None => None
       case Some(p) => Some(Parsed(JString(p.text), p.rest)))
    else if s[0] == 'n' then (if StartsWith(s, "null") then Some(Parsed(JNull, s[4..])) else None)
    else if s[0] == 't' then (if StartsWith(s, "true") then Some(Parsed(JBool(true), s[4..])) else None)
    else if s[0] == 'f' then (if StartsWith(s, "false") then Some(Parsed(JBool(false), s[5..])) else None)
    else
      var n := NumberLength(s);
      if n == 0 then None else Some(Parsed(JNumber(s[..n]), s[n..]))
  }

  /** At least one item, up to the closing bracket. */
  function ParseItems(s: string): (r: Option<Parsed<seq<Json>>>)
    ensures r.Some? ==> |r.value.rest| < |s|
    decreases |s|, 2
  {
    match ParseValue(s)
    case None => None
    case Some(p) =>
      var t := SkipSpace(p.rest);
      if t == "" then None
      else if t[0] == ']' then Some(Parsed([p.value], t[1..]))
      else if t[0] != ',' then None
      else
        match ParseItems(t[1..])
        case None => None
        case Some(q) => Some(Parsed([p.value] + q.value, q.rest))
  }

  /** A name, a colon and a value. */
  function ParseMember(s: string): (r: Option<Parsed<Member>>)
    ensures r.Some? ==> |r.value.rest| < |s|
    decreases |s|, 2
  {
    match DecodeString(SkipSpace(s))
    case None => None
    case Some(name) =>
      var c := SkipSpace(name.rest);
      if c == "" || c[0] != ':' then None
      else
        match ParseValue(c[1..])
        case None => None
        case Some(p) => Some(Parsed(Member(name.text, p.value), p.rest))
  }

  /** At least one member, up to the closing brace. */
  function ParseMembers(s: string): (r: Option<Parsed<seq<Member>>>)
    ensures r.Some? ==> |r.value.rest| < |s|
    decreases |s|, 3
  {
    match ParseMember(s)
    case None => None
    case Some(p) =>
      var t := SkipSpace(p.rest);
      if t == "" then None
      else if t[0] == '}' then Some(Parsed([p.value], t[1..]))
      else if t[0] != ',' then None
      else
        match ParseMembers(t[1..])
        case None => None
        case Some(q) => Some(Parsed([p.value] + q.value, q.rest))
  }

  /** A JSON text (section 2): one value with optional white space around it. */
  function ParseText(s: string): Option<Json> {
    match ParseValue(s)
    case None => None
    case Some(p) => if SkipSpace(p.rest) == "" then Some(p.value) else None
  }

  // ----- parsing undoes rendering -----

  lemma {:induction false} NumberStart(lexeme: string)
    requires IsNumber(lexeme)
    ensures lexeme[0] == '-' || IsDigit(lexeme[0])
  {
  }

  lemma {:induction false} RenderStart(j: Json)
    requires Proper(j)
    ensures Render(j) != "" && !IsSpace(Render(j)[0]) && Render(j)[0] != ']' && Render(j)[0] != '}'
    ensures !j.JEmbedded? ==> (Render(j)[0] == '{' <==> j.JObject?) && (Render(j)[0] == '[' <==> j.JArray?)
  {
    if j.JNumber? { NumberStart(j.lexeme); }
    if j.JEmbedded? { EmbeddedStart(j.text); }
  }

  lemma {:induction false} EmbeddedStart(text: string)
    requires StandsAlone(text)
    ensures text[0] != ']' && text[0] != '}'
  {
    assert text + "" == text && ParseValue(text + "").Some?;
    NoSpace(text);
  }

  lemma {:induction false} ParseNumber(lexeme: string, rest: string)
    requires IsNumber(lexeme) && Delimited(rest)
    ensures ParseScalar(lexeme + rest) == Some(Parsed(JNumber(lexeme), rest))
  {
    hide NumberLength, DecodeString, StartsWith;
    var s := lexeme + rest;
    NumberStart(lexeme);
    NumberStops(lexeme, rest);
    assert s[..|lexeme|] == lexeme && s[|lexeme|..] == rest by { hide *; }
    assert s[0] == lexeme[0];
  }

  lemma {:induction false} ParseLiteral(j: Json, rest: string)
    requires j.JNull? || j.JBool?
    ensures ParseScalar(Render(j) + rest) == Some(Parsed(j, rest))
  {
    var word := Render(j);
    var s := word + rest;
    assert s[..|word|] == word && s[|word|..] == rest && s[0] == word[0];
  }

  lemma {:induction false} ParseRenderedScalar(j: Json, rest: string)
    requires Proper(j) && Delimited(rest) && !j.JArray? && !j.JObject? && !j.JEmbedded?
    ensures ParseScalar(Render(j) + rest) == Some(Parsed(Clean(j), rest))
  {
    match j
    case JNull => ParseLiteral(j, rest);
    case JBool(b) => ParseLiteral(j, rest);
    case JNumber(lexeme) => ParseNumber(lexeme, rest);
    case JString(text) => QuotedDecodes(text, rest);
  }

  lemma {:induction false} NoSpace(s: string)
    requires s != "" && !IsSpace(s[0])
    ensures SkipSpace(s) == s
  {
  }

  /** Parsing a rendered tree gives the tree back, and leaves whatever followed. */
  lemma {:induction false} ParseRendered(j: Json, rest: string)
    requires Proper(j) && Delimited(rest)
    ensures ParseValue(Render(j) + rest) == Some(Parsed(Clean(j), rest))
    decreases j, 1
  {
    var s := Render(j) + rest;
    RenderStart(j);
    assert s[0] == Render(j)[0];
    NoSpace(s);
    match j
    case JArray(items) =>
      ArrayBody(items, rest);
      ParseRenderedArray(items, rest);
    case JObject(members) =>
      ObjectBody(members, rest);
      ParseRenderedObject(members, rest);
    case JEmbedded(text) => assert Delimited(rest);
    case _ => ParseRenderedScalar(j, rest);
  }

  lemma {:induction false} ItemsStart(items: seq<Json>)
    requires items != [] && ProperItems(items)
    ensures RenderItems(items) != "" && !IsSpace(RenderItems(items)[0]) && RenderItems(items)[0] != ']'
  {
    RenderStart(items[0]);
  }

  lemma {:induction false} Opened(open: string, body: string, close: string, rest: string)
    requires |open| == 1
    ensures (open + body + close + rest)[1..] == body + close + rest
  {
  }

  lemma {:induction false} ArrayBody(items: seq<Json>, rest: string)
    requires ProperItems(items)
    ensures SkipSpace((Render(JArray(items)) + rest)[1..]) == RenderItems(items) + "]" + rest
  {
    Opened("[", RenderItems(items), "]", rest);
    if items != [] { ItemsStart(items); }
    NoSpace(RenderItems(items) + "]" + rest);
  }

  lemma {:induction false} ObjectBody(members: seq<Member>, rest: string)
    ensures SkipSpace((Render(JObject(members)) + rest)[1..]) == RenderMembers(members) + "}" + rest
  {
    Opened("{", RenderMembers(members), "}", rest);
    if members != [] { MembersStart(members); }
    NoSpace(RenderMembers(members) + "}" + rest);
  }

  lemma {:induction false} MembersStart(members: seq<Member>)
    requires members != []
    ensures RenderMembers(members) != "" && RenderMembers(members)[0] == '"'
  {
    assert RenderMember(members[0])[0] == '"';
  }

  lemma {:induction false} ParseRenderedArray(items: seq<Json>, rest: string)
    requires ProperItems(items)
    ensures ParseArray(RenderItems(items) + "]" + rest) == Some(Parsed(JArray(CleanItems(items)), rest))
    decreases items, 1
  {
    var u := RenderItems(items) + "]" + rest;
    if items == [] {
      assert u == "]" + rest && u[1..] == rest;
    } else {
      ItemsStart(items);
      assert u[0] == RenderItems(items)[0];
      ParseRenderedItems(items, rest);
    }
  }

  lemma {:induction false} ParseRenderedItems(items: seq<Json>, rest: string)
    requires items != [] && ProperItems(items)
    ensures ParseItems(RenderItems(items) + "]" + rest) == Some(Parsed(CleanItems(items), rest))
    decreases items, 0
  {
    var s := RenderItems(items) + "]" + rest;
    if |items| == 1 {
      var tail := "]" + rest;
      assert s == Render(items[0]) + tail && tail[1..] == rest;
      NoSpace(tail);
      ParseRendered(items[0], tail);
      assert CleanItems(items) == [Clean(items[0])];
    } else {
      var more := RenderItems(items[1..]) + "]" + rest;
      var tail := "," + more;
      assert s == Render(items[0]) + tail && tail[1..] == more;
      NoSpace(tail);
      ParseRendered(items[0], tail);
      ParseRenderedItems(items[1..], rest);
    }
  }

  lemma {:induction false} ParseRenderedObject(members: seq<Member>, rest: string)
    requires ProperMembers(members)
    ensures ParseObject(RenderMembers(members) + "}" + rest) == Some(Parsed(JObject(CleanMembers(members)), rest))
    decreases members, 1
  {
    var u := RenderMembers(members) + "}" + rest;
    if members == [] {
      assert u == "}" + rest && u[1..] == rest;
    } else {
      MembersStart(members);
      assert u[0] == '"';
      ParseRenderedMembers(members, rest);
    }
  }

  lemma {:induction false} ParseRenderedMember(m: Member, tail: string)
    requires Proper(m.value) && Delimited(tail)
    ensures ParseMember(RenderMember(m) + tail) == Some(Parsed(Member(Sanitize(m.name), Clean(m.value)), tail))
    decreases m, 2
  {
    var value := Render(m.value) + tail;
    var s := RenderMember(m) + tail;
    assert s == Quoted(m.name) + (":" + value);
    assert s[0] == '"';
    NoSpace(s);
    NoSpace(":" + value);
    QuotedDecodes(m.name, ":" + value);
    assert (":" + value)[1..] == value;
    ParseRendered(m.value, tail);
  }

  lemma {:induction false} ParseRenderedMembers(members: seq<Member>, rest: string)
    requires members != [] && ProperMembers(members)
    ensures ParseMembers(RenderMembers(members) + "}" + rest) == Some(Parsed(CleanMembers(members), rest))
    decreases members, 0
  {
    hide RenderMember, ParseMember, Clean, Sanitize;
    var s := RenderMembers(members) + "}" + rest;
    if |members| == 1 {
      var tail := "}" + rest;
      assert s == RenderMember(members[0]) + tail && tail[1..] == rest;
      NoSpace(tail);
      ParseRenderedMember(members[0], tail);
      assert CleanMembers(members) == [Member(Sanitize(members[0].name), Clean(members[0].value))];
    } else {
      var more := RenderMembers(members[1..]) + "}" + rest;
      var tail := "," + more;
      assert s == RenderMember(members[0]) + tail && tail[1..] == more;
      NoSpace(tail);
      ParseRenderedMember(members[0], tail);
      ParseRenderedMembers(members[1..], rest);
    }
  }

  /** The text of a tree may itself be embedded, and then stands for the same tree. */
  lemma {:induction false} RenderedStandsAlone(j: Json)
    requires Proper(j)
    ensures StandsAlone(Render(j)) && Meaning(Render(j)) == Clean(j)
  {
    RenderStart(j);
    ParseRendered(j, "");
    assert Render(j) + "" == Render(j);
    forall rest | Delimited(rest) ensures ParseValue(Render(j) + rest) == Some(Parsed(Clean(j), rest)) {
      ParseRendered(j, rest);
    }
  }

  /** The compact text of a tree is a JSON text, and parses to that tree. */
  lemma {:induction false} TextRoundTrip(j: Json)
    requires Proper(j)
    ensures ParseText(Render(j)) == Some(Clean(j))
  {
    ParseRendered(j, "");
    assert Render(j) + "" == Render(j);
  }
}
