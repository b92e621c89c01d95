/**
  Canonical JSON (conformance/src/lib/jcs.ts): the RFC 8785 serializer `canonicalJSON`
  and the strict reader `parseIJson`.

  How a double is written in decimal, and read back, is a parameter.
 */
module Jcs {
  import opened Wrappers
  import opened Json
  import Utf
  import CodeUnits
  import Digest
  import JsonMatch

  datatype Refusal = DuplicateName | LoneSurrogate | IntegerOutOfRange | NonFinite | NotJson

  /** `String(n)` of a finite double, None for other numbers; `Number(s)` of a literal, None for an infinite one. */
  datatype Numbers = Numbers(text: real -> Option<string>, value: string -> Option<real>)

  const MAX_EXACT: int := 9007199254740991

  // ---------------------------------------------------------------- number literals

  predicate IsDigit(c: char) {
    '0' <= c <= '9'
  }

  /** Leading digits. */
  function Digits(t: string): (n: nat)
    ensures n <= |t|
  {
    if t == "" || !IsDigit(t[0]) then 0 else 1 + Digits(t[1..])
  }

  /** `-?` */
  function SignLength(t: string): (n: nat)
    ensures n <= |t|
  {
    if t != "" && t[0] == '-' then 1 else 0
  }

  /** `(0|[1-9][0-9]*)`, 0 when there is none. */
  function WholeLength(t: string): (n: nat)
    ensures n <= |t|
  {
    if t != "" && t[0] == '0' then 1 else Digits(t)
  }

  /** `(\.[0-9]+)?` */
  function FractionLength(t: string): (n: nat)
    ensures n <= |t|
  {
    if t != "" && t[0] == '.' && Digits(t[1..]) > 0 then 1 + Digits(t[1..]) else 0
  }

  /** `[+-]?[0-9]+`, 0 when there is none. */
  function SignedLength(t: string): (n: nat)
    ensures n <= |t|
  {
    var unsigned := if t != "" && (t[0] == '+' || t[0] == '-') then t[1..] else t;
    if Digits(unsigned) == 0 then 0 else |t| - |unsigned| + Digits(unsigned)
  }

  /** `([eE][+-]?[0-9]+)?` */
  function ExponentLength(t: string): (n: nat)
    ensures n <= |t|
  {
    if t == "" || (t[0] != 'e' && t[0] != 'E') || SignedLength(t[1..]) == 0 then 0 else 1 + SignedLength(t[1..])
  }

  /** How far the number pattern matches: up to the end of the whole part, and in all. */
  datatype Literal = Literal(whole: nat, all: nat)

  function WholeEnd(t: string): (n: nat)
    ensures n <= |t|
  {
    SignLength(t) + WholeLength(t[SignLength(t)..])
  }

  function FractionEnd(t: string): (n: nat)
    ensures WholeEnd(t) <= n <= |t|
  {
    WholeEnd(t) + FractionLength(t[WholeEnd(t)..])
  }

  function MatchNumber(t: string): (r: Option<Literal>)
    ensures r.Some? ==> 0 < r.value.whole <= r.value.all <= |t|
  {
    if WholeEnd(t) == SignLength(t) then None
    else Some(Literal(WholeEnd(t), FractionEnd(t) + ExponentLength(t[FractionEnd(t)..])))
  }

  predicate IsLiteral(t: string) {
    MatchNumber(t).Some? && MatchNumber(t).value.all == |t|
  }

  predicate IsInteger(t: string) {
    IsLiteral(t) && MatchNumber(t).value.whole == |t|
  }

  function Magnitude(digits: string): nat {
    if digits == "" then 0
    else
      var last := digits[|digits| - 1];
      10 * Magnitude(digits[..|digits| - 1]) + if IsDigit(last) then last as int - '0' as int else 0
  }

  /** `BigInt` of an integer literal, without its sign. */
  function IntegerSize(t: string): nat {
    var digits := t[SignLength(t)..];
    Magnitude(digits[..Digits(digits)])
  }

  /** An integer literal that no double need hold. */
  predicate IsInexact(t: string) {
    IsInteger(t) && IntegerSize(t) > MAX_EXACT
  }

  function ReadNumber(nums: Numbers, strict: bool, lit: string): Result<real, Refusal> {
    if strict && IsInexact(lit) then Err(IntegerOutOfRange)
    else if nums.value(lit).Some? then Ok(nums.value(lit).value)
    else Err(NonFinite)
  }

  // ---------------------------------------------------------------- writing

  function HexDigit(n: int): char
    requires 0 <= n < 16
  {
    "0123456789abcdef"[n]
  }

  /** How `JSON.stringify` writes a character. */
  function Escape(c: char): string {
    if c == '"' then "\\\""
    else if c == '\\' then "\\\\"
    else if c == '\U{8}' then "\\b"
    else if c == '\U{C}' then "\\f"
    else if c == '\n' then "\\n"
    else if c == '\r' then "\\r"
    else if c == '\t' then "\\t"
    else if c < ' ' then "\\u00" + [HexDigit(c as int / 16), HexDigit(c as int % 16)]
    else [c]
  }

  function EscapeAll(s: string): string {
    if s == "" then "" else Escape(s[0]) + EscapeAll(s[1..])
  }

  function Quote(s: string): string {
    "\"" + EscapeAll(s) + "\""
  }

  /** The text of a value, members in the order they are in. None when a number has no text. */
  function Text(nums: Numbers, v: Json): Option<string>
    decreases v, 1
  {
    match v
    case Null => Some("null")
    case Bool(b) => Some(if b then "true" else "false")
    case Num(n) => nums.text(n)
    case Str(s) => Some(Quote(s))
    case Arr(items) =>
      if items == [] then Some("[]")
      else var t := ItemsText(nums, items); if t.Some? then Some("[" + t.value + "]") else None
    case Obj(ms) =>
      if ms == [] then Some("{}")
      else var t := MembersText(nums, ms); if t.Some? then Some("{" + t.value + "}") else None
  }

  function ItemsText(nums: Numbers, items: seq<Json>): Option<string>
    requires items != []
    decreases items, 0
  {
    var first := Text(nums, items[0]);
    if |items| == 1 || first.None? then first
    else
      var rest := ItemsText(nums, items[1..]);
      if rest.Some? then Some(first.value + "," + rest.value) else None
  }

  function MemberText(nums: Numbers, m: Member): Option<string>
    decreases m, 0
  {
    var t := Text(nums, m.value);
    if t.Some? then Some(Quote(m.key) + ":" + t.value) else None
  }

  function MembersText(nums: Numbers, ms: seq<Member>): Option<string>
    requires ms != []
    decreases ms, 0
  {
    var first := MemberText(nums, ms[0]);
    if |ms| == 1 || first.None? then first
    else
      var rest := MembersText(nums, ms[1..]);
      if rest.Some? then Some(first.value + "," + rest.value) else None
  }

  function KeyOf(m: Member): string {
    m.key
  }

  /** Members of every object sorted by name. */
  function Normal(v: Json): Json {
    match v
    case Arr(items) => Arr(seq(|items|, i requires 0 <= i < |items| => Normal(items[i])))
    case Obj(ms) =>
      Obj(CodeUnits.Sort(seq(|ms|, i requires 0 <= i < |ms| => Member(ms[i].key, Normal(ms[i].value))), KeyOf))
    case _ => v
  }

  /** `canonicalJSON`. */
  function Canonical(nums: Numbers, v: Json): Option<string> {
    Text(nums, Normal(v))
  }

  // ---------------------------------------------------------------- reading

  function SkipSpace(t: string): (r: string)
    ensures |r| <= |t|
  {
    if t != "" && (t[0] == ' ' || t[0] == '\t' || t[0] == '\n' || t[0] == '\r') then SkipSpace(t[1..]) else t
  }

  lemma {:induction false} SkipSpaceTwice(t: string)
    ensures SkipSpace(SkipSpace(t)) == SkipSpace(t)
  {
    if t == "" || SkipSpace(t) == t {
    } else {
      SkipSpaceTwice(t[1..]);
    }
  }

  /** `parseInt(h, 16)` of four hex digits. */
  function CodeUnit(h: string): Option<Utf.Unit>
    requires |h| == 4
  {
    var a, b := Utf.HexValue(h[0] as int), Utf.HexValue(h[1] as int);
    var c, d := Utf.HexValue(h[2] as int), Utf.HexValue(h[3] as int);
    if a.Some? && b.Some? && c.Some? && d.Some? && a.value < 16 && b.value < 16 && c.value < 16 && d.value < 16
    then Some(4096 * a.value + 256 * b.value + 16 * c.value + d.value) else None
  }

  /** The character a backslash and `e` stand for. */
  function Unescaped(e: char): Option<char> {
    match e
    case '"' => Some('"')
    case '\\' => Some('\\')
    case '/' => Some('/')
    case 'b' => Some('\U{8}')
    case 'f' => Some('\U{C}')
    case 'n' => Some('\n')
    case 'r' => Some('\r')
    case 't' => Some('\t')
    case _ => None
  }

  function Chars(scalars: seq<Utf.Scalar>): string {
    if scalars == [] then "" else [scalars[0] as char] + Chars(scalars[1..])
  }

  /** What an escape stands for, after its backslash, and the text after it. */
  function AfterBackslash(t: string): (r: Option<(seq<Utf.Unit>, string)>)
    ensures r.Some? ==> |r.value.1| < |t|
  {
    if t == "" then None
    else if t[0] == 'u' then
      if |t| < 5 || CodeUnit(t[1..5]).None? then None else Some(([CodeUnit(t[1..5]).value], t[5..]))
    else if Unescaped(t[0]).None? then None
    else Some((Utf.UnitsOf(Unescaped(t[0]).value as int), t[1..]))
  }

  /** What is left of a string literal after its opening quote and `out`. */
  function ScanString(t: string, out: seq<Utf.Unit>): (r: Result<(string, string), Refusal>)
    ensures r.Ok? ==> |r.value.1| < |t|
    decreases |t|
  {
    if t == "" then Err(NotJson)
    else if t[0] == '"' then
      if Utf.WellFormed(out) then Ok((Chars(Utf.ToScalars(out)), t[1..])) else Err(LoneSurrogate)
    else if t[0] == '\\' then
      var e := AfterBackslash(t[1..]);
      if e.None? then Err(NotJson) else ScanString(e.value.1, out + e.value.0)
    else if t[0] < ' ' then Err(NotJson)
    else ScanString(t[1..], out + Utf.UnitsOf(t[0] as int))
  }

  function ParseString(t: string): (r: Result<(string, string), Refusal>)
    ensures r.Ok? ==> |r.value.1| < |t|
  {
    if t == "" || t[0] != '"' then Err(NotJson) else ScanString(t[1..], [])
  }

  function ParseNumber(nums: Numbers, strict: bool, t: string): (r: Result<(Json, string), Refusal>)
    ensures r.Ok? ==> |r.value.1| < |t|
  {
    var m := MatchNumber(t);
    if m.None? then Err(NotJson)
    else
      var n := ReadNumber(nums, strict, t[..m.value.all]);
      if n.Ok? then Ok((Num(n.value), t[m.value.all..])) else Err(n.error)
  }

  /** Whether `close` or a comma is next, and the text after it. */
  function Delimiter(text: string, close: char): (r: Option<(bool, string)>)
    ensures r.Some? ==> |r.value.1| < |text|
  {
    var more := SkipSpace(text);
    if more == "" || (more[0] != close && more[0] != ',') then None else Some((more[0] == close, more[1..]))
  }

  function ParseValue(nums: Numbers, strict: bool, text: string): (r: Result<(Json, string), Refusal>)
    ensures r.Ok? ==> |r.value.1| < |text|
    decreases |text|, 0
  {
    var t := SkipSpace(text);
    if t == "" then Err(NotJson)
    else if t[0] == '{' then
      var u := SkipSpace(t[1..]);
      if u != "" && u[0] == '}' then Ok((Obj([]), u[1..])) else ParseMembers(nums, strict, t[1..], [])
    else if t[0] == '[' then
      var u := SkipSpace(t[1..]);
      if u != "" && u[0] == ']' then Ok((Arr([]), u[1..])) else ParseItems(nums, strict, t[1..], [])
    else if t[0] == '"' then
      var s := ParseString(t);
      if s.Ok? then Ok((Str(s.value.0), s.value.1)) else Err(s.error)
    else if "true" <= t then Ok((Bool(true), t[4..]))
    else if "false" <= t then Ok((Bool(false), t[5..]))
    else if "null" <= t then Ok((Null, t[4..]))
    else if t[0] == '-' || IsDigit(t[0]) then ParseNumber(nums, strict, t)
    else Err(NotJson)
  }

  /** The members from here to the closing brace, after `read`. */
  function ParseMembers(nums: Numbers, strict: bool, text: string, read: seq<Member>)
    : (r: Result<(Json, string), Refusal>)
    ensures r.Ok? ==> |r.value.1| < |text|
    decreases |text|, 0
  {
    var k := ParseString(SkipSpace(text));
    if k.Err? then Err(k.error)
    else if k.value.0 in Keys(read) then Err(DuplicateName)
    else
      var colon := SkipSpace(k.value.1);
      if colon == "" || colon[0] != ':' then Err(NotJson)
      else AfterName(nums, strict, colon[1..], k.value.0, read)
  }

  /** After a member's name and colon. */
  function AfterName(nums: Numbers, strict: bool, text: string, k: string, read: seq<Member>)
    : (r: Result<(Json, string), Refusal>)
    ensures r.Ok? ==> |r.value.1| < |text|
    decreases |text|, 1
  {
    var v := ParseValue(nums, strict, text);
    if v.Err? then v else AfterMember(nums, strict, v.value.1, read + [Member(k, v.value.0)])
  }

  function AfterMember(nums: Numbers, strict: bool, text: string, all: seq<Member>)
    : (r: Result<(Json, string), Refusal>)
    ensures r.Ok? ==> |r.value.1| < |text|
    decreases |text|, 0
  {
    var d := Delimiter(text, '}');
    if d.None? then Err(NotJson)
    else if d.value.0 then Ok((Obj(all), d.value.1))
    else ParseMembers(nums, strict, d.value.1, all)
  }

  function ParseItems(nums: Numbers, strict: bool, text: string, read: seq<Json>): (r: Result<(Json, string), Refusal>)
    ensures r.Ok? ==> |r.value.1| < |text|
    decreases |text|, 1
  {
    var v := ParseValue(nums, strict, text);
    if v.Err? then v else AfterItem(nums, strict, v.value.1, read + [v.value.0])
  }

  function AfterItem(nums: Numbers, strict: bool, text: string, all: seq<Json>): (r: Result<(Json, string), Refusal>)
    ensures r.Ok? ==> |r.value.1| < |text|
    decreases |text|, 0
  {
    var d := Delimiter(text, ']');
    if d.None? then Err(NotJson)
    else if d.value.0 then Ok((Arr(all), d.value.1))
    else ParseItems(nums, strict, d.value.1, all)
  }

  /** `parseIJson`, when strict. */
  function Parse(nums: Numbers, strict: bool, text: string): Result<Json, Refusal> {
    var v := ParseValue(nums, strict, text);
    if v.Err? then Err(v.error)
    else if SkipSpace(v.value.1) == "" then Ok(v.value.0)
    else Err(NotJson)
  }

  // ---------------------------------------------------------------- reading back what was written

  /** What the standard says of `String` and `Number`: a double's text is a literal, read as that double. */
  ghost predicate Faithful(nums: Numbers) {
    forall n | nums.text(n).Some? :: IsLiteral(nums.text(n).value) && nums.value(nums.text(n).value) == Some(n)
  }

  /** What can follow a value. */
  predicate Delimited(rest: string) {
    rest == "" || rest[0] == ',' || rest[0] == ']' || rest[0] == '}'
  }

  lemma {:induction false} DigitsExtend(t: string, rest: string)
    requires rest == "" || !IsDigit(rest[0])
    ensures Digits(t + rest) == Digits(t)
  {
    if t == "" {
      assert t + rest == rest;
    } else {
      assert (t + rest)[1..] == t[1..] + rest;
      DigitsExtend(t[1..], rest);
    }
  }

  lemma Suffix(t: string, rest: string, k: nat)
    requires k <= |t|
    ensures (t + rest)[k..] == t[k..] + rest
  {}

  lemma WholeExtends(t: string, rest: string)
    requires Delimited(rest)
    ensures SignLength(t + rest) == SignLength(t) && WholeLength(t + rest) == WholeLength(t)
  {
    DigitsExtend(t, rest);
    if t == "" { assert t + rest == rest; }
  }

  lemma WholeEndExtends(t: string, rest: string)
    requires Delimited(rest)
    ensures SignLength(t + rest) == SignLength(t) && WholeEnd(t + rest) == WholeEnd(t)
  {
    WholeExtends(t, rest);
    Suffix(t, rest, SignLength(t));
    WholeExtends(t[SignLength(t)..], rest);
  }

  lemma FractionEndExtends(t: string, rest: string)
    requires Delimited(rest)
    ensures FractionEnd(t + rest) == FractionEnd(t)
  {
    WholeEndExtends(t, rest);
    Suffix(t, rest, WholeEnd(t));
    FractionExtends(t[WholeEnd(t)..], rest);
  }

  lemma FractionExtends(t: string, rest: string)
    requires Delimited(rest)
    ensures FractionLength(t + rest) == FractionLength(t)
  {
    if t == "" {
      assert t + rest == rest;
    } else {
      assert (t + rest)[1..] == t[1..] + rest;
      DigitsExtend(t[1..], rest);
    }
  }

  lemma SignedExtends(t: string, rest: string)
    requires Delimited(rest)
    ensures SignedLength(t + rest) == SignedLength(t)
  {
    DigitsExtend(t, rest);
    if t == "" {
      assert t + rest == rest;
    } else {
      Suffix(t, rest, 1);
      DigitsExtend(t[1..], rest);
    }
  }

  lemma ExponentExtends(t: string, rest: string)
    requires Delimited(rest)
    ensures ExponentLength(t + rest) == ExponentLength(t)
  {
    if t == "" {
      assert t + rest == rest;
    } else {
      Suffix(t, rest, 1);
      SignedExtends(t[1..], rest);
    }
  }

  lemma LiteralExtends(t: string, rest: string)
    requires Delimited(rest)
    ensures MatchNumber(t + rest) == MatchNumber(t)
  {
    WholeEndExtends(t, rest);
    FractionEndExtends(t, rest);
    TailExtends(t, rest, FractionEnd(t));
  }

  lemma TailExtends(t: string, rest: string, k: nat)
    requires Delimited(rest) && k <= |t|
    ensures ExponentLength((t + rest)[k..]) == ExponentLength(t[k..])
  {
    Suffix(t, rest, k);
    ExponentExtends(t[k..], rest);
  }

  lemma ReadEscape(c: char, tail: string, out: seq<Utf.Unit>)
    ensures ScanString(Escape(c) + tail, out) == ScanString(tail, out + Utf.UnitsOf(c as int))
  {
    var t := Escape(c) + tail;
    if |Escape(c)| == 6 {
      ReadControl(c, tail, out);
    } else if |Escape(c)| == 2 {
      assert t[1..][1..] == tail;
    } else {
      assert t[1..] == tail;
    }
  }

  lemma ReadControl(c: char, tail: string, out: seq<Utf.Unit>)
    requires |Escape(c)| == 6
    ensures ScanString(Escape(c) + tail, out) == ScanString(tail, out + Utf.UnitsOf(c as int))
  {
    var hex := [HexDigit(c as int / 16), HexDigit(c as int % 16)];
    var u := (Escape(c) + tail)[1..];
    assert u == "u00" + hex + tail;
    assert u[5..] == tail && u[1..5] == "00" + hex;
    HexReads(c as int / 16);
    HexReads(c as int % 16);
    assert CodeUnit("00" + hex) == Some(c as int);
  }

  lemma HexReads(n: int)
    requires 0 <= n < 16
    ensures Utf.HexValue(HexDigit(n) as int) == Some(n)
  {}

  lemma {:induction false} ReadEscapes(s: string, tail: string, out: seq<Utf.Unit>)
    ensures ScanString(EscapeAll(s) + tail, out) == ScanString(tail, out + Utf.ToUnits(CodeUnits.Scalars(s)))
  {
    if s == "" {
      assert EscapeAll(s) + tail == tail && out + [] == out;
    } else {
      var units := Utf.UnitsOf(s[0] as int);
      assert EscapeAll(s) + tail == Escape(s[0]) + (EscapeAll(s[1..]) + tail);
      ReadEscape(s[0], EscapeAll(s[1..]) + tail, out);
      ReadEscapes(s[1..], tail, out + units);
      assert Utf.ToUnits(CodeUnits.Scalars(s)) == units + Utf.ToUnits(CodeUnits.Scalars(s[1..]));
      assert (out + units) + Utf.ToUnits(CodeUnits.Scalars(s[1..])) == out + Utf.ToUnits(CodeUnits.Scalars(s));
    }
  }

  lemma {:induction false} ReadScalars(scalars: seq<Utf.Scalar>)
    ensures Utf.WellFormed(Utf.ToUnits(scalars)) && Utf.ToScalars(Utf.ToUnits(scalars)) == scalars
  {
    if scalars == [] {
    } else {
      var units, rest := Utf.UnitsOf(scalars[0]), Utf.ToUnits(scalars[1..]);
      ReadScalars(scalars[1..]);
      assert (units + rest)[|units|..] == rest;
      assert scalars == [scalars[0]] + scalars[1..];
    }
  }

  lemma {:induction false} CharsOfScalars(s: string)
    ensures Chars(CodeUnits.Scalars(s)) == s
  {
    if s == "" {
    } else {
      CharsOfScalars(s[1..]);
    }
  }

  /** A quoted string reads as the string it quotes. */
  lemma StringRoundTrip(s: string, rest: string)
    ensures ParseString(Quote(s) + rest) == Ok((s, rest))
  {
    var t, units := Quote(s) + rest, Utf.ToUnits(CodeUnits.Scalars(s));
    assert t[1..] == EscapeAll(s) + ("\"" + rest);
    ReadEscapes(s, "\"" + rest, []);
    assert [] + units == units && ("\"" + rest)[1..] == rest;
    ReadScalars(CodeUnits.Scalars(s));
    CharsOfScalars(s);
  }

  /** No number is written as an integer beyond 2^53 - 1. */
  predicate Exact(nums: Numbers, v: Json) {
    match v
    case Num(n) => nums.text(n).Some? ==> !IsInexact(nums.text(n).value)
    case Arr(items) => forall i | 0 <= i < |items| :: Exact(nums, items[i])
    case Obj(ms) => forall i | 0 <= i < |ms| :: Exact(nums, ms[i].value)
    case _ => true
  }

  predicate ExactItems(nums: Numbers, items: seq<Json>) {
    forall i | 0 <= i < |items| :: Exact(nums, items[i])
  }

  predicate ExactMembers(nums: Numbers, ms: seq<Member>) {
    forall i | 0 <= i < |ms| :: Exact(nums, ms[i].value)
  }

  predicate IsSpaceChar(c: char) {
    c == ' ' || c == '\t' || c == '\n' || c == '\r'
  }

  /** How a value's text can start. */
  predicate Starts(t: string) {
    t != "" && !IsSpaceChar(t[0]) && t[0] != ']' && t[0] != '}'
  }

  lemma TextStarts(nums: Numbers, v: Json)
    requires Faithful(nums) && Text(nums, v).Some?
    ensures Starts(Text(nums, v).value)
  {}

  lemma ItemsTextStarts(nums: Numbers, items: seq<Json>)
    requires Faithful(nums) && items != [] && ItemsText(nums, items).Some?
    ensures Starts(ItemsText(nums, items).value)
  {
    TextStarts(nums, items[0]);
  }

  function Outcome(ok: bool, v: Json, rest: string): Result<(Json, string), Refusal> {
    if ok then Ok((v, rest)) else Err(IntegerOutOfRange)
  }

  lemma NumberRoundTrip(nums: Numbers, strict: bool, n: real, rest: string)
    requires Faithful(nums) && nums.text(n).Some? && Delimited(rest)
    ensures ParseValue(nums, strict, nums.text(n).value + rest) == Outcome(!strict || Exact(nums, Num(n)), Num(n), rest)
  {
    var t := nums.text(n).value;
    StartsNumber(nums, strict, t + rest);
    LiteralExtends(t, rest);
    assert (t + rest)[..|t|] == t && (t + rest)[|t|..] == rest;
  }

  lemma StartsNumber(nums: Numbers, strict: bool, t: string)
    requires t != "" && (t[0] == '-' || IsDigit(t[0]))
    ensures ParseValue(nums, strict, t) == ParseNumber(nums, strict, t)
  {}

  /** A member's value is next, after its name and colon. */
  lemma MemberStep(nums: Numbers, strict: bool, k: string, text: string, read: seq<Member>)
    requires k !in Keys(read)
    ensures ParseMembers(nums, strict, Quote(k) + (":" + text), read) == AfterName(nums, strict, text, k, read)
  {
    var t := Quote(k) + (":" + text);
    assert SkipSpace(t) == t;
    StringRoundTrip(k, ":" + text);
    assert (":" + text)[1..] == text && SkipSpace(":" + text) == ":" + text;
  }

  lemma SpaceBeforeItem(nums: Numbers, strict: bool, text: string, read: seq<Json>)
    ensures ParseItems(nums, strict, SkipSpace(text), read) == ParseItems(nums, strict, text, read)
  {
    SkipSpaceTwice(text);
    assert ParseValue(nums, strict, SkipSpace(text)) == ParseValue(nums, strict, text);
  }

  /** After an opening bracket and space: an empty array, or items. */
  function AfterBracket(nums: Numbers, text: string): Result<(Json, string), Refusal> {
    if text != "" && text[0] == ']' then Ok((Arr([]), text[1..])) else ParseItems(nums, true, text, [])
  }

  lemma BracketOpens(nums: Numbers, text: string)
    requires text != "" && text[0] == '['
    ensures ParseValue(nums, true, text) == AfterBracket(nums, SkipSpace(text[1..]))
  {
    SpaceBeforeItem(nums, true, text[1..], []);
  }

  lemma ExactSplit(nums: Numbers, items: seq<Json>)
    requires items != []
    ensures ExactItems(nums, items) <==> Exact(nums, items[0]) && ExactItems(nums, items[1..])
  {}

  lemma ExactMembersSplit(nums: Numbers, ms: seq<Member>)
    requires ms != []
    ensures ExactMembers(nums, ms) <==> Exact(nums, ms[0].value) && ExactMembers(nums, ms[1..])
  {}

  /** Reading what was written gives the value back, or refuses it for a large integer. */
  lemma {:induction false} ValueRoundTrip(nums: Numbers, strict: bool, v: Json, rest: string)
    requires Faithful(nums) && WellFormed(v) && Text(nums, v).Some? && Delimited(rest)
    ensures ParseValue(nums, strict, Text(nums, v).value + rest) == Outcome(!strict || Exact(nums, v), v, rest)
    decreases v, 1
  {
    var t := Text(nums, v).value + rest;
    match v
    case Num(n) => NumberRoundTrip(nums, strict, n, rest);
    case Str(s) => StringRoundTrip(s, rest);
    case Arr(items) =>
      if items == [] { EmptyRoundTrip(nums, strict, v, rest); } else { ArrayRoundTrip(nums, strict, items, rest); }
    case Obj(ms) =>
      if ms == [] { EmptyRoundTrip(nums, strict, v, rest); } else { ObjectRoundTrip(nums, strict, ms, rest); }
    case Null => assert t == "null" + rest && t[4..] == rest;
    case Bool(b) =>
      if b { assert t == "true" + rest && t[4..] == rest; } else { assert t == "false" + rest && t[5..] == rest; }
  }

  lemma EmptyRoundTrip(nums: Numbers, strict: bool, v: Json, rest: string)
    requires v == Arr([]) || v == Obj([])
    ensures ParseValue(nums, strict, Text(nums, v).value + rest) == Ok((v, rest))
  {}

  lemma OpensArray(nums: Numbers, strict: bool, inner: string)
    requires Starts(inner)
    ensures ParseValue(nums, strict, "[" + inner) == ParseItems(nums, strict, inner, [])
  {}

  lemma OpensObject(nums: Numbers, strict: bool, inner: string)
    requires Starts(inner)
    ensures ParseValue(nums, strict, "{" + inner) == ParseMembers(nums, strict, inner, [])
  {}

  lemma {:induction false} ArrayRoundTrip(nums: Numbers, strict: bool, items: seq<Json>, rest: string)
    requires Faithful(nums) && items != [] && (forall i | 0 <= i < |items| :: WellFormed(items[i]))
    requires ItemsText(nums, items).Some? && Delimited(rest)
    ensures ParseValue(nums, strict, "[" + ItemsText(nums, items).value + "]" + rest)
         == Outcome(!strict || ExactItems(nums, items), Arr(items), rest)
    decreases items, 2
  {
    var inner := ItemsText(nums, items).value + "]" + rest;
    assert "[" + ItemsText(nums, items).value + "]" + rest == "[" + inner;
    ItemsTextStarts(nums, items);
    OpensArray(nums, strict, inner);
    ItemsRoundTrip(nums, strict, items, rest, []);
    assert [] + items == items;
  }

  lemma {:induction false} ItemsRoundTrip(nums: Numbers, strict: bool, items: seq<Json>, rest: string, read: seq<Json>)
    requires Faithful(nums) && items != [] && (forall i | 0 <= i < |items| :: WellFormed(items[i]))
    requires ItemsText(nums, items).Some? && Delimited(rest)
    ensures ParseItems(nums, strict, ItemsText(nums, items).value + "]" + rest, read)
         == Outcome(!strict || ExactItems(nums, items), Arr(read + items), rest)
    decreases items, 1
  {
    var after := ItemsAfter(nums, items, rest);
    ValueRoundTrip(nums, strict, items[0], after);
    if |items| <= 1 {
    } else {
      ItemsRoundTrip(nums, strict, items[1..], rest, read + [items[0]]);
    }
    ItemsCompose(nums, strict, Text(nums, items[0]).value + after, items[0], after, read, items[1..], rest,
                 !strict || Exact(nums, items[0]), !strict || ExactItems(nums, items[1..]));
    ExactSplit(nums, items);
    assert read + [items[0]] + items[1..] == read + items;
  }

  /** An item read, and the others after it. */
  lemma ItemsCompose(
      nums: Numbers, strict: bool, text: string, v: Json, after: string, read: seq<Json>, others: seq<Json>,
      rest: string,
      okFirst: bool, okRest: bool)
    requires ParseValue(nums, strict, text) == Outcome(okFirst, v, after) && after != ""
    requires after[0] == ']' ==> others == [] && after[1..] == rest && okRest
    requires after[0] != ']' ==>
               after[0] == ','
               && ParseItems(nums, strict, after[1..], read + [v]) == Outcome(okRest, Arr(read + [v] + others), rest)
    ensures ParseItems(nums, strict, text, read) == Outcome(okFirst && okRest, Arr(read + [v] + others), rest)
  {
    assert SkipSpace(after) == after;
    assert read + [v] + [] == read + [v];
  }

  /** What follows the first item. */
  function ItemsAfter(nums: Numbers, items: seq<Json>, rest: string): (after: string)
    requires items != [] && ItemsText(nums, items).Some?
    ensures Text(nums, items[0]).Some? && (|items| > 1 ==> ItemsText(nums, items[1..]).Some?)
    ensures ItemsText(nums, items).value + "]" + rest == Text(nums, items[0]).value + after
    ensures after != "" && (if |items| == 1 then after[0] == ']' && after[1..] == rest
                            else after[0] == ',' && after[1..] == ItemsText(nums, items[1..]).value + "]" + rest)
  {
    if |items| == 1 then "]" + rest else "," + (ItemsText(nums, items[1..]).value + "]" + rest)
  }

  lemma {:induction false} ObjectRoundTrip(nums: Numbers, strict: bool, ms: seq<Member>, rest: string)
    requires Faithful(nums) && ms != [] && WellFormed(Obj(ms))
    requires MembersText(nums, ms).Some? && Delimited(rest)
    ensures ParseValue(nums, strict, "{" + MembersText(nums, ms).value + "}" + rest)
         == Outcome(!strict || ExactMembers(nums, ms), Obj(ms), rest)
    decreases ms, 2
  {
    var inner := MembersText(nums, ms).value + "}" + rest;
    assert "{" + MembersText(nums, ms).value + "}" + rest == "{" + inner;
    MembersShape(nums, ms, rest);
    OpensObject(nums, strict, inner);
    MembersRoundTrip(nums, strict, ms, rest, []);
    assert [] + ms == ms;
  }

  lemma {:induction false} MembersRoundTrip(
      nums: Numbers, strict: bool, ms: seq<Member>, rest: string, read: seq<Member>)
    requires Faithful(nums) && ms != [] && DistinctKeys(read + ms)
    requires forall i | 0 <= i < |ms| :: WellFormed(ms[i].value)
    requires MembersText(nums, ms).Some? && Delimited(rest)
    ensures ParseMembers(nums, strict, MembersText(nums, ms).value + "}" + rest, read)
         == Outcome(!strict || ExactMembers(nums, ms), Obj(read + ms), rest)
    decreases ms, 1
  {
    MembersShape(nums, ms, rest);
    NewKey(read, ms);
    ValueRoundTrip(nums, strict, ms[0].value, MembersAfter(nums, ms, rest));
    OthersRoundTrip(nums, strict, ms, rest, read);
    FirstAndOthers(nums, strict, ms, rest, read);
  }

  /** The members after the first are read as they should be. */
  ghost predicate OthersRead(nums: Numbers, strict: bool, ms: seq<Member>, rest: string, read: seq<Member>)
    requires ms != []
  {
    |ms| > 1 ==>
      MembersText(nums, ms[1..]).Some?
      && ParseMembers(nums, strict, MembersText(nums, ms[1..]).value + "}" + rest, read + [ms[0]])
         == Outcome(!strict || ExactMembers(nums, ms[1..]), Obj(read + [ms[0]] + ms[1..]), rest)
  }

  /** The first member's value is read as it should be. */
  ghost predicate FirstRead(nums: Numbers, strict: bool, ms: seq<Member>, rest: string)
    requires ms != [] && MembersText(nums, ms).Some?
  {
    && Text(nums, ms[0].value).Some?
    && ParseValue(nums, strict, Text(nums, ms[0].value).value + MembersAfter(nums, ms, rest))
       == Outcome(!strict || Exact(nums, ms[0].value), ms[0].value, MembersAfter(nums, ms, rest))
  }

  function MemberAndRest(nums: Numbers, ms: seq<Member>, rest: string): string
    requires ms != [] && MembersText(nums, ms).Some? && Text(nums, ms[0].value).Some?
  {
    Quote(ms[0].key) + (":" + (Text(nums, ms[0].value).value + MembersAfter(nums, ms, rest)))
  }

  lemma FirstAndOthers(nums: Numbers, strict: bool, ms: seq<Member>, rest: string, read: seq<Member>)
    requires ms != [] && MembersText(nums, ms).Some? && ms[0].key !in Keys(read)
    requires FirstRead(nums, strict, ms, rest) && OthersRead(nums, strict, ms, rest, read)
    ensures ParseMembers(nums, strict, MembersText(nums, ms).value + "}" + rest, read)
         == Outcome(!strict || ExactMembers(nums, ms), Obj(read + ms), rest)
  {
    MembersShape(nums, ms, rest);
    if |ms| == 1 { OnlyMember(nums, strict, ms, rest, read); } else { ManyMembers(nums, strict, ms, rest, read); }
    ExactMembersSplit(nums, ms);
    SplitFirst(read, ms);
  }

  lemma SplitFirst(read: seq<Member>, ms: seq<Member>)
    requires ms != []
    ensures read + [ms[0]] + ms[1..] == read + ms
  {}

  lemma OnlyMember(nums: Numbers, strict: bool, ms: seq<Member>, rest: string, read: seq<Member>)
    requires |ms| == 1 && MembersText(nums, ms).Some? && ms[0].key !in Keys(read) && FirstRead(nums, strict, ms, rest)
    ensures ParseMembers(nums, strict, MemberAndRest(nums, ms, rest), read)
         == Outcome(!strict || (Exact(nums, ms[0].value) && ExactMembers(nums, ms[1..])),
                    Obj(read + [ms[0]] + ms[1..]), rest)
  {
    var after := MembersAfter(nums, ms, rest);
    assert after == "}" + rest && after[1..] == rest && ms[1..] == [];
    MembersCompose(nums, strict, Text(nums, ms[0].value).value + after, ms[0], after, read, [], rest,
                   !strict || Exact(nums, ms[0].value), true);
  }

  lemma ManyMembers(nums: Numbers, strict: bool, ms: seq<Member>, rest: string, read: seq<Member>)
    requires |ms| > 1 && MembersText(nums, ms).Some? && ms[0].key !in Keys(read)
    requires FirstRead(nums, strict, ms, rest) && OthersRead(nums, strict, ms, rest, read)
    ensures ParseMembers(nums, strict, MemberAndRest(nums, ms, rest), read)
         == Outcome(!strict || (Exact(nums, ms[0].value) && ExactMembers(nums, ms[1..])),
                    Obj(read + [ms[0]] + ms[1..]), rest)
  {
    var after := MembersAfter(nums, ms, rest);
    MembersShape(nums, ms, rest);
    MembersCompose(nums, strict, Text(nums, ms[0].value).value + after, ms[0], after, read, ms[1..], rest,
                   !strict || Exact(nums, ms[0].value), !strict || ExactMembers(nums, ms[1..]));
  }

  /** The members after the first, when there are any. */
  lemma {:induction false} OthersRoundTrip(
      nums: Numbers, strict: bool, ms: seq<Member>, rest: string, read: seq<Member>)
    requires Faithful(nums) && ms != [] && DistinctKeys(read + ms)
    requires forall i | 0 <= i < |ms| :: WellFormed(ms[i].value)
    requires MembersText(nums, ms).Some? && Delimited(rest)
    ensures OthersRead(nums, strict, ms, rest, read)
    decreases ms, 0
  {
    if |ms| == 1 {
    } else {
      assert (read + [ms[0]]) + ms[1..] == read + ms;
      MembersRoundTrip(nums, strict, ms[1..], rest, read + [ms[0]]);
    }
  }

  /** A member read, and the others after it. */
  lemma MembersCompose(
      nums: Numbers, strict: bool, text: string, m: Member, after: string, read: seq<Member>, others: seq<Member>,
      rest: string,
      okFirst: bool, okRest: bool)
    requires m.key !in Keys(read)
    requires ParseValue(nums, strict, text) == Outcome(okFirst, m.value, after) && after != ""
    requires after[0] == '}' ==> others == [] && after[1..] == rest && okRest
    requires after[0] != '}' ==>
               after[0] == ','
               && ParseMembers(nums, strict, after[1..], read + [m])
                  == Outcome(okRest, Obj(read + [m] + others), rest)
    ensures ParseMembers(nums, strict, Quote(m.key) + (":" + text), read)
         == Outcome(okFirst && okRest, Obj(read + [m] + others), rest)
  {
    MemberStep(nums, strict, m.key, text, read);
    assert SkipSpace(after) == after;
    assert read + [m] + [] == read + [m] && Member(m.key, m.value) == m;
  }

  /** What follows the first member. */
  function MembersAfter(nums: Numbers, ms: seq<Member>, rest: string): string
    requires ms != [] && MembersText(nums, ms).Some?
  {
    if |ms| == 1 then "}" + rest else "," + (MembersText(nums, ms[1..]).value + "}" + rest)
  }

  lemma Regroup(q: string, v: string, others: string, rest: string)
    ensures ((q + ":" + v) + "," + others) + "}" + rest == q + (":" + (v + ("," + (others + "}" + rest))))
    ensures (q + ":" + v) + "}" + rest == q + (":" + (v + ("}" + rest)))
  {}

  lemma MembersShape(nums: Numbers, ms: seq<Member>, rest: string)
    requires ms != [] && MembersText(nums, ms).Some?
    ensures MemberText(nums, ms[0]).Some? && Text(nums, ms[0].value).Some?
    ensures |ms| > 1 ==> MembersText(nums, ms[1..]).Some?
    ensures MembersText(nums, ms).value + "}" + rest == MemberAndRest(nums, ms, rest)
    ensures var after := MembersAfter(nums, ms, rest);
            if |ms| == 1 then after[0] == '}' && after[1..] == rest
            else after[0] == ',' && after[1..] == MembersText(nums, ms[1..]).value + "}" + rest
  {
    assert MemberText(nums, ms[0]).Some?;
    var others := if |ms| == 1 then "" else MembersText(nums, ms[1..]).value;
    Regroup(Quote(ms[0].key), Text(nums, ms[0].value).value, others, rest);
  }

  lemma NewKey(read: seq<Member>, ms: seq<Member>)
    requires ms != [] && DistinctKeys(read + ms)
    ensures ms[0].key !in Keys(read)
  {
    assert (read + ms)[|read|] == ms[0];
    assert forall i | 0 <= i < |read| :: (read + ms)[i] == read[i];
  }

  // ---------------------------------------------------------------- one text per value

  ghost predicate Unique<T>(s: seq<T>) {
    forall i, k | 0 <= i < k < |s| :: s[i] != s[k]
  }

  lemma {:induction false} UniqueCounts<T>(s: seq<T>, x: T)
    requires Unique(s)
    ensures multiset(s)[x] == if x in s then 1 else 0
  {
    if s == [] {
    } else {
      var rest := s[..|s| - 1];
      assert s == rest + [s[|s| - 1]];
      UniqueCounts(rest, x);
    }
  }

  lemma SameMembersSameBag<T>(a: seq<T>, b: seq<T>)
    requires Unique(a) && Unique(b) && forall x :: x in a <==> x in b
    ensures multiset(a) == multiset(b)
  {
    forall x
      ensures multiset(a)[x] == multiset(b)[x]
    {
      UniqueCounts(a, x);
      UniqueCounts(b, x);
    }
  }

  /** As many keys as members: no key twice. */
  lemma {:induction false} KeysAreDistinct(ms: seq<Member>)
    ensures |Keys(ms)| <= |ms| && (|Keys(ms)| == |ms| ==> DistinctKeys(ms))
  {
    if ms == [] {
    } else {
      var rest := ms[..|ms| - 1];
      KeysAreDistinct(rest);
      KeysOfOneMore(ms);
      forall i | 0 <= i < |rest|
        ensures ms[i] == rest[i] && rest[i].key in Keys(rest)
      {}
    }
  }

  lemma KeysOfOneMore(ms: seq<Member>)
    requires ms != []
    ensures var rest, last := ms[..|ms| - 1], ms[|ms| - 1].key;
            Keys(ms) == Keys(rest) + {last} && |Keys(ms)| == |Keys(rest)| + if last in Keys(rest) then 0 else 1
  {
    var rest, last := ms[..|ms| - 1], ms[|ms| - 1].key;
    assert Keys(ms) == Keys(rest) + {last};
    if last in Keys(rest) { assert Keys(ms) == Keys(rest); }
  }

  lemma PermutedKeys(ms: seq<Member>, ns: seq<Member>)
    requires DistinctKeys(ms) && multiset(ns) == multiset(ms)
    ensures DistinctKeys(ns) && |ns| == |ms|
    ensures forall i | 0 <= i < |ms| :: ms[i].key in Keys(ns) && ns[Find(ns, ms[i].key)] == ms[i]
  {
    assert |ms| == |multiset(ms)| == |ns|;
    assert forall m :: m in ms <==> m in multiset(ms);
    assert forall m :: m in ns <==> m in multiset(ns);
    SameKeys(ms, ns);
    KeyCount(ms);
    KeysAreDistinct(ns);
    forall i | 0 <= i < |ms|
      ensures ms[i].key in Keys(ns) && ns[Find(ns, ms[i].key)] == ms[i]
    {
      assert ms[i] in ns;
      var k :| 0 <= k < |ns| && ns[k] == ms[i];
      FindIsUnique(ns, k);
    }
  }

  lemma SameKeys(ms: seq<Member>, ns: seq<Member>)
    requires forall m :: m in ms <==> m in ns
    ensures Keys(ms) == Keys(ns)
  {
    forall k | k in Keys(ms)
      ensures k in Keys(ns)
    {
      var i :| 0 <= i < |ms| && ms[i].key == k;
      assert ms[i] in ns;
    }
    forall k | k in Keys(ns)
      ensures k in Keys(ms)
    {
      var i :| 0 <= i < |ns| && ns[i].key == k;
      assert ns[i] in ms;
    }
  }

  /** The members with their values sorted, before they are sorted themselves. */
  function NormalMembers(ms: seq<Member>): (ns: seq<Member>)
    ensures |ns| == |ms| && forall i | 0 <= i < |ms| :: ns[i] == Member(ms[i].key, Normal(ms[i].value))
  {
    seq(|ms|, i requires 0 <= i < |ms| => Member(ms[i].key, Normal(ms[i].value)))
  }

  lemma NormalObject(ms: seq<Member>)
    ensures Normal(Obj(ms)) == Obj(CodeUnits.Sort(NormalMembers(ms), KeyOf))
  {}

  /** Sorting changes spelling, not meaning. */
  lemma {:induction false} NormalKeepsMeaning(v: Json)
    requires WellFormed(v)
    ensures WellFormed(Normal(v)) && Meaning(Normal(v)) == Meaning(v)
  {
    match v
    case Arr(items) =>
      forall i | 0 <= i < |items|
        ensures WellFormed(Normal(items[i])) && Meaning(Normal(items[i])) == Meaning(items[i])
      { NormalKeepsMeaning(items[i]); }
    case Obj(ms) =>
      forall i | 0 <= i < |ms|
        ensures WellFormed(Normal(ms[i].value)) && Meaning(Normal(ms[i].value)) == Meaning(ms[i].value)
      { NormalKeepsMeaning(ms[i].value); }
      NormalObjectMeans(ms);
    case _ =>
  }

  lemma NormalObjectMeans(ms: seq<Member>)
    requires DistinctKeys(ms)
    requires forall i | 0 <= i < |ms| ::
               WellFormed(Normal(ms[i].value)) && Meaning(Normal(ms[i].value)) == Meaning(ms[i].value)
    ensures WellFormed(Normal(Obj(ms))) && Meaning(Normal(Obj(ms))) == Meaning(Obj(ms))
  {
    var ns := NormalMembers(ms);
    var sorted := CodeUnits.Sort(ns, KeyOf);
    NormalObject(ms);
    CodeUnits.SortSorts(ns, KeyOf);
    PermutedKeys(ns, sorted);
    StillWellFormed(ns, sorted);
    JsonMatch.EqualObjectsMeanTheSame(ms, sorted);
  }

  lemma StillWellFormed(ns: seq<Member>, sorted: seq<Member>)
    requires multiset(sorted) == multiset(ns) && forall i | 0 <= i < |ns| :: WellFormed(ns[i].value)
    ensures forall i | 0 <= i < |sorted| :: WellFormed(sorted[i].value)
  {
    forall i | 0 <= i < |sorted|
      ensures WellFormed(sorted[i].value)
    {
      assert sorted[i] in multiset(sorted);
      assert sorted[i] in ns;
    }
  }

  /** Values that mean the same have one sorted spelling. */
  lemma {:induction false} NormalIsUnique(a: Json, b: Json)
    requires WellFormed(a) && WellFormed(b) && Meaning(a) == Meaning(b)
    ensures Normal(a) == Normal(b)
  {
    match a
    case Arr(items) =>
      forall i | 0 <= i < |items|
        ensures Normal(items[i]) == Normal(b.items[i])
      {
        assert Meaning(a).items[i] == Meaning(b).items[i];
        NormalIsUnique(items[i], b.items[i]);
      }
      assert Normal(a).items == Normal(b).items;
    case Obj(ms) =>
      JsonMatch.SameMeaningMembers(ms, b.members);
      forall i | 0 <= i < |ms|
        ensures Normal(ms[i].value) == Normal(b.members[Find(b.members, ms[i].key)].value)
      { NormalIsUnique(ms[i].value, b.members[Find(b.members, ms[i].key)].value); }
      NormalObjectIsUnique(ms, b.members);
    case _ =>
  }

  lemma NormalObjectIsUnique(ms: seq<Member>, ns: seq<Member>)
    requires DistinctKeys(ms) && DistinctKeys(ns) && |ms| == |ns|
    requires forall i | 0 <= i < |ms| ::
               ms[i].key in Keys(ns) && Normal(ms[i].value) == Normal(ns[Find(ns, ms[i].key)].value)
    ensures Normal(Obj(ms)) == Normal(Obj(ns))
  {
    var a, b := NormalMembers(ms), NormalMembers(ns);
    forall i | 0 <= i < |a|
      ensures a[i] in b
    { assert b[Find(ns, ms[i].key)] == a[i]; }
    SameMembers(a, b);
    SameMembersSameBag(a, b);
    CodeUnits.OrderForgotten(a, b, KeyOf);
    NormalObject(ms);
    NormalObject(ns);
  }

  /** Of two lists of one length, with distinct keys, one cannot hold the other without being held. */
  lemma SameMembers(a: seq<Member>, b: seq<Member>)
    requires DistinctKeys(a) && DistinctKeys(b) && |a| == |b| && forall i | 0 <= i < |a| :: a[i] in b
    ensures forall m :: m in a <==> m in b
  {
    KeyCount(a);
    KeyCount(b);
    forall k | k in Keys(a)
      ensures k in Keys(b)
    {
      var i :| 0 <= i < |a| && a[i].key == k;
      assert a[i] in b;
    }
    JsonMatch.SubsetOfSameSize(Keys(a), Keys(b));
    forall m | m in b
      ensures m in a
    {
      assert m.key in Keys(b);
      var i :| 0 <= i < |a| && a[i].key == m.key;
      assert a[i] in b;
    }
  }

  function Canon(nums: Numbers): Digest.Canon {
    v => Canonical(nums, v)
  }

  /** Two values have one canonical text exactly when they are the same JSON. */
  lemma CanonicalIsCanonical(nums: Numbers)
    requires Faithful(nums)
    ensures Digest.IsCanonical(Canon(nums))
  {
    forall a, b | WellFormed(a) && WellFormed(b) && Canonical(nums, a).Some?
      ensures Canonical(nums, a) == Canonical(nums, b) <==> Meaning(a) == Meaning(b)
    {
      NormalKeepsMeaning(a);
      NormalKeepsMeaning(b);
      if Meaning(a) == Meaning(b) {
        NormalIsUnique(a, b);
      } else if Canonical(nums, a) == Canonical(nums, b) {
        ValueRoundTrip(nums, false, Normal(a), "");
        ValueRoundTrip(nums, false, Normal(b), "");
      }
    }
  }

  lemma {:induction false} NormalKeepsExact(nums: Numbers, v: Json)
    ensures Exact(nums, Normal(v)) <==> Exact(nums, v)
  {
    match v
    case Arr(items) =>
      forall i | 0 <= i < |items|
        ensures Exact(nums, Normal(v).items[i]) <==> Exact(nums, items[i])
      { NormalKeepsExact(nums, items[i]); }
    case Obj(ms) =>
      forall i | 0 <= i < |ms|
        ensures Exact(nums, Normal(ms[i].value)) <==> Exact(nums, ms[i].value)
      { NormalKeepsExact(nums, ms[i].value); }
      NormalMembersExact(nums, ms);
    case _ =>
  }

  lemma NormalMembersExact(nums: Numbers, ms: seq<Member>)
    requires forall i | 0 <= i < |ms| :: Exact(nums, Normal(ms[i].value)) <==> Exact(nums, ms[i].value)
    ensures Exact(nums, Normal(Obj(ms))) <==> Exact(nums, Obj(ms))
  {
    NormalObject(ms);
    SortedExact(nums, NormalMembers(ms));
    ExactPointwise(nums, NormalMembers(ms), ms);
  }

  lemma SortedExact(nums: Numbers, ns: seq<Member>)
    ensures ExactMembers(nums, CodeUnits.Sort(ns, KeyOf)) <==> ExactMembers(nums, ns)
  {
    var sorted := CodeUnits.Sort(ns, KeyOf);
    CodeUnits.SortSorts(ns, KeyOf);
    assert forall m :: m in sorted <==> m in multiset(sorted);
    assert forall m :: m in ns <==> m in multiset(ns);
    ExactByMember(nums, sorted);
    ExactByMember(nums, ns);
  }

  lemma ExactPointwise(nums: Numbers, ns: seq<Member>, ms: seq<Member>)
    requires |ns| == |ms| && forall i | 0 <= i < |ms| :: Exact(nums, ns[i].value) <==> Exact(nums, ms[i].value)
    ensures ExactMembers(nums, ns) <==> ExactMembers(nums, ms)
  {}

  lemma ExactByMember(nums: Numbers, ms: seq<Member>)
    ensures ExactMembers(nums, ms) <==> forall m | m in ms :: Exact(nums, m.value)
  {}

  /**
    The strict reader gives back, with its members sorted, every value it was canonically
    written from, except exactly those with a number written as an integer beyond 2^53 - 1.
   */
  lemma CanonicalReadsBack(nums: Numbers, v: Json)
    requires Faithful(nums) && WellFormed(v) && Canonical(nums, v).Some?
    ensures Parse(nums, true, Canonical(nums, v).value)
         == if Exact(nums, v) then Ok(Normal(v)) else Err(IntegerOutOfRange)
    ensures Meaning(Normal(v)) == Meaning(v) && Canonical(nums, Normal(v)) == Canonical(nums, v)
  {
    NormalKeepsMeaning(v);
    NormalKeepsExact(nums, v);
    NormalIsUnique(v, Normal(v));
    ValueRoundTrip(nums, true, Normal(v), "");
    assert Canonical(nums, v).value + "" == Canonical(nums, v).value;
  }

  function Pow10(n: nat): nat {
    if n == 0 then 1 else 10 * Pow10(n - 1)
  }

  ghost predicate AllDigits(t: string) {
    forall c | c in t :: IsDigit(c)
  }

  lemma {:induction false} DigitsOfDigits(t: string)
    requires AllDigits(t)
    ensures Digits(t) == |t|
  {
    if t == "" {
    } else {
      DigitsOfDigits(t[1..]);
    }
  }

  lemma {:induction false} MagnitudeAtLeast(t: string)
    requires t != "" && AllDigits(t) && t[0] != '0'
    ensures Magnitude(t) >= Pow10(|t| - 1)
  {
    var rest := t[..|t| - 1];
    if rest == "" {
      assert t[0] in t;
    } else {
      assert forall c | c in rest :: c in t;
      MagnitudeAtLeast(rest);
    }
  }

  lemma {:induction false} Pow10Grows(m: nat, n: nat)
    requires m <= n
    ensures Pow10(m) <= Pow10(n)
  {
    if m >= n {
    } else {
      Pow10Grows(m, n - 1);
    }
  }

  lemma TenToTheSixteenth()
    ensures Pow10(16) > MAX_EXACT
  {
    assert Pow10(4) == 10000 by { assert Pow10(2) == 100; }
    assert Pow10(8) == 100000000 by { assert Pow10(6) == 1000000; }
    assert Pow10(12) == 1000000000000 by { assert Pow10(10) == 10000000000; }
    assert Pow10(14) == 100000000000000;
  }

  /** Doubles from 10^16 on, up to where their text turns to an exponent, are written as integers the reader refuses. */
  lemma LargeIntegersAreRefused(nums: Numbers, n: real)
    requires Faithful(nums) && nums.text(n).Some?
    requires var t := nums.text(n).value; |t| >= 17 && AllDigits(t) && t[0] != '0'
    ensures Canonical(nums, Num(n)) == nums.text(n) && Parse(nums, true, nums.text(n).value) == Err(IntegerOutOfRange)
  {
    var t := nums.text(n).value;
    DigitsOfDigits(t);
    assert t[0] in t && t[0..] == t && t[..|t|] == t;
    MagnitudeAtLeast(t);
    Pow10Grows(16, |t| - 1);
    TenToTheSixteenth();
    CanonicalReadsBack(nums, Num(n));
  }

  // ---------------------------------------------------------------- what the reader accepts

  /** A text with two members of one name, at any depth, is not accepted. */
  lemma {:induction false} ParsedIsWellFormed(nums: Numbers, strict: bool, text: string)
    ensures var r := ParseValue(nums, strict, text); r.Ok? ==> WellFormed(r.value.0)
    decreases |text|, 0
  {
    var t := SkipSpace(text);
    if t != "" && t[0] == '{' && ParseValue(nums, strict, text).Ok? {
      ParsedMembersAreWellFormed(nums, strict, t[1..], []);
    } else if t != "" && t[0] == '[' && ParseValue(nums, strict, text).Ok? {
      ParsedItemsAreWellFormed(nums, strict, t[1..], []);
    }
  }

  lemma {:induction false} ParsedMembersAreWellFormed(nums: Numbers, strict: bool, text: string, read: seq<Member>)
    requires WellFormed(Obj(read))
    ensures var r := ParseMembers(nums, strict, text, read); r.Ok? ==> WellFormed(r.value.0)
    decreases |text|, 0
  {
    var k := ParseString(SkipSpace(text));
    if ParseMembers(nums, strict, text, read).Ok? {
      NamedMemberIsWellFormed(nums, strict, SkipSpace(k.value.1)[1..], k.value.0, read);
    }
  }

  lemma {:induction false} NamedMemberIsWellFormed(
      nums: Numbers, strict: bool, text: string, k: string, read: seq<Member>)
    requires WellFormed(Obj(read)) && k !in Keys(read)
    ensures var r := AfterName(nums, strict, text, k, read); r.Ok? ==> WellFormed(r.value.0)
    decreases |text|, 1
  {
    ParsedIsWellFormed(nums, strict, text);
    var v := ParseValue(nums, strict, text);
    if v.Ok? {
      assert forall i | 0 <= i < |read| :: read[i].key in Keys(read);
      FurtherMembersAreWellFormed(nums, strict, v.value.1, read + [Member(k, v.value.0)]);
    }
  }

  lemma {:induction false} FurtherMembersAreWellFormed(nums: Numbers, strict: bool, text: string, all: seq<Member>)
    requires WellFormed(Obj(all))
    ensures var r := AfterMember(nums, strict, text, all); r.Ok? ==> WellFormed(r.value.0)
    decreases |text|, 0
  {
    var d := Delimiter(text, '}');
    if d.Some? && !d.value.0 { ParsedMembersAreWellFormed(nums, strict, d.value.1, all); }
  }

  lemma {:induction false} ParsedItemsAreWellFormed(nums: Numbers, strict: bool, text: string, read: seq<Json>)
    requires WellFormed(Arr(read))
    ensures var r := ParseItems(nums, strict, text, read); r.Ok? ==> WellFormed(r.value.0)
    decreases |text|, 1
  {
    ParsedIsWellFormed(nums, strict, text);
    var r := ParseItems(nums, strict, text, read);
    if !r.Ok? {
    } else {
      var v := ParseValue(nums, strict, text).value;
      var all := read + [v.0];
      assert AfterItem(nums, strict, v.1, all).Ok?;
      var d := Delimiter(v.1, ']').value;
      if !d.0 { ParsedItemsAreWellFormed(nums, strict, d.1, all); }
    }
  }
}
