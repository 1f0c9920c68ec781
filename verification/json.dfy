/** A JSON value and its compact text form (RFC 8259), as serde_json's
    `Display` implementation writes it: no whitespace between tokens, object
    members in the map's iteration order, strings escaped with the short
    escapes where JSON has one and `\u00XX` (lower-case hex) for the other
    control characters. Numbers are integers here. */
module Json {
  import opened Common

  datatype Value =
    | Null
    | Bool(b: bool)
    | Number(n: int)
    | String(s: string)
    | Array(items: seq<Value>)
    | Object(members: seq<Member>)

  datatype Member = Member(key: string, value: Value)

  const Backspace: char := 8 as char
  const FormFeed: char := 12 as char

  function HexDigit(d: nat): (c: char)
    requires d < 16
    ensures IsAsciiDigit(c) || 'a' <= c <= 'f'
  {
    if d < 10 then ('0' as int + d) as char else ('a' as int + d - 10) as char
  }

  /** The escape serde_json writes for one character of a string. */
  function EscapeChar(c: char): string {
    if c == '"' then "\\\""
    else if c == '\\' then "\\\\"
    else if c == Backspace then "\\b"
    else if c == FormFeed then "\\f"
    else if c == '\n' then "\\n"
    else if c == '\r' then "\\r"
    else if c == '\t' then "\\t"
    else if c < ' ' then "\\u00" + [HexDigit(c as int / 16), HexDigit(c as int % 16)]
    else [c]
  }

  function Escape(s: string): string {
    if s == [] then [] else EscapeChar(s[0]) + Escape(s[1..])
  }

  /** A string literal: the escaped contents between double quotes. */
  function Quote(s: string): string {
    "\"" + Escape(s) + "\""
  }

  function NatToString(n: nat): (r: string)
    ensures |r| > 0
    ensures forall i :: 0 <= i < |r| ==> IsAsciiDigit(r[i])
  {
    if n < 10 then [('0' as int + n) as char]
    else NatToString(n / 10) + [('0' as int + n % 10) as char]
  }

  function IntToString(n: int): string {
    if n < 0 then "-" + NatToString(-n) else NatToString(n)
  }

  /** The compact text of a value: serde_json's `Value::to_string`. */
  function Serialize(v: Value): string
    decreases v, 1
  {
    match v
    case Null => "null"
    case Bool(b) => if b then "true" else "false"
    case Number(n) => IntToString(n)
    case String(s) => Quote(s)
    case Array(items) => "[" + SerializeItems(items) + "]"
    case Object(members) => "{" + SerializeMembers(members) + "}"
  }

  /** Array elements separated by commas. */
  function SerializeItems(items: seq<Value>): string
    decreases items, 0
  {
    if items == [] then []
    else if |items| == 1 then Serialize(items[0])
    else Serialize(items[0]) + "," + SerializeItems(items[1..])
  }

  /** Object members `"key":value` separated by commas. */
  function SerializeMembers(members: seq<Member>): string
    decreases members, 0
  {
    if members == [] then []
    else if |members| == 1 then SerializeMember(members[0])
    else SerializeMember(members[0]) + "," + SerializeMembers(members[1..])
  }

  function SerializeMember(m: Member): string
    decreases m, 0
  {
    Quote(m.key) + ":" + Serialize(m.value)
  }

  lemma FooText()
    ensures Quote("foo") == "\"foo\""
  {
    assert Escape("foo") == "foo";
  }

  lemma NumbersText()
    ensures SerializeItems([Number(1), Number(2), Number(3), Null]) == "1,2,3,null"
  {
    var items := [Number(1), Number(2), Number(3), Null];
    assert SerializeItems(items[3..]) == "null";
    assert SerializeItems(items[2..]) == "3,null" by {
      assert items[2..][1..] == items[3..];
    }
    assert SerializeItems(items[1..]) == "2,3,null" by {
      assert items[1..][1..] == items[2..];
    }
  }

  /** The compact text of a small array: items separated by commas, the
      string in it quoted. */
  lemma ArrayText()
    ensures Serialize(Array([String("foo"), Number(1), Number(2), Number(3), Null])) == "[\"foo\",1,2,3,null]"
  {
    var items := [String("foo"), Number(1), Number(2), Number(3), Null];
    var numbers := [Number(1), Number(2), Number(3), Null];
    assert items == [String("foo")] + numbers;
    FooText();
    NumbersText();
    ItemsCons(String("foo"), numbers);
    assert Serialize(Array(items)) == "[" + (Quote("foo") + "," + SerializeItems(numbers)) + "]";
    assert "[" + ("\"foo\"" + "," + "1,2,3,null") + "]" == "[\"foo\",1,2,3,null]";
  }

  lemma ItemsCons(v: Value, rest: seq<Value>)
    requires rest != []
    ensures SerializeItems([v] + rest) == Serialize(v) + "," + SerializeItems(rest)
  {
    assert ([v] + rest)[1..] == rest;
  }

  /** The compact text of a small object: the key quoted, no spaces. */
  lemma ObjectText()
    ensures Serialize(Object([Member("foo", Number(123))])) == "{\"foo\":123}"
  {
    FooText();
    assert IntToString(123) == "123";
  }

  /** The four whitespace characters of RFC 8259 section 2. */
  predicate IsJsonWhitespace(c: char) {
    c == ' ' || c == '\t' || c == '\n' || c == '\r'
  }

  /** Some string inside the value, an object key or a string value,
      contains a space. */
  predicate HasSpacedString(v: Value)
    decreases v, 1
  {
    match v
    case String(s) => ' ' in s
    case Array(items) => ItemsHaveSpacedString(items)
    case Object(members) => MembersHaveSpacedString(members)
    case _ => false
  }

  predicate ItemsHaveSpacedString(items: seq<Value>)
    decreases items, 0
  {
    items != [] && (HasSpacedString(items[0]) || ItemsHaveSpacedString(items[1..]))
  }

  predicate MembersHaveSpacedString(members: seq<Member>)
    decreases members, 0
  {
    members != [] &&
    (' ' in members[0].key || HasSpacedString(members[0].value) || MembersHaveSpacedString(members[1..]))
  }

  lemma {:induction false} EscapeWhitespace(s: string)
    ensures forall c :: c in Escape(s) && IsJsonWhitespace(c) ==> c == ' ' && ' ' in s
    decreases |s|
  {
    if s != [] {
      EscapeWhitespace(s[1..]);
      EscapeCharWhitespace(s[0]);
      assert Escape(s) == EscapeChar(s[0]) + Escape(s[1..]);
    }
  }

  /** The only whitespace an escaped character can hold is a space that
      stands for itself. */
  lemma EscapeCharWhitespace(x: char)
    ensures forall c :: c in EscapeChar(x) && IsJsonWhitespace(c) ==> c == ' ' && c == x
  {
    if x < ' ' && !(x == Backspace || x == FormFeed || x == '\n' || x == '\r' || x == '\t') {
      var e := "\\u00" + [HexDigit(x as int / 16), HexDigit(x as int % 16)];
      assert forall c :: c in e ==> c == '\\' || c == 'u' || c == '0' || c == e[4] || c == e[5];
    }
  }

  lemma IntWhitespace(n: int)
    ensures forall c :: c in IntToString(n) ==> !IsJsonWhitespace(c)
  {
    var digits := NatToString(if n < 0 then -n else n);
    assert forall c :: c in digits ==> IsAsciiDigit(c);
  }

  /** Compact text has no whitespace between tokens: every whitespace
      character in it is a space copied from a string inside the value. */
  lemma {:induction false} WhitespaceOnlyInStrings(v: Value)
    ensures forall c :: c in Serialize(v) && IsJsonWhitespace(c) ==> c == ' ' && HasSpacedString(v)
    decreases v, 1
  {
    match v
    case Null =>
    case Bool(_) =>
    case Number(n) => IntWhitespace(n);
    case String(s) => EscapeWhitespace(s);
    case Array(items) => ItemsWhitespace(items);
    case Object(members) => MembersWhitespace(members);
  }

  lemma {:induction false} ItemsWhitespace(items: seq<Value>)
    ensures forall c :: c in SerializeItems(items) && IsJsonWhitespace(c) ==> c == ' ' && ItemsHaveSpacedString(items)
    decreases items, 0
  {
    if items != [] {
      WhitespaceOnlyInStrings(items[0]);
      ItemsWhitespace(items[1..]);
    }
  }

  lemma {:induction false} MemberWhitespace(m: Member)
    ensures forall c :: c in SerializeMember(m) && IsJsonWhitespace(c) ==>
      c == ' ' && (' ' in m.key || HasSpacedString(m.value))
    decreases m, 0
  {
    EscapeWhitespace(m.key);
    WhitespaceOnlyInStrings(m.value);
  }

  lemma {:induction false} MembersWhitespace(members: seq<Member>)
    ensures forall c :: c in SerializeMembers(members) && IsJsonWhitespace(c) ==> c == ' ' && MembersHaveSpacedString(members)
    decreases members, 0
  {
    if members != [] {
      MemberWhitespace(members[0]);
      MembersWhitespace(members[1..]);
    }
  }
}
