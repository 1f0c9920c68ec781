/** The compact JSON text of a value decodes back to that value: the
    serialiser and `JsonDecode` are inverse to each other. */
module JsonRoundTrip {
  import opened Common
  import opened Json
  import opened JsonDecode

  lemma {:induction false} DigitRunOfDigits(ds: string, rest: string)
    requires forall i :: 0 <= i < |ds| ==> IsAsciiDigit(ds[i])
    requires rest == [] || !IsAsciiDigit(rest[0])
    ensures DigitRun(ds + rest) == |ds|
    decreases |ds|
  {
    if ds != [] {
      assert (ds + rest)[1..] == ds[1..] + rest;
      DigitRunOfDigits(ds[1..], rest);
    } else {
      assert ds + rest == rest;
    }
  }

  lemma {:induction false} DigitsValueOfNatToString(n: nat)
    ensures DigitsValue(NatToString(n)) == n
    decreases n
  {
    var ds := NatToString(n);
    if n >= 10 {
      var front := NatToString(n / 10);
      assert ds[..|ds| - 1] == front;
      DigitsValueOfNatToString(n / 10);
    }
  }

  /** A decimal numeral is read back as the number it was written from. */
  lemma NatRoundTrip(n: nat, rest: string)
    requires rest == [] || !IsAsciiDigit(rest[0])
    ensures ParseNatural(NatToString(n) + rest) == Some(Parsed(n, rest))
  {
    var ds := NatToString(n);
    DigitRunOfDigits(ds, rest);
    assert (ds + rest)[..|ds|] == ds;
    assert (ds + rest)[|ds|..] == rest;
    DigitsValueOfNatToString(n);
  }

  lemma ParseNumberNegative(s: string)
    requires |s| > 0 && s[0] == '-'
    ensures ParseNumber(s) ==
      match ParseNatural(s[1..])
      case None => None
      case Some(p) => Some(Parsed(-(p.item as int), p.rest))
  {
  }

  lemma ParseNumberNonNegative(s: string)
    requires |s| > 0 && IsAsciiDigit(s[0])
    ensures ParseNumber(s) ==
      match ParseNatural(s)
      case None => None
      case Some(p) => Some(Parsed(p.item as int, p.rest))
  {
  }

  lemma NegativeRoundTrip(n: int, rest: string)
    requires n < 0
    requires rest == [] || !IsAsciiDigit(rest[0])
    ensures ParseNumber(IntToString(n) + rest) == Some(Parsed(n, rest))
  {
    var m: nat := -n;
    var tail := NatToString(m) + rest;
    assert IntToString(n) + rest == "-" + tail;
    NatRoundTrip(m, rest);
    MinusSign(tail, m, rest);
  }

  lemma MinusSign(tail: string, m: nat, rest: string)
    requires ParseNatural(tail) == Some(Parsed(m, rest))
    ensures ParseNumber("-" + tail) == Some(Parsed(-(m as int), rest))
  {
    assert ("-" + tail)[1..] == tail;
    ParseNumberNegative("-" + tail);
  }

  lemma NonNegativeRoundTrip(n: nat, rest: string)
    requires rest == [] || !IsAsciiDigit(rest[0])
    ensures ParseNumber(IntToString(n) + rest) == Some(Parsed(n as int, rest))
  {
    var s := NatToString(n) + rest;
    NatRoundTrip(n, rest);
    ParseNumberNonNegative(s);
  }

  lemma IntRoundTrip(n: int, rest: string)
    requires rest == [] || !IsAsciiDigit(rest[0])
    ensures ParseNumber(IntToString(n) + rest) == Some(Parsed(n, rest))
  {
    if n < 0 {
      NegativeRoundTrip(n, rest);
    } else {
      NonNegativeRoundTrip(n, rest);
    }
  }

  lemma HexDigitValue(d: nat)
    requires d < 16
    ensures HexValue(HexDigit(d)) == Some(d)
  {
  }

  lemma Hex4OfControl(c: char)
    requires c < ' '
    ensures Hex4(['0', '0', HexDigit(c as int / 16), HexDigit(c as int % 16)]) == Some(c)
  {
    HexDigitValue(0);
    HexDigitValue(c as int / 16);
    HexDigitValue(c as int % 16);
  }

  lemma ParseStringBodyAtBackslash(s: string)
    requires |s| > 0 && s[0] == '\\'
    ensures ParseStringBody(s) ==
      match ParseEscape(s[1..])
      case None => None
      case Some(e) =>
        match ParseStringBody(e.rest)
        case None => None
        case Some(t) => Some(Parsed([e.item] + t.item, t.rest))
  {
  }

  lemma ParseStringBodyAtPlain(s: string)
    requires |s| > 0 && s[0] != '"' && s[0] != '\\' && s[0] >= ' '
    ensures ParseStringBody(s) ==
      match ParseStringBody(s[1..])
      case None => None
      case Some(t) => Some(Parsed([s[0]] + t.item, t.rest))
  {
  }

  /** The text after the backslash of a short escape names its character. */
  lemma ShortEscapeRoundTrip(c: char, t: string)
    requires c == '"' || c == '\\' || c == Backspace || c == FormFeed || c == '\n' || c == '\r' || c == '\t'
    ensures |EscapeChar(c)| == 2 && EscapeChar(c)[0] == '\\'
    ensures ParseEscape(EscapeChar(c)[1..] + t) == Some(Parsed(c, t))
  {
    var s := EscapeChar(c)[1..] + t;
    assert s[1..] == t;
  }

  /** The text after the backslash of a `\u00XX` escape names its character. */
  lemma UnicodeEscapeRoundTrip(c: char, t: string)
    requires c < ' ' && c != Backspace && c != FormFeed && c != '\n' && c != '\r' && c != '\t'
    ensures |EscapeChar(c)| == 6 && EscapeChar(c)[0] == '\\'
    ensures ParseEscape(EscapeChar(c)[1..] + t) == Some(Parsed(c, t))
  {
    var hex := ['0', '0', HexDigit(c as int / 16), HexDigit(c as int % 16)];
    var s := EscapeChar(c)[1..] + t;
    assert EscapeChar(c)[1..] == "u" + hex;
    assert s[1..5] == hex;
    assert s[5..] == t;
    Hex4OfControl(c);
  }

  /** One escaped character is read back as that character, whatever
      follows it. */
  lemma EscapeCharRoundTrip(c: char, t: string)
    ensures ParseStringBody(EscapeChar(c) + t) ==
      match ParseStringBody(t)
      case None => None
      case Some(p) => Some(Parsed([c] + p.item, p.rest))
  {
    var e := EscapeChar(c);
    var s := e + t;
    if c == '"' || c == '\\' || c == Backspace || c == FormFeed || c == '\n' || c == '\r' || c == '\t' {
      ShortEscapeRoundTrip(c, t);
      assert s[1..] == e[1..] + t;
      ParseStringBodyAtBackslash(s);
    } else if c < ' ' {
      UnicodeEscapeRoundTrip(c, t);
      assert s[1..] == e[1..] + t;
      ParseStringBodyAtBackslash(s);
    } else {
      assert e == [c];
      assert s[1..] == t;
      ParseStringBodyAtPlain(s);
    }
  }

  /** Escaped contents followed by the closing quote are read back as the
      original string, and decoding stops right after the quote. */
  lemma {:induction false} EscapeRoundTrip(s: string, rest: string)
    ensures ParseStringBody(Escape(s) + "\"" + rest) == Some(Parsed(s, rest))
    decreases |s|
  {
    if s == [] {
      assert Escape(s) + "\"" + rest == "\"" + rest;
    } else {
      var t := Escape(s[1..]) + "\"" + rest;
      assert Escape(s) + "\"" + rest == EscapeChar(s[0]) + t;
      EscapeRoundTrip(s[1..], rest);
      EscapeCharRoundTrip(s[0], t);
      assert [s[0]] + s[1..] == s;
    }
  }

  lemma QuoteRoundTrip(s: string, rest: string)
    ensures ParseValue(Quote(s) + rest) == Some(Parsed(String(s), rest))
  {
    var text := Quote(s) + rest;
    assert text[1..] == Escape(s) + "\"" + rest;
    EscapeRoundTrip(s, rest);
    ParseValueAtQuote(text);
  }

  // One-step views of the decoder, each unfolding a single definition.

  lemma FirstCharDiffers(s: string, prefix: string)
    requires |s| > 0 && |prefix| > 0 && s[0] != prefix[0]
    ensures !StartsWith(s, prefix)
  {
    if |prefix| <= |s| {
      assert s[..|prefix|][0] == s[0];
    }
  }

  lemma ParseValueAtQuote(s: string)
    requires |s| > 0 && s[0] == '"'
    ensures ParseValue(s) ==
      match ParseStringBody(s[1..])
      case None => None
      case Some(p) => Some(Parsed(String(p.item), p.rest))
  {
    FirstCharDiffers(s, "null");
    FirstCharDiffers(s, "true");
    FirstCharDiffers(s, "false");
  }

  lemma ParseValueAtBracket(s: string)
    requires |s| > 1 && s[0] == '[' && s[1] != ']'
    ensures ParseValue(s) ==
      match ParseItems(s[1..])
      case None => None
      case Some(p) => Some(Parsed(Array(p.item), p.rest))
  {
    FirstCharDiffers(s, "null");
    FirstCharDiffers(s, "true");
    FirstCharDiffers(s, "false");
  }

  lemma ParseValueAtBrace(s: string)
    requires |s| > 1 && s[0] == '{' && s[1] != '}'
    ensures ParseValue(s) ==
      match ParseMembers(s[1..])
      case None => None
      case Some(p) => Some(Parsed(Object(p.item), p.rest))
  {
    FirstCharDiffers(s, "null");
    FirstCharDiffers(s, "true");
    FirstCharDiffers(s, "false");
  }

  lemma ParseValueAtNumber(s: string)
    requires |s| > 0 && (s[0] == '-' || IsAsciiDigit(s[0]))
    ensures ParseValue(s) ==
      match ParseNumber(s)
      case None => None
      case Some(p) => Some(Parsed(Number(p.item), p.rest))
  {
    FirstCharDiffers(s, "null");
    FirstCharDiffers(s, "true");
    FirstCharDiffers(s, "false");
    assert s[0] != '"' && s[0] != '[' && s[0] != '{';
  }

  lemma ParseItemsLast(s: string, v: Value, rest: string)
    requires ParseValue(s) == Some(Parsed(v, "]" + rest))
    ensures ParseItems(s) == Some(Parsed([v], rest))
  {
    assert ("]" + rest)[1..] == rest;
  }

  lemma ParseItemsNext(s: string, v: Value, tail: string, vs: seq<Value>, rest: string)
    requires ParseValue(s) == Some(Parsed(v, "," + tail))
    requires ParseItems(tail) == Some(Parsed(vs, rest))
    ensures ParseItems(s) == Some(Parsed([v] + vs, rest))
  {
    assert ("," + tail)[1..] == tail;
  }

  lemma ParseMembersLast(s: string, m: Member, rest: string)
    requires ParseMember(s) == Some(Parsed(m, "}" + rest))
    ensures ParseMembers(s) == Some(Parsed([m], rest))
  {
    assert ("}" + rest)[1..] == rest;
  }

  lemma ParseMembersNext(s: string, m: Member, tail: string, ms: seq<Member>, rest: string)
    requires ParseMember(s) == Some(Parsed(m, "," + tail))
    requires ParseMembers(tail) == Some(Parsed(ms, rest))
    ensures ParseMembers(s) == Some(Parsed([m] + ms, rest))
  {
    assert ("," + tail)[1..] == tail;
  }

  /** The first character of a value's text tells its kind apart from the
      punctuation that can follow it. */
  lemma FirstChar(v: Value)
    ensures |Serialize(v)| > 0
    ensures Serialize(v)[0] != ']' && Serialize(v)[0] != '}' && Serialize(v)[0] != ','
    ensures v.Number? ==> Serialize(v)[0] == '-' || IsAsciiDigit(Serialize(v)[0])
  {
  }

  lemma Regroup5(a: string, b: string, c: string, d: string, e: string)
    ensures a + b + c + d + e == a + (b + (c + d + e))
  {
  }

  lemma Regroup6(a: string, b: string, c: string, d: string, e: string, f: string)
    ensures a + b + c + d + e + f == a + (b + c + (d + (e + f)))
  {
  }

  lemma ParseMemberStep(s: string, key: string, t: string, v: Value, rest: string)
    requires |s| > 0 && s[0] == '"'
    requires ParseStringBody(s[1..]) == Some(Parsed(key, ":" + t))
    requires ParseValue(t) == Some(Parsed(v, rest))
    ensures ParseMember(s) == Some(Parsed(Member(key, v), rest))
  {
    assert (":" + t)[1..] == t;
  }

  lemma LiteralRoundTrip(v: Value, rest: string)
    requires v.Null? || v.Bool?
    ensures ParseValue(Serialize(v) + rest) == Some(Parsed(v, rest))
  {
    var text := Serialize(v) + rest;
    if v.Null? || v.b {
      assert text[4..] == rest;
    } else {
      assert text[..4] == "fals";
      assert text[..5] == "false";
      assert text[5..] == rest;
    }
  }

  lemma NumberValueRoundTrip(n: int, rest: string)
    requires Delimited(rest)
    ensures ParseValue(Serialize(Number(n)) + rest) == Some(Parsed(Number(n), rest))
  {
    var text := Serialize(Number(n)) + rest;
    FirstChar(Number(n));
    IntRoundTrip(n, rest);
    ParseValueAtNumber(text);
  }

  /** Every value's compact text, followed by whatever may follow a value,
      is decoded back to that value. */
  lemma {:induction false} ValueRoundTrip(v: Value, rest: string)
    requires Delimited(rest)
    ensures ParseValue(Serialize(v) + rest) == Some(Parsed(v, rest))
    decreases v, 3
  {
    match v
    case Null => LiteralRoundTrip(v, rest);
    case Bool(_) => LiteralRoundTrip(v, rest);
    case Number(n) => NumberValueRoundTrip(n, rest);
    case String(s) => QuoteRoundTrip(s, rest);
    case Array(items) => ArrayRoundTrip(items, rest);
    case Object(members) => ObjectRoundTrip(members, rest);
  }

  lemma {:induction false} ArrayRoundTrip(items: seq<Value>, rest: string)
    ensures ParseValue(Serialize(Array(items)) + rest) == Some(Parsed(Array(items), rest))
    decreases items, 2
  {
    var text := Serialize(Array(items)) + rest;
    if items == [] {
      assert text[0] != 'n' && text[0] != 't' && text[0] != 'f';
      assert text[2..] == rest;
    } else {
      FirstChar(items[0]);
      assert text == "[" + (SerializeItems(items) + "]" + rest);
      ItemsRoundTrip(items, rest);
      ParseValueAtBracket(text);
    }
  }

  lemma {:induction false} ObjectRoundTrip(members: seq<Member>, rest: string)
    ensures ParseValue(Serialize(Object(members)) + rest) == Some(Parsed(Object(members), rest))
    decreases members, 2
  {
    var text := Serialize(Object(members)) + rest;
    if members == [] {
      assert text[0] != 'n' && text[0] != 't' && text[0] != 'f';
      assert text[2..] == rest;
    } else {
      assert text == "{" + (SerializeMembers(members) + "}" + rest);
      assert text[1] == '"';
      MembersRoundTrip(members, rest);
      ParseValueAtBrace(text);
    }
  }

  lemma {:induction false} ItemsRoundTrip(items: seq<Value>, rest: string)
    requires |items| > 0
    ensures ParseItems(SerializeItems(items) + "]" + rest) == Some(Parsed(items, rest))
    decreases items, 1
  {
    if |items| == 1 {
      LastItemRoundTrip(items, rest);
    } else {
      NextItemRoundTrip(items, rest);
    }
  }

  lemma {:induction false} LastItemRoundTrip(items: seq<Value>, rest: string)
    requires |items| == 1
    ensures ParseItems(SerializeItems(items) + "]" + rest) == Some(Parsed(items, rest))
    decreases items, 0
  {
    var head := Serialize(items[0]);
    ValueRoundTrip(items[0], "]" + rest);
    assert SerializeItems(items) == head;
    assert SerializeItems(items) + "]" + rest == head + ("]" + rest);
    ParseItemsLast(head + ("]" + rest), items[0], rest);
    assert items == [items[0]];
  }

  lemma {:induction false} NextItemRoundTrip(items: seq<Value>, rest: string)
    requires |items| > 1
    ensures ParseItems(SerializeItems(items) + "]" + rest) == Some(Parsed(items, rest))
    decreases items, 0
  {
    var head, others := Serialize(items[0]), SerializeItems(items[1..]);
    var tail := others + "]" + rest;
    assert SerializeItems(items) == head + "," + others;
    Regroup5(head, ",", others, "]", rest);
    ValueRoundTrip(items[0], "," + tail);
    ItemsRoundTrip(items[1..], rest);
    ParseItemsNext(head + ("," + tail), items[0], tail, items[1..], rest);
    assert [items[0]] + items[1..] == items;
  }

  lemma {:induction false} MemberRoundTrip(m: Member, rest: string)
    requires Delimited(rest)
    ensures ParseMember(SerializeMember(m) + rest) == Some(Parsed(m, rest))
    decreases m, 0
  {
    var text := SerializeMember(m) + rest;
    var escaped, t := Escape(m.key), Serialize(m.value) + rest;
    assert SerializeMember(m) == "\"" + escaped + "\"" + ":" + Serialize(m.value);
    Regroup6("\"", escaped, "\"", ":", Serialize(m.value), rest);
    assert text == "\"" + (escaped + "\"" + (":" + t));
    assert text[1..] == escaped + "\"" + (":" + t);
    EscapeRoundTrip(m.key, ":" + t);
    ValueRoundTrip(m.value, rest);
    ParseMemberStep(text, m.key, t, m.value, rest);
  }

  lemma {:induction false} MembersRoundTrip(members: seq<Member>, rest: string)
    requires |members| > 0
    ensures ParseMembers(SerializeMembers(members) + "}" + rest) == Some(Parsed(members, rest))
    decreases members, 1
  {
    if |members| == 1 {
      LastMemberRoundTrip(members, rest);
    } else {
      NextMemberRoundTrip(members, rest);
    }
  }

  lemma {:induction false} LastMemberRoundTrip(members: seq<Member>, rest: string)
    requires |members| == 1
    ensures ParseMembers(SerializeMembers(members) + "}" + rest) == Some(Parsed(members, rest))
    decreases members, 0
  {
    var head := SerializeMember(members[0]);
    MemberRoundTrip(members[0], "}" + rest);
    assert SerializeMembers(members) == head;
    assert SerializeMembers(members) + "}" + rest == head + ("}" + rest);
    ParseMembersLast(head + ("}" + rest), members[0], rest);
    assert members == [members[0]];
  }

  lemma {:induction false} NextMemberRoundTrip(members: seq<Member>, rest: string)
    requires |members| > 1
    ensures ParseMembers(SerializeMembers(members) + "}" + rest) == Some(Parsed(members, rest))
    decreases members, 0
  {
    var head, others := SerializeMember(members[0]), SerializeMembers(members[1..]);
    var tail := others + "}" + rest;
    assert SerializeMembers(members) == head + "," + others;
    Regroup5(head, ",", others, "}", rest);
    MemberRoundTrip(members[0], "," + tail);
    MembersRoundTrip(members[1..], rest);
    ParseMembersNext(head + ("," + tail), members[0], tail, members[1..], rest);
    assert [members[0]] + members[1..] == members;
  }

  /** The compact text of any value decodes to exactly that value. */
  lemma DecodeSerialize(v: Value)
    ensures Decode(Serialize(v)) == Some(v)
  {
    ValueRoundTrip(v, []);
    assert Serialize(v) + [] == Serialize(v);
  }
}
