/** The helpers of `src/util.rs`: turning a JSON value into the text that
    templates and loggers use, reading text as JSON with a fallback, and
    resolving a file name against the configuration file's location. */
module Util {
  import opened Common
  import opened Json
  import JsonDecode
  import JsonRoundTrip
  import Paths

  /** `json_value_to_string`: a JSON string gives its contents as they are,
      with no quotes and no escaping; any other value gives its compact JSON
      text, which decodes back to the value (so the strings nested in it
      are quoted and escaped) and holds no whitespace outside them. */
  function ValueToString(v: Value): (r: string)
    ensures v.String? ==> r == v.s
    ensures !v.String? ==> JsonDecode.Decode(r) == Some(v)
    ensures !v.String? ==> forall c :: c in r && IsJsonWhitespace(c) ==> c == ' ' && HasSpacedString(v)
  {
    JsonRoundTrip.DecodeSerialize(v);
    WhitespaceOnlyInStrings(v);
    match v
    case String(s) => s
    case _ => Serialize(v)
  }

  /** The examples of the module's own test: an object and an array in
      compact form, with the nested string quoted ... */
  lemma ObjectExample()
    ensures ValueToString(Object([Member("foo", Number(123))])) == "{\"foo\":123}"
  {
    Json.ObjectText();
  }

  lemma ArrayExample()
    ensures ValueToString(Array([String("foo"), Number(1), Number(2), Number(3), Null])) == "[\"foo\",1,2,3,null]"
  {
    Json.ArrayText();
  }

  /** ... and a string with a quote in it given back as it is. */
  lemma StringExample()
    ensures ValueToString(String("asdf \" foo")) == "asdf \" foo"
  {
  }

  /** `json_value_into_string`, the owning variant: the same text as
      `json_value_to_string` for every value. */
  function ValueIntoString(v: Value): (r: string)
    ensures r == ValueToString(v)
  {
    match v
    case String(s) => s
    case _ => Serialize(v)
  }

  /** `str_to_json`: the value `parse` reads from `s`, or, when `s` is not
      JSON, the string `s` itself. serde_json's parser is the parameter. */
  function StrToJson(parse: string -> Option<Value>, s: string): (r: Value)
    ensures parse(s).None? ==> r == String(s)
    ensures parse(s).Some? ==> r == parse(s).value
  {
    match parse(s)
    case Some(v) => v
    case None => String(s)
  }

  /** Text that is not JSON comes back unchanged through `str_to_json` and
      `json_value_to_string`. */
  lemma FallbackRoundTrip(parse: string -> Option<Value>, s: string)
    requires parse(s).None?
    ensures ValueToString(StrToJson(parse, s)) == s
  {
  }

  /** With a parser that reads compact JSON, every value's compact text is
      read back as that value. */
  lemma StrToJsonOfSerialized(v: Value)
    ensures StrToJson(JsonDecode.Decode, Serialize(v)) == v
  {
    JsonRoundTrip.DecodeSerialize(v);
  }

  /** A string whose contents happen to be JSON does not survive the trip
      through its raw text: the string "1" comes back as the number 1. */
  lemma RawStringIsReparsed()
    ensures StrToJson(JsonDecode.Decode, ValueToString(String("1"))) == Number(1)
  {
    JsonRoundTrip.DecodeSerialize(Number(1));
    assert Serialize(Number(1)) == "1";
  }

  /** `tweak_path`: `rest` resolved as a sibling of the file `base` names,
      i.e. `base.with_file_name(rest)`, as canonical text. */
  function TweakPath(rest: string, base: string): (r: string)
    ensures Paths.Parse(r) == Paths.WithFileName(Paths.Parse(base), Paths.Parse(rest))
  {
    var resolved := Paths.WithFileName(Paths.Parse(base), Paths.Parse(rest));
    Paths.ParseRender(resolved);
    Paths.Render(resolved)
  }

  /** A relative name replaces only the last component of a base that names
      a file; everything before it is kept. An absolute name replaces the
      whole base. */
  lemma TweakPathReplacesFileName(rest: string, base: string)
    ensures var b, n, r := Paths.Parse(base), Paths.Parse(rest), Paths.Parse(TweakPath(rest, base));
      && (n.absolute ==> r == n)
      && (!n.absolute && Paths.FileName(b).Some? ==>
            r.absolute == b.absolute && r.parts == b.parts[..|b.parts| - 1] + n.parts)
      && (!n.absolute && Paths.FileName(b).None? ==>
            r.absolute == b.absolute && r.parts == b.parts + n.parts)
  {
  }

  /** A relative file name given as a single component ends up as the file
      name of the result, next to where the base file was. */
  lemma TweakPathSibling(name: string, base: string)
    requires Paths.ValidPart(name) && name != ".."
    requires Paths.FileName(Paths.Parse(base)).Some?
    ensures Paths.FileName(Paths.Parse(TweakPath(name, base))) == Some(name)
    ensures Paths.Pop(Paths.Parse(TweakPath(name, base))) == Paths.Pop(Paths.Parse(base))
  {
    Paths.ParseRender(Paths.Path(false, [name]));
  }
}
