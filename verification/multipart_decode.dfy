/** A reader of multipart bodies, following section 5.1.1 of RFC 2046: the
    body is cut at every delimiter (a line break, two dashes and the
    boundary), the text before the first one is the preamble, the last one
    is the close-delimiter, and each part is a block of header lines, an
    empty line and the part's body. Reading back what `Multipart` writes
    gives the parts it was written from, as long as no part contains the
    delimiter, which is what the protocol demands of a boundary. */
module MultipartDecode {
  import opened Common
  import opened Multipart

  const CrLf: string := "\r\n"

  function Delimiter(boundary: string): string {
    "\r\n--" + boundary
  }

  /** The parts of a multipart body. A leading line break is supplied so
      that the first dash-boundary reads as a delimiter too. */
  function Decode(boundary: string, text: string): Option<seq<Section>> {
    var pieces := SplitOn("\r\n" + text, Delimiter(boundary));
    if |pieces| < 2 || pieces[|pieces| - 1] != "--\r\n" then None
    else DecodeParts(pieces[1..|pieces| - 1])
  }

  function DecodeParts(bodies: seq<string>): Option<seq<Section>> {
    if bodies == [] then Some([])
    else
      match DecodePart(bodies[0])
      case None => None
      case Some(section) =>
        match DecodeParts(bodies[1..])
        case None => None
        case Some(rest) => Some([section] + rest)
  }

  /** One encapsulated part: it starts with a line break, then come the
      header lines up to an empty line, then the body. */
  function DecodePart(body: string): Option<Section> {
    var lines := SplitOn(body, CrLf);
    if lines[0] != [] then None
    else
      match HeaderBlock(lines[1..])
      case None => None
      case Some(block) =>
        match ParseFields(block.0)
        case None => None
        case Some(fields) => Some(Section(fields, JoinOn(block.1, CrLf)))
  }

  /** The lines before the first empty line, and the lines after it. */
  function HeaderBlock(lines: seq<string>): Option<(seq<string>, seq<string>)> {
    if lines == [] then None
    else if lines[0] == [] then Some(([], lines[1..]))
    else
      match HeaderBlock(lines[1..])
      case None => None
      case Some(block) => Some(([lines[0]] + block.0, block.1))
  }

  /** A header line: the name up to the first `": "`, the value after it. */
  function ParseField(line: string): Option<Field> {
    match IndexOf(line, ": ")
    case None => None
    case Some(k) => Some(Field(line[..k], line[k + 2..]))
  }

  function ParseFields(lines: seq<string>): Option<seq<Field>> {
    if lines == [] then Some([])
    else
      match ParseField(lines[0])
      case None => None
      case Some(f) =>
        match ParseFields(lines[1..])
        case None => None
        case Some(rest) => Some([f] + rest)
  }

  // ---------------------------------------------------------------------
  // Reading back one part

  function Lines(fields: seq<Field>): (lines: seq<string>)
    ensures |lines| == |fields|
  {
    if fields == [] then [] else [Line(fields[0])] + Lines(fields[1..])
  }

  lemma {:induction false} LineAt(fields: seq<Field>, i: nat)
    requires i < |fields|
    ensures Lines(fields)[i] == Line(fields[i])
    decreases i
  {
    if i > 0 {
      LineAt(fields[1..], i - 1);
    }
  }

  lemma NotInConcat(c: char, a: string, b: string)
    requires c !in a && c !in b
    ensures c !in a + b
  {
  }

  /** No character of a valid header line is a carriage return. */
  lemma NoCarriageReturn(f: Field)
    requires ValidField(f)
    ensures '\r' !in f.name && '\r' !in f.value
  {
  }

  /** A header line holds no carriage return. */
  lemma LineClean(f: Field)
    requires ValidField(f)
    ensures !Contains(Line(f), CrLf) && Line(f) != []
  {
    NoCarriageReturn(f);
    NotInConcat('\r', f.name, ": ");
    NotInConcat('\r', f.name + ": ", f.value);
    LacksFirstChar(Line(f), CrLf);
  }

  /** The name of a header line ends at the first `": "`. */
  lemma LineParse(f: Field)
    requires ValidField(f)
    ensures ParseField(Line(f)) == Some(f)
  {
    var line := Line(f);
    assert forall i :: 0 <= i < |f.name| ==> f.name[i] != ':';
    LacksFirstChar(f.name, ": ");
    IndexOfJoined(f.name, ": ", f.value);
    assert line[..|f.name|] == f.name;
    assert line[|f.name| + 2..] == f.value;
  }

  predicate FieldsValid(fields: seq<Field>) {
    forall i :: 0 <= i < |fields| ==> ValidField(fields[i])
  }

  lemma LinesClean(fields: seq<Field>)
    requires FieldsValid(fields)
    ensures forall i :: 0 <= i < |fields| ==> !Contains(Lines(fields)[i], CrLf) && Lines(fields)[i] != []
  {
    forall i | 0 <= i < |fields|
      ensures !Contains(Lines(fields)[i], CrLf) && Lines(fields)[i] != []
    {
      LineAt(fields, i);
      LineClean(fields[i]);
    }
  }

  lemma ParseFieldsCons(lines: seq<string>, f: Field, rest: seq<Field>)
    requires |lines| > 0 && ParseField(lines[0]) == Some(f) && ParseFields(lines[1..]) == Some(rest)
    ensures ParseFields(lines) == Some([f] + rest)
  {
  }

  lemma FieldsValidTail(fields: seq<Field>)
    requires |fields| > 0 && FieldsValid(fields)
    ensures ValidField(fields[0]) && FieldsValid(fields[1..])
  {
    forall i | 0 <= i < |fields[1..]|
      ensures ValidField(fields[1..][i])
    {
      assert fields[1..][i] == fields[i + 1];
    }
  }

  lemma {:induction false} LinesParse(fields: seq<Field>)
    requires FieldsValid(fields)
    ensures ParseFields(Lines(fields)) == Some(fields)
    decreases |fields|
  {
    if fields != [] {
      FieldsValidTail(fields);
      LineParse(fields[0]);
      LinesParse(fields[1..]);
      ParseFieldsCons(Lines(fields), fields[0], fields[1..]);
      assert [fields[0]] + fields[1..] == fields;
    }
  }

  /** Header lines followed by a line break and more lines are one joined
      list of lines. */
  lemma {:induction false} FieldLinesJoin(fields: seq<Field>, tail: seq<string>)
    requires |tail| > 0
    ensures FieldLines(fields) + CrLf + JoinOn(tail, CrLf) == CrLf + JoinOn(Lines(fields) + tail, CrLf)
    decreases |fields|
  {
    if fields == [] {
      assert Lines(fields) + tail == tail;
    } else {
      var rest := Lines(fields[1..]) + tail;
      var a, b, c := Line(fields[0]), FieldLines(fields[1..]), JoinOn(tail, CrLf);
      FieldLinesJoin(fields[1..], tail);
      assert Lines(fields) + tail == [a] + rest;
      JoinOnCons(a, rest, CrLf);
      assert FieldLines(fields) == CrLf + a + b;
      ConsLine(a, b, c, JoinOn(rest, CrLf));
    }
  }

  lemma ConsLine(a: string, b: string, c: string, j: string)
    requires b + CrLf + c == CrLf + j
    ensures CrLf + a + b + CrLf + c == CrLf + (a + CrLf + j)
  {
    assert CrLf + a + b + CrLf + c == CrLf + a + (b + CrLf + c);
  }

  lemma {:induction false} HeaderBlockOf(lines: seq<string>, tail: seq<string>)
    requires forall i :: 0 <= i < |lines| ==> lines[i] != []
    ensures HeaderBlock(lines + [[]] + tail) == Some((lines, tail))
    decreases |lines|
  {
    if lines == [] {
      assert lines + [[]] + tail == [[]] + tail;
    } else {
      HeaderBlockOf(lines[1..], tail);
      assert (lines + [[]] + tail)[1..] == lines[1..] + [[]] + tail;
      assert [lines[0]] + lines[1..] == lines;
    }
  }

  /** A part's text is its lines joined by line breaks: an empty first
      line, the header lines, the empty line and the body's lines. */
  lemma BodyJoined(s: Section)
    ensures SectionBody(s) == JoinOn([[]] + Lines(s.fields) + [[]] + SplitOn(s.content, CrLf), CrLf)
  {
    var header, pieces := Lines(s.fields), SplitOn(s.content, CrLf);
    var all := header + [[]] + pieces;
    JoinSplitOn(s.content, CrLf);
    JoinOnCons([], pieces, CrLf);
    FieldLinesJoin(s.fields, [[]] + pieces);
    AppendAssoc(header, [[]], pieces);
    JoinOnCons([], all, CrLf);
    BreakTwice(FieldLines(s.fields), s.content, JoinOn([[]] + pieces, CrLf), JoinOn([[]] + all, CrLf));
    assert SectionBody(s) == FieldLines(s.fields) + "\r\n\r\n" + s.content;
    AppendAssoc([[]], header + [[]], pieces);
    AppendAssoc([[]], header, [[]]);
  }

  lemma BreakTwice(lines: string, content: string, rest: string, whole: string)
    requires rest == CrLf + content && lines + CrLf + rest == whole
    ensures lines + "\r\n\r\n" + content == whole
  {
  }

  /** None of those lines holds a line break. */
  lemma LinesApart(header: seq<string>, pieces: seq<string>)
    requires forall i :: 0 <= i < |header| ==> !Contains(header[i], CrLf)
    requires forall i :: 0 <= i < |pieces| ==> !Contains(pieces[i], CrLf)
    ensures var all := [[]] + header + [[]] + pieces;
      forall i :: 0 <= i < |all| ==> !Contains(all[i], CrLf)
  {
    var all := [[]] + header + [[]] + pieces;
    LacksFirstChar([], CrLf);
    forall i | 0 <= i < |all|
      ensures !Contains(all[i], CrLf)
    {
      if 1 <= i <= |header| {
        assert all[i] == header[i - 1];
      } else if i > |header| + 1 {
        assert all[i] == pieces[i - |header| - 2];
      } else {
        assert all[i] == [];
      }
    }
  }

  /** A part's text, cut at its line breaks. */
  lemma BodyLines(s: Section)
    requires FieldsValid(s.fields)
    ensures SplitOn(SectionBody(s), CrLf) == [[]] + Lines(s.fields) + [[]] + SplitOn(s.content, CrLf)
  {
    var header, pieces := Lines(s.fields), SplitOn(s.content, CrLf);
    BodyJoined(s);
    LinesClean(s.fields);
    LinesApart(header, pieces);
    assert NoSelfOverlap(CrLf);
    SplitOnJoin([[]] + header + [[]] + pieces, CrLf);
  }

  /** Lines that open with an empty line, then header lines, an empty
      line and more lines, split into the header block and the rest. */
  lemma HeaderBlockAfterFirst(lines: seq<string>, header: seq<string>, pieces: seq<string>)
    requires lines == [[]] + header + [[]] + pieces
    requires forall i :: 0 <= i < |header| ==> header[i] != []
    ensures lines[0] == [] && HeaderBlock(lines[1..]) == Some((header, pieces))
  {
    assert lines[1..] == header + [[]] + pieces;
    HeaderBlockOf(header, pieces);
  }

  /** A part whose lines are header lines, an empty line and the body's
      lines reads back as those headers and that body. */
  lemma DecodePartOfLines(body: string, fields: seq<Field>, pieces: seq<string>)
    requires SplitOn(body, CrLf) == [[]] + Lines(fields) + [[]] + pieces
    requires forall i :: 0 <= i < |fields| ==> Lines(fields)[i] != []
    requires ParseFields(Lines(fields)) == Some(fields)
    ensures DecodePart(body) == Some(Section(fields, JoinOn(pieces, CrLf)))
  {
    HeaderBlockAfterFirst(SplitOn(body, CrLf), Lines(fields), pieces);
  }

  /** Reading back a part gives its header fields and body. */
  lemma DecodeSectionBody(s: Section)
    requires FieldsValid(s.fields)
    ensures DecodePart(SectionBody(s)) == Some(s)
  {
    BodyLines(s);
    LinesClean(s.fields);
    LinesParse(s.fields);
    DecodePartOfLines(SectionBody(s), s.fields, SplitOn(s.content, CrLf));
    JoinSplitOn(s.content, CrLf);
  }

  // ---------------------------------------------------------------------
  // Reading back a whole body

  function Bodies(sections: seq<Section>): (r: seq<string>)
    ensures |r| == |sections|
  {
    seq(|sections|, i requires 0 <= i < |sections| => SectionBody(sections[i]))
  }

  /** What a section must satisfy to be read back: valid header fields,
      and no delimiter inside its text. */
  predicate Readable(boundary: string, s: Section) {
    && FieldsValid(s.fields)
    && !Contains(SectionBody(s), Delimiter(boundary))
  }

  lemma DelimiterShape(boundary: string)
    requires IsBoundary(boundary)
    ensures NoSelfOverlap(Delimiter(boundary))
    ensures |Delimiter(boundary)| == 24
  {
    var d := Delimiter(boundary);
    forall i | 1 <= i < |d|
      ensures d[i] != '\r'
    {
      if i >= 4 {
        assert d[i] == boundary[i - 4];
      }
    }
    assert forall i :: 0 <= i < |d[1..]| ==> d[1..][i] == d[i + 1];
  }

  lemma ShortText(s: string, d: string)
    requires |s| < |d|
    ensures !Contains(s, d)
  {
  }

  lemma Regroup(a: string, b: string, c: string, z: string)
    ensures a + b + c + z == a + (b + (c + z))
  {
  }

  lemma BodiesCons(sections: seq<Section>)
    requires |sections| > 0
    ensures Bodies(sections) + ["--\r\n"] == [SectionBody(sections[0])] + (Bodies(sections[1..]) + ["--\r\n"])
  {
    assert Bodies(sections)[1..] == Bodies(sections[1..]);
  }

  /** The sections after the first, each with its delimiter, and the
      close-delimiter. */
  lemma {:induction false} EncodeTail(boundary: string, sections: seq<Section>)
    ensures EncodeSections(boundary, sections, false) + Close(boundary) ==
      Delimiter(boundary) + JoinOn(Bodies(sections) + ["--\r\n"], Delimiter(boundary))
    decreases |sections|
  {
    var d := Delimiter(boundary);
    if sections == [] {
      assert Bodies(sections) + ["--\r\n"] == ["--\r\n"];
    } else {
      EncodeTail(boundary, sections[1..]);
      BodiesCons(sections);
      var rest := Bodies(sections[1..]) + ["--\r\n"];
      var b, t, z := SectionBody(sections[0]), EncodeSections(boundary, sections[1..], false), Close(boundary);
      JoinOnCons(b, rest, d);
      assert Opening(boundary, false) == d;
      Regroup(d, b, t, z);
    }
  }

  /** A whole body, with the line break supplied in front, is the parts
      joined by delimiters after a preamble and before the closing
      dashes. */
  lemma EncodeJoined(boundary: string, sections: seq<Section>)
    ensures "\r\n" + Encode(boundary, sections) ==
      JoinOn([if sections == [] then "\r\n" else []] + Bodies(sections) + ["--\r\n"], Delimiter(boundary))
  {
    if sections == [] {
      assert [if sections == [] then "\r\n" else []] + Bodies(sections) + ["--\r\n"] == ["\r\n", "--\r\n"];
    } else {
      EncodeJoinedParts(boundary, sections);
      assert [[]] + Bodies(sections) + ["--\r\n"] == [[]] + (Bodies(sections) + ["--\r\n"]);
    }
  }

  lemma EncodeJoinedParts(boundary: string, sections: seq<Section>)
    requires |sections| > 0
    ensures "\r\n" + Encode(boundary, sections) ==
      JoinOn([[]] + (Bodies(sections) + ["--\r\n"]), Delimiter(boundary))
  {
    var d := Delimiter(boundary);
    var rest := Bodies(sections) + ["--\r\n"];
    EncodeTail(boundary, sections);
    JoinOnCons([], rest, d);
    OpeningAfterFirst(boundary, sections);
    AppendAssoc("\r\n", EncodeSections(boundary, sections, true), Close(boundary));
  }

  lemma DecodePartsCons(bodies: seq<string>, s: Section, rest: seq<Section>)
    requires |bodies| > 0 && DecodePart(bodies[0]) == Some(s) && DecodeParts(bodies[1..]) == Some(rest)
    ensures DecodeParts(bodies) == Some([s] + rest)
  {
  }

  lemma {:induction false} DecodeBodies(sections: seq<Section>)
    requires forall i :: 0 <= i < |sections| ==> FieldsValid(sections[i].fields)
    ensures DecodeParts(Bodies(sections)) == Some(sections)
    decreases |sections|
  {
    if sections != [] {
      var bodies := Bodies(sections);
      assert bodies[0] == SectionBody(sections[0]);
      assert bodies[1..] == Bodies(sections[1..]);
      DecodeSectionBody(sections[0]);
      DecodeBodies(sections[1..]);
      DecodePartsCons(bodies, sections[0], sections[1..]);
      assert [sections[0]] + sections[1..] == sections;
    }
  }

  /** Reading back a body gives the sections it was written from, when
      none of them contains the delimiter. */
  lemma DecodeEncode(boundary: string, sections: seq<Section>)
    requires IsBoundary(boundary)
    requires forall i :: 0 <= i < |sections| ==> Readable(boundary, sections[i])
    ensures Decode(boundary, Encode(boundary, sections)) == Some(sections)
  {
    var d := Delimiter(boundary);
    DelimiterShape(boundary);
    var pre := if sections == [] then "\r\n" else [];
    var list := [pre] + Bodies(sections) + ["--\r\n"];
    EncodeJoined(boundary, sections);
    assert [pre] + (Bodies(sections) + ["--\r\n"]) == list;
    forall i | 0 <= i < |list|
      ensures !Contains(list[i], d)
    {
      if i == 0 || i == |list| - 1 {
        ShortText(list[i], d);
      } else {
        assert list[i] == SectionBody(sections[i - 1]);
      }
    }
    SplitOnJoin(list, d);
    assert list[1..|list| - 1] == Bodies(sections);
    DecodeBodies(sections);
  }

  // ---------------------------------------------------------------------
  // The serialiser's output read back

  /** Every header a rendered piece is sent with is valid. */
  lemma PieceFieldsValid(boundary: string, isForm: bool, base: string, parts: seq<Part>, i: nat)
    requires i < |parts| && RenderPieces(boundary, isForm, base, parts)[i].Ok?
    ensures var fields := RenderPieces(boundary, isForm, base, parts)[i].value.fields;
      forall j :: 0 <= j < |fields| ==> ValidField(fields[j])
  {
    var part := parts[i];
    AutoDisposition(isForm, part, part.body.text);
  }

  /** The server can read the parts back from what it receives: each
      part's header fields, and its inline body or its file's contents. */
  lemma ReceivedPartsReadBack(body: MultipartBody, boundary: string, contentType: Option<string>,
                              copy: bool, files: map<string, nat>, contents: map<string, string>)
    requires IsBoundary(boundary)
    requires AsHyperBody(body, boundary, contentType, copy, files).body.Ok?
    requires var pieces := RenderPieces(boundary, RewriteContentType(contentType, boundary).isForm.value, body.path, body.parts);
      AllRendered(pieces) &&
      forall i :: 0 <= i < |pieces| ==> !Contains(SectionBody(Received(pieces[i].value, contents)), Delimiter(boundary))
    ensures var pieces := RenderPieces(boundary, RewriteContentType(contentType, boundary).isForm.value, body.path, body.parts);
      Decode(boundary, Wire(AsHyperBody(body, boundary, contentType, copy, files).body.value.chunks, contents)) ==
        Some(ReceivedSections(pieces, contents))
  {
    var isForm := RewriteContentType(contentType, boundary).isForm.value;
    var pieces := RenderPieces(boundary, isForm, body.path, body.parts);
    StreamedIsEncoding(body, boundary, contentType, copy, files, contents);
    var sections := ReceivedSections(pieces, contents);
    forall i | 0 <= i < |sections|
      ensures Readable(boundary, sections[i])
    {
      PieceFieldsValid(boundary, isForm, body.path, body.parts, i);
    }
    DecodeEncode(boundary, sections);
  }
}
