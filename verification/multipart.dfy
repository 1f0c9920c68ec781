/** `MultipartBody::as_hyper_body` (src/request.rs): the multipart body of a
    request, framed as section 5.1.1 of RFC 2046 prescribes, with the
    per-part Content-Disposition of section 4.2 of RFC 7578 added in form
    mode. The result is the rewritten Content-Type header, the text copied
    for logging ("body value"), and the chunks streamed to the server with
    their total length in bytes.

    The random boundary, the template evaluator and the file system are
    inputs: a boundary string, the text (or failure) each template
    evaluated to, and the size of each file that can be opened. */
module Multipart {
  import opened Common
  import Util

  /** What a template evaluated to. */
  datatype Rendered = Rendered(text: string) | RenderFailed

  /** A header of a part as configured: a name and a value template. */
  datatype PartHeader = PartHeader(key: string, value: Rendered)

  /** One piece of a multipart body: its form field name, whether its body
      names a file to stream, the body template and the extra headers. */
  datatype Part = Part(name: string, isFile: bool, body: Rendered, headers: seq<PartHeader>)

  /** The pieces and the path of the configuration file, against which
      the paths of file pieces are resolved. */
  datatype MultipartBody = MultipartBody(path: string, parts: seq<Part>)

  datatype BodyError =
    | TemplateFailed
    | ContentTypeNotText(value: string)
    | InvalidHeaderName(name: string)
    | InvalidHeaderValue(value: string)
    | FileUnavailable(path: string)

  /** A header that passed validation: lower-cased name and its value. */
  datatype Field = Field(name: string, value: string)

  /** A chunk of the streamed body: text, or the whole contents of a file. */
  datatype Chunk = Text(text: string) | FileContents(path: string)

  /** The streamed body and the length reported for it. */
  datatype HyperBody = HyperBody(length: nat, chunks: seq<Chunk>)

  /** The Content-Type header after the call, the copied text (present
      only when copying was asked for and the call got far enough to
      produce it), and the body or the error that replaces it. */
  datatype Outcome = Outcome(contentType: Option<string>, bodyValue: Option<string>, body: Result<HyperBody, BodyError>)

  // ---------------------------------------------------------------------
  // Header syntax, as the `http` crate checks it

  const Del: char := 127 as char

  /** A character `HeaderValue::from_str` accepts: horizontal tab, or any
      character from space upwards except DEL (non-ASCII text is kept as
      opaque bytes). */
  predicate IsValueChar(c: char) {
    c == '\t' || (' ' <= c && c != Del)
  }

  predicate IsHeaderValue(s: string) {
    forall i :: 0 <= i < |s| ==> IsValueChar(s[i])
  }

  /** `HeaderValue::to_str` succeeds: tab or visible ASCII only. */
  predicate IsVisibleText(s: string) {
    forall i :: 0 <= i < |s| ==> s[i] == '\t' || ' ' <= s[i] < Del
  }

  /** A token character of section 3.2.6 of RFC 7230. */
  predicate IsTokenChar(c: char) {
    IsAsciiAlphanumeric(c) || c in "!#$%&'*+-.^_`|~"
  }

  function ToLowerAscii(c: char): char {
    if 'A' <= c <= 'Z' then (c as int + 32) as char else c
  }

  function Lower(s: string): (r: string)
    ensures |r| == |s|
    ensures forall i :: 0 <= i < |s| ==> r[i] == ToLowerAscii(s[i])
  {
    if s == [] then [] else [ToLowerAscii(s[0])] + Lower(s[1..])
  }

  /** A header name as `HeaderName` stores it: a non-empty token with no
      upper-case letters. */
  predicate IsFieldName(name: string) {
    |name| > 0 && forall i :: 0 <= i < |name| ==> IsTokenChar(name[i]) && !('A' <= name[i] <= 'Z')
  }

  predicate ValidField(f: Field) {
    IsFieldName(f.name) && IsHeaderValue(f.value)
  }

  /** `HeaderName::from_bytes`: a non-empty token, lower-cased. */
  function HeaderName(key: string): (r: Result<string, BodyError>)
    ensures r.Ok? <==> |key| > 0 && forall i :: 0 <= i < |key| ==> IsTokenChar(key[i])
    ensures r.Ok? ==> r.value == Lower(key) && IsFieldName(r.value) && |r.value| == |key|
  {
    if |key| > 0 && forall i :: 0 <= i < |key| ==> IsTokenChar(key[i]) then Ok(Lower(key))
    else Err(InvalidHeaderName(key))
  }

  // ---------------------------------------------------------------------
  // Content-Type

  const FormData: string := "multipart/form-data"

  /** What the random boundary generator produces: twenty ASCII letters
      and digits. */
  predicate IsBoundary(boundary: string) {
    |boundary| == 20 && forall i :: 0 <= i < |boundary| ==> IsAsciiAlphanumeric(boundary[i])
  }

  /** The Content-Type header after the call, and whether the body is a
      form or why it cannot be sent. */
  datatype ContentType = ContentType(header: string, isForm: Result<bool, BodyError>)

  /** An absent header is first set to `multipart/form-data`. A value that
      is not visible text is an error; a `multipart/` value gets the
      boundary appended and is a form only if it is `multipart/form-data`;
      any other value is replaced by a form-data type. */
  function RewriteContentType(current: Option<string>, boundary: string): ContentType {
    var ct := if current.Some? then current.value else FormData;
    if !IsVisibleText(ct) then
      ContentType(ct, Err(ContentTypeNotText(ct)))
    else if StartsWith(ct, "multipart/") then
      var v := ct + ";boundary=" + boundary;
      if IsHeaderValue(v) then ContentType(v, Ok(StartsWith(ct, FormData)))
      else ContentType(ct, Err(InvalidHeaderValue(v)))
    else
      var v := FormData + ";boundary=" + boundary;
      if IsHeaderValue(v) then ContentType(v, Ok(true))
      else ContentType(ct, Err(InvalidHeaderValue(v)))
  }

  lemma VisibleWithBoundary(ct: string, boundary: string)
    requires IsVisibleText(ct) && IsBoundary(boundary)
    ensures IsHeaderValue(ct + ";boundary=" + boundary)
  {
    var v := ct + ";boundary=" + boundary;
    forall i | 0 <= i < |v|
      ensures IsValueChar(v[i])
    {
      if i < |ct| {
        assert v[i] == ct[i];
      } else if i >= |ct| + 10 {
        assert v[i] == boundary[i - |ct| - 10];
      }
    }
  }

  /** The three cases of the rewrite, and its only failure: a present
      value that is not visible text. Appending the boundary never makes
      a header value invalid. */
  lemma ContentTypeCases(current: Option<string>, boundary: string)
    requires IsBoundary(boundary)
    ensures var r := RewriteContentType(current, boundary);
      && (current.None? ==> r == ContentType(FormData + ";boundary=" + boundary, Ok(true)))
      && (current.Some? && !IsVisibleText(current.value) ==>
            r == ContentType(current.value, Err(ContentTypeNotText(current.value))))
      && (current.Some? && IsVisibleText(current.value) && StartsWith(current.value, "multipart/") ==>
            r == ContentType(current.value + ";boundary=" + boundary, Ok(StartsWith(current.value, FormData))))
      && (current.Some? && IsVisibleText(current.value) && !StartsWith(current.value, "multipart/") ==>
            r == ContentType(FormData + ";boundary=" + boundary, Ok(true)))
  {
    VisibleWithBoundary(FormData, boundary);
    if current.Some? && IsVisibleText(current.value) {
      VisibleWithBoundary(current.value, boundary);
    }
  }

  /** Appending the boundary parameter keeps the type and does not change
      whether it reads as form-data. */
  lemma AppendBoundary(ct: string, boundary: string)
    requires StartsWith(ct, "multipart/")
    ensures var h := ct + ";boundary=" + boundary;
      && StartsWith(h, "multipart/")
      && h[|h| - 10 - |boundary|..] == ";boundary=" + boundary
      && (StartsWith(h, FormData) <==> StartsWith(ct, FormData))
  {
    var tail := ";boundary=" + boundary;
    var h := ct + tail;
    assert h[..|ct|] == ct;
    assert h[|ct|] == ';';
    assert h[|h| - |tail|..] == tail;
    assert h[..10] == ct[..10];
    if StartsWith(ct, FormData) {
      assert h[..|FormData|] == ct[..|FormData|];
    }
    if StartsWith(h, FormData) && |ct| >= |FormData| {
      assert ct[..|FormData|] == h[..|FormData|];
    }
  }

  /** An accepted header is a multipart type carrying the boundary, and
      the body is a form exactly when the header names form-data. */
  lemma RewrittenHeader(current: Option<string>, boundary: string)
    requires IsBoundary(boundary)
    ensures var r := RewriteContentType(current, boundary);
      r.isForm.Ok? ==>
        && StartsWith(r.header, "multipart/")
        && |r.header| >= 10 + |boundary|
        && r.header[|r.header| - 10 - |boundary|..] == ";boundary=" + boundary
        && (r.isForm.value <==> StartsWith(r.header, FormData))
  {
    ContentTypeCases(current, boundary);
    if current.Some? && IsVisibleText(current.value) && StartsWith(current.value, "multipart/") {
      AppendBoundary(current.value, boundary);
    } else if current.None? || IsVisibleText(current.value) {
      FormDataHeader(boundary);
    }
  }

  /** The form-data type with the boundary appended. */
  lemma FormDataHeader(boundary: string)
    ensures var h := FormData + ";boundary=" + boundary;
      && StartsWith(h, "multipart/")
      && h[|h| - 10 - |boundary|..] == ";boundary=" + boundary
      && StartsWith(h, FormData)
  {
    assert StartsWith(FormData, "multipart/");
    AppendBoundary(FormData, boundary);
  }

  // ---------------------------------------------------------------------
  // Part headers

  const ContentDisposition: string := "content-disposition"

  /** A header whose key is a valid name and whose value renders to a
      valid header value. */
  predicate HeaderAccepted(h: PartHeader) {
    HeaderName(h.key).Ok? && h.value.Rendered? && IsHeaderValue(h.value.text)
  }

  /** The headers of a part, validated in order: for each one the name is
      checked, then its value template is evaluated, then the value is
      checked. The first failure wins. */
  function Fields(headers: seq<PartHeader>): (r: Result<seq<Field>, BodyError>)
    ensures r.Ok? <==> forall i :: 0 <= i < |headers| ==> HeaderAccepted(headers[i])
    ensures r.Ok? ==> |r.value| == |headers|
    ensures r.Ok? ==> forall i :: 0 <= i < |headers| ==>
      && ValidField(r.value[i])
      && r.value[i].name == Lower(headers[i].key)
      && headers[i].value == Rendered(r.value[i].value)
  {
    if headers == [] then Ok([])
    else
      var h := headers[0];
      match HeaderName(h.key)
      case Err(e) => Err(e)
      case Ok(name) =>
        match h.value
        case RenderFailed => Err(TemplateFailed)
        case Rendered(value) =>
          if !IsHeaderValue(value) then Err(InvalidHeaderValue(value))
          else
            match Fields(headers[1..])
            case Err(e) => Err(e)
            case Ok(rest) => Ok([Field(name, value)] + rest)
  }

  /** Number of fields with the given name. */
  function CountNamed(fields: seq<Field>, name: string): nat {
    if fields == [] then 0
    else (if fields[0].name == name then 1 else 0) + CountNamed(fields[1..], name)
  }

  /** The value of the content-disposition header added in form mode. */
  function DispositionValue(part: Part, body: string): string {
    if part.isFile then "form-data; name=\"" + part.name + "\"; filename=\"" + body + "\""
    else "form-data; name=\"" + part.name + "\""
  }

  /** The headers a part is sent with: its own, then, in form mode and
      when none of its own is a content-disposition, one naming the form
      field (and, for a file part, the file as written in the template). */
  function PartFields(isForm: bool, part: Part, body: string): Result<seq<Field>, BodyError> {
    match Fields(part.headers)
    case Err(e) => Err(e)
    case Ok(fields) =>
      if isForm && CountNamed(fields, ContentDisposition) == 0 then
        var value := DispositionValue(part, body);
        if IsHeaderValue(value) then Ok(fields + [Field(ContentDisposition, value)])
        else Err(InvalidHeaderValue(value))
      else Ok(fields)
  }

  lemma {:induction false} CountNamedAppend(a: seq<Field>, b: seq<Field>, name: string)
    ensures CountNamed(a + b, name) == CountNamed(a, name) + CountNamed(b, name)
    decreases |a|
  {
    if a == [] {
      assert a + b == b;
    } else {
      assert (a + b)[1..] == a[1..] + b;
      CountNamedAppend(a[1..], b, name);
    }
  }

  lemma DispositionField(value: string)
    requires IsHeaderValue(value)
    ensures ValidField(Field(ContentDisposition, value))
  {
    assert forall i :: 0 <= i < |ContentDisposition| ==>
      'a' <= ContentDisposition[i] <= 'z' || ContentDisposition[i] == '-';
    assert '-' in "!#$%&'*+-.^_`|~";
  }

  /** In form mode a part ends up with exactly one content-disposition
      when it had none of its own; outside form mode, or when it had one,
      its headers are sent as configured. Every header sent is valid. */
  lemma AutoDisposition(isForm: bool, part: Part, body: string)
    requires PartFields(isForm, part, body).Ok?
    ensures var own := Fields(part.headers).value;
      var sent := PartFields(isForm, part, body).value;
      && (forall i :: 0 <= i < |sent| ==> ValidField(sent[i]))
      && (isForm && CountNamed(own, ContentDisposition) == 0 ==>
            && sent == own + [Field(ContentDisposition, DispositionValue(part, body))]
            && CountNamed(sent, ContentDisposition) == 1)
      && (!isForm || CountNamed(own, ContentDisposition) > 0 ==> sent == own)
      && (isForm ==> CountNamed(sent, ContentDisposition) >= 1)
  {
    var own := Fields(part.headers).value;
    if isForm && CountNamed(own, ContentDisposition) == 0 {
      var extra := [Field(ContentDisposition, DispositionValue(part, body))];
      CountNamedAppend(own, extra, ContentDisposition);
      assert CountNamed(extra, ContentDisposition) == 1;
      DispositionField(DispositionValue(part, body));
    }
  }

  // ---------------------------------------------------------------------
  // Pieces

  /** A part's body: inline text, or a file as the template wrote its
      path (shown in the copied text) and as resolved against the
      configuration file (opened and streamed). */
  datatype Content = Inline(text: string) | FromFile(shown: string, resolved: string)

  /** A part whose template and headers evaluated: whether it is the first
      part of the body, the headers it is sent with, and its body. */
  datatype Piece = Piece(first: bool, fields: seq<Field>, content: Content)

  /** The dash-boundary that opens a part: the first part's has no
      preceding line break. */
  function Opening(boundary: string, first: bool): string {
    (if first then "--" else "\r\n--") + boundary
  }

  function Line(f: Field): string {
    f.name + ": " + f.value
  }

  /** One `CRLF name: value` per header, in order. */
  function FieldLines(fields: seq<Field>): string {
    if fields == [] then [] else "\r\n" + Line(fields[0]) + FieldLines(fields[1..])
  }

  /** The header lines and the empty line that ends them. */
  function Preface(fields: seq<Field>): string {
    FieldLines(fields) + "\r\n\r\n"
  }

  /** Everything sent for a piece before its body. */
  function Head(boundary: string, piece: Piece): string {
    Opening(boundary, piece.first) + Preface(piece.fields)
  }

  /** The close-delimiter. */
  function Close(boundary: string): string {
    "\r\n--" + boundary + "--\r\n"
  }

  /** The body template is evaluated first, then the headers; a file
      part's path is resolved against the configuration file. */
  function RenderPiece(boundary: string, isForm: bool, first: bool, base: string, part: Part): (r: Result<Piece, BodyError>)
    ensures r.Ok? <==> part.body.Rendered? && PartFields(isForm, part, part.body.text).Ok?
    ensures part.body.RenderFailed? ==> r == Err(TemplateFailed)
    ensures part.body.Rendered? && PartFields(isForm, part, part.body.text).Err? ==>
      r == Err(PartFields(isForm, part, part.body.text).error)
    ensures r.Ok? ==> r.value.first == first
    ensures r.Ok? ==> PartFields(isForm, part, part.body.text) == Ok(r.value.fields)
    ensures r.Ok? ==> (part.isFile <==> r.value.content.FromFile?)
    ensures r.Ok? && part.isFile ==>
      r.value.content == FromFile(part.body.text, Util.TweakPath(part.body.text, base))
    ensures r.Ok? && !part.isFile ==> r.value.content == Inline(part.body.text)
  {
    match part.body
    case RenderFailed => Err(TemplateFailed)
    case Rendered(body) =>
      match PartFields(isForm, part, body)
      case Err(e) => Err(e)
      case Ok(fields) =>
        Ok(Piece(first, fields, if part.isFile then FromFile(body, Util.TweakPath(body, base)) else Inline(body)))
  }

  /** What a piece contributes to the copied text: the placeholder
      `<<contents of file: P>>` stands for a file's contents. */
  function CopyText(boundary: string, piece: Piece): string {
    Head(boundary, piece) +
      match piece.content
      case Inline(text) => text
      case FromFile(shown, _) => "<<contents of file: " + shown + ">>"
  }

  /** The chunks of one piece and their length: head and inline body as
      one chunk, or the head followed by the file, whose size must be
      known. */
  function PieceChunks(boundary: string, piece: Piece, files: map<string, nat>): Result<HyperBody, BodyError> {
    match piece.content
    case Inline(text) =>
      var data := Head(boundary, piece) + text;
      Ok(HyperBody(Utf8Length(data), [Text(data)]))
    case FromFile(_, path) =>
      if path in files then
        var head := Head(boundary, piece);
        Ok(HyperBody(Utf8Length(head) + files[path], [Text(head), FileContents(path)]))
      else Err(FileUnavailable(path))
  }

  /** The bytes a chunk stands for in a file system whose files have the
      given sizes. */
  function ChunkBytes(c: Chunk, files: map<string, nat>): nat {
    match c
    case Text(t) => Utf8Length(t)
    case FileContents(path) => if path in files then files[path] else 0
  }

  function TotalBytes(chunks: seq<Chunk>, files: map<string, nat>): nat {
    if chunks == [] then 0 else ChunkBytes(chunks[0], files) + TotalBytes(chunks[1..], files)
  }

  lemma {:induction false} TotalBytesAppend(a: seq<Chunk>, b: seq<Chunk>, files: map<string, nat>)
    ensures TotalBytes(a + b, files) == TotalBytes(a, files) + TotalBytes(b, files)
    decreases |a|
  {
    if a == [] {
      assert a + b == b;
    } else {
      assert (a + b)[1..] == a[1..] + b;
      TotalBytesAppend(a[1..], b, files);
    }
  }

  /** Every file chunk names a file whose size is known. */
  predicate FilesKnown(chunks: seq<Chunk>, files: map<string, nat>) {
    forall i :: 0 <= i < |chunks| && chunks[i].FileContents? ==> chunks[i].path in files
  }

  lemma ConcatChunks(head: HyperBody, tail: HyperBody, files: map<string, nat>)
    requires FilesKnown(head.chunks, files) && FilesKnown(tail.chunks, files)
    requires head.length == TotalBytes(head.chunks, files) && tail.length == TotalBytes(tail.chunks, files)
    ensures FilesKnown(head.chunks + tail.chunks, files)
    ensures head.length + tail.length == TotalBytes(head.chunks + tail.chunks, files)
  {
    TotalBytesAppend(head.chunks, tail.chunks, files);
    var all := head.chunks + tail.chunks;
    assert forall i :: |head.chunks| <= i < |all| ==> all[i] == tail.chunks[i - |head.chunks|];
  }

  lemma PieceChunksKnown(boundary: string, piece: Piece, files: map<string, nat>)
    requires PieceChunks(boundary, piece, files).Ok?
    ensures var b := PieceChunks(boundary, piece, files).value;
      FilesKnown(b.chunks, files) && b.length == TotalBytes(b.chunks, files)
  {
    var b := PieceChunks(boundary, piece, files).value;
    assert TotalBytes(b.chunks[|b.chunks|..], files) == 0;
    if piece.content.FromFile? {
      assert b.chunks[1..][1..] == [];
    }
  }

  /** The pieces' chunks in order, then the close-delimiter; the length
      starts from the close-delimiter's and adds each piece's. Any failed
      piece fails the body; the first one in order is reported. */
  function Assemble(boundary: string, pieces: seq<Result<Piece, BodyError>>, files: map<string, nat>): (r: Result<HyperBody, BodyError>)
    ensures r.Ok? ==> |r.value.chunks| > 0 && r.value.chunks[|r.value.chunks| - 1] == Text(Close(boundary))
    ensures r.Ok? ==> r.value.length == TotalBytes(r.value.chunks, files)
    ensures r.Ok? ==> FilesKnown(r.value.chunks, files)
  {
    if pieces == [] then
      var close := Text(Close(boundary));
      assert TotalBytes([close], files) == Utf8Length(Close(boundary)) + TotalBytes([], files);
      Ok(HyperBody(Utf8Length(Close(boundary)), [close]))
    else
      match pieces[0]
      case Err(e) => Err(e)
      case Ok(piece) =>
        match PieceChunks(boundary, piece, files)
        case Err(e) => Err(e)
        case Ok(head) =>
          match Assemble(boundary, pieces[1..], files)
          case Err(e) => Err(e)
          case Ok(tail) =>
            PieceChunksKnown(boundary, piece, files);
            ConcatChunks(head, tail, files);
            Ok(HyperBody(head.length + tail.length, head.chunks + tail.chunks))
  }

  /** The body is sent exactly when every part evaluated and every file
      part's file can be opened. */
  lemma {:induction false} AssembleOk(boundary: string, pieces: seq<Result<Piece, BodyError>>, files: map<string, nat>)
    ensures Assemble(boundary, pieces, files).Ok? <==>
      forall i :: 0 <= i < |pieces| ==> pieces[i].Ok? && PieceChunks(boundary, pieces[i].value, files).Ok?
    decreases |pieces|
  {
    if pieces != [] {
      AssembleOk(boundary, pieces[1..], files);
      assert forall i :: 1 <= i < |pieces| ==> pieces[i] == pieces[1..][i - 1];
    }
  }

  /** The copied text of the pieces that evaluated, in order; a piece
      whose template or headers failed contributes nothing. */
  function Copies(boundary: string, pieces: seq<Result<Piece, BodyError>>): string {
    if pieces == [] then []
    else
      (if pieces[0].Ok? then CopyText(boundary, pieces[0].value) else []) + Copies(boundary, pieces[1..])
  }

  /** The pieces that rendered, in order; a failed one is skipped. */
  function Succeeded(pieces: seq<Result<Piece, BodyError>>): (ok: seq<Piece>)
    ensures |ok| <= |pieces|
    ensures forall p :: p in ok ==> Ok(p) in pieces
  {
    if pieces == [] then []
    else (if pieces[0].Ok? then [pieces[0].value] else []) + Succeeded(pieces[1..])
  }

  /** The copied text of each piece. */
  function CopyTexts(boundary: string, ps: seq<Piece>): (r: seq<string>)
    ensures |r| == |ps| && forall i :: 0 <= i < |ps| ==> r[i] == CopyText(boundary, ps[i])
  {
    seq(|ps|, i requires 0 <= i < |ps| => CopyText(boundary, ps[i]))
  }

  lemma CopyTextsCons(boundary: string, p: Piece, ps: seq<Piece>)
    ensures Concat(CopyTexts(boundary, [p] + ps)) == CopyText(boundary, p) + Concat(CopyTexts(boundary, ps))
  {
    var texts := CopyTexts(boundary, [p] + ps);
    assert texts[1..] == CopyTexts(boundary, ps);
  }

  /** The copied text of the pieces is that of the pieces that rendered,
      one after the other. */
  lemma {:induction false} CopiesOfSucceeded(boundary: string, pieces: seq<Result<Piece, BodyError>>)
    ensures Copies(boundary, pieces) == Concat(CopyTexts(boundary, Succeeded(pieces)))
    decreases |pieces|
  {
    if pieces != [] {
      CopiesOfSucceeded(boundary, pieces[1..]);
      if pieces[0].Ok? {
        assert Succeeded(pieces) == [pieces[0].value] + Succeeded(pieces[1..]);
        CopyTextsCons(boundary, pieces[0].value, Succeeded(pieces[1..]));
      } else {
        assert Succeeded(pieces) == Succeeded(pieces[1..]);
      }
    }
  }

  /** Each part rendered, the first one knowing it is first. */
  function RenderPieces(boundary: string, isForm: bool, base: string, parts: seq<Part>): (pieces: seq<Result<Piece, BodyError>>)
    ensures |pieces| == |parts|
    ensures forall i :: 0 <= i < |parts| ==> pieces[i] == RenderPiece(boundary, isForm, i == 0, base, parts[i])
  {
    seq(|parts|, i requires 0 <= i < |parts| => RenderPiece(boundary, isForm, i == 0, base, parts[i]))
  }

  /** `MultipartBody::as_hyper_body`. */
  function AsHyperBody(body: MultipartBody, boundary: string, contentType: Option<string>,
                       copy: bool, files: map<string, nat>): (r: Outcome)
    ensures r.contentType == Some(RewriteContentType(contentType, boundary).header)
    ensures RewriteContentType(contentType, boundary).isForm.Err? ==>
      r.bodyValue.None? && r.body == Err(RewriteContentType(contentType, boundary).isForm.error)
    ensures r.bodyValue.Some? ==> copy
    ensures copy && RewriteContentType(contentType, boundary).isForm.Ok? ==>
      && r.bodyValue.Some?
      && |r.bodyValue.value| >= |Close(boundary)|
      && r.bodyValue.value[|r.bodyValue.value| - |Close(boundary)|..] == Close(boundary)
  {
    var ct := RewriteContentType(contentType, boundary);
    match ct.isForm
    case Err(e) => Outcome(Some(ct.header), None, Err(e))
    case Ok(isForm) =>
      var pieces := RenderPieces(boundary, isForm, body.path, body.parts);
      Outcome(Some(ct.header),
              if copy then Some(Copies(boundary, pieces) + Close(boundary)) else None,
              Assemble(boundary, pieces, files))
  }

  // ---------------------------------------------------------------------
  // The body as one text

  /** A part as a reader of the body sees it: its header fields and the
      text of its body. */
  datatype Section = Section(fields: seq<Field>, content: string)

  /** The text of a part after its dash-boundary. */
  function SectionBody(s: Section): string {
    Preface(s.fields) + s.content
  }

  /** The sections, each opened by a dash-boundary (only the very first
      one without a preceding line break), its header lines, an empty
      line and its body. */
  function EncodeSections(boundary: string, sections: seq<Section>, first: bool): string {
    if sections == [] then []
    else Opening(boundary, first) + SectionBody(sections[0]) + EncodeSections(boundary, sections[1..], false)
  }

  /** A whole multipart body: the sections and the close-delimiter. */
  function Encode(boundary: string, sections: seq<Section>): string {
    EncodeSections(boundary, sections, true) + Close(boundary)
  }

  /** The contents of a file, given the contents of every readable file. */
  function FileText(contents: map<string, string>, path: string): string {
    if path in contents then contents[path] else []
  }

  /** The text the server receives for the chunks. */
  function Wire(chunks: seq<Chunk>, contents: map<string, string>): string {
    if chunks == [] then []
    else
      (match chunks[0]
       case Text(t) => t
       case FileContents(path) => FileText(contents, path)) + Wire(chunks[1..], contents)
  }

  /** The section the server receives for a piece. */
  function Received(piece: Piece, contents: map<string, string>): Section {
    Section(piece.fields,
            match piece.content
            case Inline(text) => text
            case FromFile(_, path) => FileText(contents, path))
  }

  /** The section the copied text shows for a piece. */
  function Shown(piece: Piece): Section {
    Section(piece.fields,
            match piece.content
            case Inline(text) => text
            case FromFile(shown, _) => "<<contents of file: " + shown + ">>")
  }

  predicate AllRendered(pieces: seq<Result<Piece, BodyError>>) {
    forall i :: 0 <= i < |pieces| ==> pieces[i].Ok?
  }

  /** Pieces numbered from the start of a body, or from its middle. */
  predicate Numbered(pieces: seq<Result<Piece, BodyError>>, first: bool) {
    forall i :: 0 <= i < |pieces| ==> pieces[i].Ok? && pieces[i].value.first == (first && i == 0)
  }

  lemma NumberedTail(pieces: seq<Result<Piece, BodyError>>, first: bool)
    requires |pieces| > 0 && Numbered(pieces, first)
    ensures Numbered(pieces[1..], false)
  {
    assert forall i :: 0 <= i < |pieces| - 1 ==> pieces[1..][i] == pieces[i + 1];
  }

  function ReceivedSections(pieces: seq<Result<Piece, BodyError>>, contents: map<string, string>): (r: seq<Section>)
    requires AllRendered(pieces)
    ensures |r| == |pieces|
  {
    seq(|pieces|, i requires 0 <= i < |pieces| => Received(pieces[i].value, contents))
  }

  function ShownSections(pieces: seq<Result<Piece, BodyError>>): (r: seq<Section>)
    requires AllRendered(pieces)
    ensures |r| == |pieces|
  {
    seq(|pieces|, i requires 0 <= i < |pieces| => Shown(pieces[i].value))
  }

  lemma ReceivedTail(pieces: seq<Result<Piece, BodyError>>, contents: map<string, string>)
    requires |pieces| > 0 && AllRendered(pieces)
    ensures AllRendered(pieces[1..])
    ensures ReceivedSections(pieces[1..], contents) == ReceivedSections(pieces, contents)[1..]
  {
    var a, b := ReceivedSections(pieces[1..], contents), ReceivedSections(pieces, contents)[1..];
    forall i | 0 <= i < |a|
      ensures a[i] == b[i]
    {
      assert pieces[1..][i] == pieces[i + 1];
    }
  }

  lemma ShownTail(pieces: seq<Result<Piece, BodyError>>)
    requires |pieces| > 0 && AllRendered(pieces)
    ensures AllRendered(pieces[1..])
    ensures ShownSections(pieces[1..]) == ShownSections(pieces)[1..]
  {
    var a, b := ShownSections(pieces[1..]), ShownSections(pieces)[1..];
    forall i | 0 <= i < |a|
      ensures a[i] == b[i]
    {
      assert pieces[1..][i] == pieces[i + 1];
    }
  }

  lemma {:induction false} WireAppend(a: seq<Chunk>, b: seq<Chunk>, contents: map<string, string>)
    ensures Wire(a + b, contents) == Wire(a, contents) + Wire(b, contents)
    decreases |a|
  {
    if a == [] {
      assert a + b == b;
    } else {
      assert (a + b)[1..] == a[1..] + b;
      WireAppend(a[1..], b, contents);
    }
  }

  /** The text of one piece's chunks is its head and the body received. */
  lemma PieceWire(boundary: string, piece: Piece, files: map<string, nat>, contents: map<string, string>)
    requires PieceChunks(boundary, piece, files).Ok?
    ensures Wire(PieceChunks(boundary, piece, files).value.chunks, contents) ==
      Head(boundary, piece) + Received(piece, contents).content
  {
    var chunks := PieceChunks(boundary, piece, files).value.chunks;
    if piece.content.FromFile? {
      assert Wire(chunks[1..], contents) == FileText(contents, piece.content.resolved) + Wire([], contents);
    }
  }

  /** The encoding of sections whose first one is opened as `piece`
      says. */
  lemma EncodeFirst(boundary: string, sections: seq<Section>, first: bool, piece: Piece)
    requires |sections| > 0 && sections[0].fields == piece.fields && piece.first == first
    ensures EncodeSections(boundary, sections, first) ==
      Head(boundary, piece) + sections[0].content + EncodeSections(boundary, sections[1..], false)
  {
    var o, p, c := Opening(boundary, first), Preface(piece.fields), sections[0].content;
    AppendAssoc(o, p, c);
  }

  /** The text of a body's chunks starts with its first piece. */
  lemma WireOfFirst(boundary: string, pieces: seq<Result<Piece, BodyError>>, files: map<string, nat>,
                    contents: map<string, string>)
    requires |pieces| > 0 && Assemble(boundary, pieces, files).Ok? && pieces[0].Ok?
    ensures Assemble(boundary, pieces[1..], files).Ok?
    ensures Wire(Assemble(boundary, pieces, files).value.chunks, contents) ==
      Head(boundary, pieces[0].value) + Received(pieces[0].value, contents).content +
      Wire(Assemble(boundary, pieces[1..], files).value.chunks, contents)
  {
    var piece := pieces[0].value;
    var head := PieceChunks(boundary, piece, files).value;
    var tail := Assemble(boundary, pieces[1..], files).value;
    WireAppend(head.chunks, tail.chunks, contents);
    PieceWire(boundary, piece, files, contents);
  }

  /** Only the first dash-boundary lacks the line break in front. */
  lemma OpeningAfterFirst(boundary: string, sections: seq<Section>)
    requires |sections| > 0
    ensures "\r\n" + EncodeSections(boundary, sections, true) == EncodeSections(boundary, sections, false)
  {
    var o, b, t := Opening(boundary, true), SectionBody(sections[0]), EncodeSections(boundary, sections[1..], false);
    assert "\r\n" + o == Opening(boundary, false);
    AppendAssoc("\r\n" + o, b, t);
  }

  lemma WireOfNone(boundary: string, files: map<string, nat>, contents: map<string, string>)
    ensures Assemble(boundary, [], files).Ok?
    ensures Wire(Assemble(boundary, [], files).value.chunks, contents) == Close(boundary)
  {
    var body := Assemble(boundary, [], files).value;
    assert Wire(body.chunks, contents) == Close(boundary) + Wire([], contents);
  }

  lemma {:induction false} WireOfPieces(boundary: string, pieces: seq<Result<Piece, BodyError>>, files: map<string, nat>,
                                        contents: map<string, string>, first: bool)
    requires Assemble(boundary, pieces, files).Ok? && Numbered(pieces, first)
    ensures Wire(Assemble(boundary, pieces, files).value.chunks, contents) ==
      EncodeSections(boundary, ReceivedSections(pieces, contents), first) + Close(boundary)
    decreases |pieces|
  {
    var sections := ReceivedSections(pieces, contents);
    if pieces == [] {
      WireOfNone(boundary, files, contents);
    } else {
      var piece := pieces[0].value;
      WireOfFirst(boundary, pieces, files, contents);
      NumberedTail(pieces, first);
      ReceivedTail(pieces, contents);
      WireOfPieces(boundary, pieces[1..], files, contents, false);
      EncodeFirst(boundary, sections, first, piece);
      AppendAssoc(Head(boundary, piece) + sections[0].content, EncodeSections(boundary, sections[1..], false), Close(boundary));
    }
  }

  lemma {:induction false} CopiesOfPieces(boundary: string, pieces: seq<Result<Piece, BodyError>>, first: bool)
    requires Numbered(pieces, first)
    ensures Copies(boundary, pieces) == EncodeSections(boundary, ShownSections(pieces), first)
    decreases |pieces|
  {
    if pieces != [] {
      var sections := ShownSections(pieces);
      NumberedTail(pieces, first);
      CopiesOfPieces(boundary, pieces[1..], false);
      ShownTail(pieces);
      var piece := pieces[0].value;
      assert sections[0] == Shown(piece);
      assert CopyText(boundary, piece) == Head(boundary, piece) + Shown(piece).content;
      EncodeFirst(boundary, sections, first, piece);
    }
  }

  lemma RenderedNumbered(boundary: string, isForm: bool, base: string, parts: seq<Part>)
    requires AllRendered(RenderPieces(boundary, isForm, base, parts))
    ensures Numbered(RenderPieces(boundary, isForm, base, parts), true)
  {
  }

  /** What the server receives is the encoding of the parts, each file
      part carrying the contents of the file its resolved path names. */
  lemma StreamedIsEncoding(body: MultipartBody, boundary: string, contentType: Option<string>,
                           copy: bool, files: map<string, nat>, contents: map<string, string>)
    requires AsHyperBody(body, boundary, contentType, copy, files).body.Ok?
    ensures var isForm := RewriteContentType(contentType, boundary).isForm;
      var pieces := RenderPieces(boundary, isForm.value, body.path, body.parts);
      && isForm.Ok? && AllRendered(pieces)
      && Wire(AsHyperBody(body, boundary, contentType, copy, files).body.value.chunks, contents) ==
         Encode(boundary, ReceivedSections(pieces, contents))
  {
    var isForm := RewriteContentType(contentType, boundary).isForm.value;
    var pieces := RenderPieces(boundary, isForm, body.path, body.parts);
    AssembleOk(boundary, pieces, files);
    RenderedNumbered(boundary, isForm, body.path, body.parts);
    WireOfPieces(boundary, pieces, files, contents, true);
  }

  /** When every part's templates and headers evaluate, the copied text is
      the same encoding with a placeholder naming each file (as written,
      before it is resolved) in place of its contents. */
  lemma CopyIsEncoding(body: MultipartBody, boundary: string, contentType: Option<string>, files: map<string, nat>)
    requires RewriteContentType(contentType, boundary).isForm.Ok?
    requires AllRendered(RenderPieces(boundary, RewriteContentType(contentType, boundary).isForm.value, body.path, body.parts))
    ensures AsHyperBody(body, boundary, contentType, true, files).bodyValue ==
      Some(Encode(boundary, ShownSections(RenderPieces(boundary, RewriteContentType(contentType, boundary).isForm.value, body.path, body.parts))))
  {
    var isForm := RewriteContentType(contentType, boundary).isForm.value;
    var pieces := RenderPieces(boundary, isForm, body.path, body.parts);
    RenderedNumbered(boundary, isForm, body.path, body.parts);
    CopiesOfPieces(boundary, pieces, true);
  }

  /** Whatever the parts do, once the Content-Type is accepted the copied
      text is that of the parts that rendered, in order, followed by the
      close-delimiter; a part whose template or headers fail adds nothing. */
  lemma CopyOfAnyParts(body: MultipartBody, boundary: string, contentType: Option<string>, files: map<string, nat>)
    requires RewriteContentType(contentType, boundary).isForm.Ok?
    ensures AsHyperBody(body, boundary, contentType, true, files).bodyValue ==
      Some(Concat(CopyTexts(boundary, Succeeded(RenderPieces(boundary,
        RewriteContentType(contentType, boundary).isForm.value, body.path, body.parts)))) + Close(boundary))
  {
    var isForm := RewriteContentType(contentType, boundary).isForm.value;
    CopiesOfSucceeded(boundary, RenderPieces(boundary, isForm, body.path, body.parts));
  }

  lemma {:induction false} TotalBytesOfWire(chunks: seq<Chunk>, files: map<string, nat>, contents: map<string, string>)
    requires forall i :: 0 <= i < |chunks| && chunks[i].FileContents? ==> chunks[i].path in files
    requires forall path :: path in files ==> path in contents && Utf8Length(contents[path]) == files[path]
    ensures TotalBytes(chunks, files) == Utf8Length(Wire(chunks, contents))
    decreases |chunks|
  {
    if chunks != [] {
      TotalBytesOfWire(chunks[1..], files, contents);
      var first := match chunks[0] case Text(t) => t case FileContents(path) => FileText(contents, path);
      Utf8LengthAppend(first, Wire(chunks[1..], contents));
    }
  }

  /** The reported length is the number of bytes streamed, when each file
      holds as many bytes as its size says. */
  lemma LengthIsStreamed(body: MultipartBody, boundary: string, contentType: Option<string>,
                         copy: bool, files: map<string, nat>, contents: map<string, string>)
    requires AsHyperBody(body, boundary, contentType, copy, files).body.Ok?
    requires forall path :: path in files ==> path in contents && Utf8Length(contents[path]) == files[path]
    ensures var b := AsHyperBody(body, boundary, contentType, copy, files).body.value;
      b.length == Utf8Length(Wire(b.chunks, contents))
  {
    var b := AsHyperBody(body, boundary, contentType, copy, files).body.value;
    TotalBytesOfWire(b.chunks, files, contents);
  }
}
