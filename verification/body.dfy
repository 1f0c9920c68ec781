/** `BodyTemplate::as_hyper_body` (src/request.rs): the body of a request,
    its reported length and the copy of it kept for logging. A string body
    is sent as it evaluated; a file body names a file, resolved against the
    configuration file, whose contents are streamed; a multipart body is
    built by `Multipart`. Only the multipart body touches the Content-Type
    header. */
module Body {
  import opened Common
  import Util
  import Multipart

  /** A request body as configured, with each template represented by
      what it evaluated to. */
  datatype BodyTemplate =
    | Empty
    | StringBody(template: Multipart.Rendered)
    | FileBody(base: string, template: Multipart.Rendered)
    | MultipartBody(parts: Multipart.MultipartBody)

  /** The placeholder the copied text holds for a file's contents. */
  function FilePlaceholder(path: string): string {
    "<<contents of file: " + path + ">>"
  }

  /** A string body: the text as one piece, its UTF-8 length, and the
      text itself as the copy. */
  function StringOutcome(text: string, contentType: Option<string>, copy: bool,
                         files: map<string, nat>): (r: Multipart.Outcome)
    ensures r.contentType == contentType
    ensures r.bodyValue == (if copy then Some(text) else None)
    ensures r.body.Ok? && r.body.value.chunks == [Multipart.Text(text)]
    ensures r.body.value.length == Utf8Length(text) == Multipart.TotalBytes(r.body.value.chunks, files)
    ensures Multipart.FilesKnown(r.body.value.chunks, files)
  {
    var chunks := [Multipart.Text(text)];
    assert Multipart.TotalBytes(chunks, files) == Utf8Length(text) + Multipart.TotalBytes([], files);
    Multipart.Outcome(contentType, if copy then Some(text) else None,
                      Ok(Multipart.HyperBody(Utf8Length(text), chunks)))
  }

  /** A file body: the resolved file's contents and its size, or the
      failure to open it; the copy names the resolved path either way. */
  function FileOutcome(base: string, text: string, contentType: Option<string>, copy: bool,
                       files: map<string, nat>): (r: Multipart.Outcome)
    ensures var path := Util.TweakPath(text, base);
      && r.contentType == contentType
      && r.bodyValue == (if copy then Some(FilePlaceholder(path)) else None)
      && (path in files ==> r.body.Ok? && r.body.value.chunks == [Multipart.FileContents(path)] &&
                            r.body.value.length == files[path] == Multipart.TotalBytes(r.body.value.chunks, files))
      && (path !in files ==> r.body == Err(Multipart.FileUnavailable(path)))
    ensures r.body.Ok? ==> Multipart.FilesKnown(r.body.value.chunks, files)
  {
    var path := Util.TweakPath(text, base);
    var chunks := [Multipart.FileContents(path)];
    assert Multipart.TotalBytes(chunks, files) == Multipart.ChunkBytes(chunks[0], files) + Multipart.TotalBytes([], files);
    Multipart.Outcome(contentType, if copy then Some(FilePlaceholder(path)) else None,
                      if path in files then Ok(Multipart.HyperBody(files[path], chunks))
                      else Err(Multipart.FileUnavailable(path)))
  }

  /** `BodyTemplate::as_hyper_body`. For a file body the copied text is
      produced before the file is opened, so it is kept even when the
      open fails. */
  function AsHyperBody(template: BodyTemplate, boundary: string, contentType: Option<string>,
                       copy: bool, files: map<string, nat>): (r: Multipart.Outcome)
    ensures !template.MultipartBody? ==> r.contentType == contentType
    ensures r.bodyValue.Some? ==> copy
    ensures r.body.Ok? ==> r.body.value.length == Multipart.TotalBytes(r.body.value.chunks, files)
    ensures r.body.Ok? ==> Multipart.FilesKnown(r.body.value.chunks, files)
    ensures (template.StringBody? || template.FileBody?) && template.template.RenderFailed? ==>
      r.body == Err(Multipart.TemplateFailed) && r.bodyValue.None?
    ensures copy && (template.StringBody? || template.FileBody?) && template.template.Rendered? ==>
      r.bodyValue.Some?
  {
    match template
    case Empty =>
      Multipart.Outcome(contentType, None, Ok(Multipart.HyperBody(0, [])))
    case MultipartBody(parts) =>
      Multipart.AsHyperBody(parts, boundary, contentType, copy, files)
    case StringBody(Rendered(text)) =>
      StringOutcome(text, contentType, copy, files)
    case FileBody(base, Rendered(text)) =>
      FileOutcome(base, text, contentType, copy, files)
    case _ =>
      Multipart.Outcome(contentType, None, Err(Multipart.TemplateFailed))
  }

  /** No body: nothing is sent, the length is zero and nothing is copied. */
  lemma EmptyBody(boundary: string, contentType: Option<string>, copy: bool, files: map<string, nat>)
    ensures var r := AsHyperBody(Empty, boundary, contentType, copy, files);
      r.body.Ok? && r.body.value.length == 0 && Multipart.Wire(r.body.value.chunks, map[]) == [] && r.bodyValue.None?
  {
  }

  /** A string body is sent as one piece of text; its length is its UTF-8
      byte count, and the copied text is the text itself. */
  lemma StringBodySent(text: string, boundary: string, contentType: Option<string>, copy: bool,
                       files: map<string, nat>, contents: map<string, string>)
    ensures var r := AsHyperBody(StringBody(Multipart.Rendered(text)), boundary, contentType, copy, files);
      && r.body.Ok?
      && Multipart.Wire(r.body.value.chunks, contents) == text
      && r.body.value.length == Utf8Length(text)
      && (copy ==> r.bodyValue == Some(text))
  {
    var r := AsHyperBody(StringBody(Multipart.Rendered(text)), boundary, contentType, copy, files);
    assert Multipart.Wire(r.body.value.chunks, contents) == text + Multipart.Wire([], contents);
  }

  /** A file body streams the file its path resolves to, next to the
      configuration file, and reports that file's size; the copied text
      names the resolved path. A file that cannot be opened fails the
      body. */
  lemma FileBodySent(base: string, text: string, boundary: string, contentType: Option<string>,
                     copy: bool, files: map<string, nat>)
    ensures var r := AsHyperBody(FileBody(base, Multipart.Rendered(text)), boundary, contentType, copy, files);
      var path := Util.TweakPath(text, base);
      && (path in files ==> r.body.Ok? && r.body.value.length == files[path] &&
                            r.body.value.chunks == [Multipart.FileContents(path)])
      && (path !in files ==> r.body == Err(Multipart.FileUnavailable(path)))
      && (copy ==> r.bodyValue == Some(FilePlaceholder(path)))
  {
  }

  /** Whatever the kind of body, the reported length is the number of
      bytes streamed when each file holds as many bytes as its size says. */
  lemma LengthIsStreamed(template: BodyTemplate, boundary: string, contentType: Option<string>,
                         copy: bool, files: map<string, nat>, contents: map<string, string>)
    requires AsHyperBody(template, boundary, contentType, copy, files).body.Ok?
    requires forall path :: path in files ==> path in contents && Utf8Length(contents[path]) == files[path]
    ensures var b := AsHyperBody(template, boundary, contentType, copy, files).body.value;
      b.length == Utf8Length(Multipart.Wire(b.chunks, contents))
  {
    var b := AsHyperBody(template, boundary, contentType, copy, files).body.value;
    Multipart.TotalBytesOfWire(b.chunks, files, contents);
  }
}
