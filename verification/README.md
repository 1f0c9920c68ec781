# pewpew request and provider core, modelled in Dafny

This project models the sequential logic at the core of pewpew, an HTTP
load-testing tool written in Rust, and proves what that logic promises.
The logic comes from three source files:

- `src/request.rs` supplies the following.
  - The multipart body serialiser, `MultipartBody::as_hyper_body`. It
    rewrites Content-Type and frames the parts as section 5.1.1 of RFC 2046
    prescribes. In form mode it adds the Content-Disposition of section 4.2
    of RFC 7578. It also produces the copied "body value" text and the
    reported length.
  - The other request bodies, `BodyTemplate::as_hyper_body`.
  - The back-pressured `BlockSender` future, with its `poll` and `drop`.
  - The on-demand gate in `Endpoint::into_future`.
  - `Endpoint::add_start_stream`.
- `src/providers.rs` supplies the cycling `RepeaterStream` and the
  logger's counter, limit and kill decision.
- `src/util.rs` supplies the JSON-to-text helpers, `str_to_json` and
  `tweak_path`.

Every operation is a pure function over immutable datatypes. Each one has
a partner it is proved against:

- The multipart text is read back by an independent RFC 2046 reader
  (`MultipartDecode`).
- The compact JSON text is read back by a JSON decoder (`JsonDecode`).
- Paths are read back from their text (`Paths.Parse`).
- The logger is compared with a message-by-message reference
  (`Logger.Expected`).
- The sender is checked with an accounting of every item it consumed.
- The gate is checked with a balance of signals, admissions and items.

## Modules

| file | module | what it holds |
|---|---|---|
| `common.dfy` | `Common` | `Option`, `Result`, string search, split/join and UTF-8 byte counts |
| `json.dfy` | `Json` | the JSON value type and its compact serialiser (serde_json's `to_string`) |
| `json_decode.dfy` | `JsonDecode` | a reader of compact JSON text, the serialiser's partner |
| `json_roundtrip.dfy` | `JsonRoundTrip` | reading back serialised text gives the value |
| `paths.dfy` | `Paths` | `/`-separated paths and `with_file_name` |
| `util.dfy` | `Util` | `json_value_to_string`, `json_value_into_string`, `str_to_json`, `tweak_path` |
| `multipart.dfy` | `Multipart` | `MultipartBody::as_hyper_body` |
| `multipart_decode.dfy` | `MultipartDecode` | a multipart reader and the proof that the server reads back the parts sent |
| `body.dfy` | `Body` | `BodyTemplate::as_hyper_body` |
| `block_sender.dfy` | `BlockSender` | `BlockSender::poll` and `drop` over a bounded channel |
| `endpoint.dfy` | `Endpoint` | `add_start_stream` and the on-demand gate |
| `repeater.dfy` | `Repeater` | `RepeaterStream` |
| `logger.dfy` | `Logger` | the logger's `for_each` step |

## Behaviour worth knowing

Each of these follows from the source as written. The model keeps it.

- With a limit `L` and kill off, the logger writes the first
  `min(count, max(L, 1))` messages, not `min(count, L)`. The counter is
  compared with the limit only after the message has been written, so a
  limit of 0 still lets the first message through
  (`Logger.LimitWithoutKill`).
- With kill on and a limit not yet reached, the logger sends nothing. It
  sends `KilledByLogger` for every message from the `max(L, 1)`-th on. With no
  limit it sends one after every message.
- On the branches that send `KilledByLogger`, the file logger discards the
  result of its write. A failed write ends the logger only when no kill
  is sent for that message (`Logger.Step`).
- `add_start_stream` replaces a start stream only when it is at index 0.
  Otherwise it appends the new one at the end. So on a list whose front
  holds a value stream, repeated calls accumulate start streams
  (`Endpoint.StartStreamsAccumulate`).
- The gate polls the on-demand streams on every call, even while it is
  open. A signal that arrives while the gate is open is dropped.
- In a multipart body, the copied text of a file part names the path as
  the template rendered it, before it is resolved against the
  configuration file. A `File` body's copied text names the resolved path.
- A part whose template or headers fail adds nothing to the copied text,
  but later parts still do. The close-delimiter is always appended
  (`Multipart.CopyOfAnyParts`).

## Model

| member | source | states |
|---|---|---|
| Multipart.ContentTypeCases | src/request.rs:297-334 | An absent Content-Type is treated as `multipart/form-data`. A value that is not visible text is an error and the header stays as it was. A `multipart/` value gets `;boundary=B` appended and is a form exactly when it starts with `multipart/form-data`. Any other value is replaced by `multipart/form-data;boundary=B`, which is a form. A 20-character alphanumeric boundary never makes the value invalid. |
| Multipart.RewrittenHeader | src/request.rs:308-333 | An accepted header starts with `multipart/` and ends with `;boundary=` and the boundary. The body is a form exactly when the header names form-data. |
| Multipart.HeaderName | src/request.rs:367-374 | A header key is accepted exactly when it is a non-empty RFC 7230 token. The name kept is the key lower-cased, which is again a token of the same length. |
| Multipart.Fields | src/request.rs:366-395 | The headers are accepted exactly when every key is a valid name and every value renders to a valid header value. Then there is one field per configured header, in order. Each field is valid, its name is the key lower-cased, and its value is what the value template rendered. |
| Multipart.AutoDisposition | src/request.rs:388-417 | In form mode, a part with no content-disposition of its own gets exactly one, appended after its own headers and naming the field (and, for a file part, the file). Otherwise the headers are sent as configured. Every header sent is valid. |
| Multipart.RenderPiece | src/request.rs:347-446 | A part renders exactly when its body template renders and its headers are accepted. The body template is evaluated first: when it fails, the error is the template's, whatever the headers. Otherwise a header failure is reported. A rendered piece carries the headers `PartFields` yields. A file part streams the file at its resolved path but shows the unresolved text. An inline part carries its text. |
| Multipart.PieceWire | src/request.rs:358-364 | A piece puts on the wire its dash-boundary, its header lines, the empty line, and then its inline text or its file's contents. |
| Multipart.Assemble | src/request.rs:458-473 | The last chunk is the close-delimiter. The reported length is the byte count of the chunks, with each file counted at its size. Every file streamed has a known size. |
| Multipart.AssembleOk | src/request.rs:458-465 | The body is produced exactly when every part rendered and every file part's file could be opened. |
| Multipart.AsHyperBody | src/request.rs:284-476 | The Content-Type is always the rewritten header. If the rewrite fails, nothing is copied and the body is that error. Text is copied only when asked for. When it is asked for and the rewrite succeeds, there is a copy, and it ends with the close-delimiter whatever the parts did. |
| Multipart.WireOfPieces | src/request.rs:458-473 | The chunks stream the parts in their configured order, each with its framing, followed by the close-delimiter exactly once. |
| Multipart.StreamedIsEncoding | src/request.rs:336-476 | When the body is produced, the text the server receives is the RFC 2046 encoding of the received sections, in order, closed by `\r\n--B--\r\n`. |
| Multipart.CopyOfAnyParts | src/request.rs:347-456 | Once the Content-Type is accepted, the copy is the copied text of the parts that rendered, in order, followed by the close-delimiter. A part whose template or headers fail adds nothing, and later parts still add theirs. |
| Multipart.CopyIsEncoding | src/request.rs:421-456 | When every part renders, the copied text is the same encoding with each file's contents replaced by `<<contents of file: P>>`. It ends with the close-delimiter. |
| Multipart.LengthIsStreamed | src/request.rs:428-465 | When each file holds as many bytes as its size says, the reported length is the UTF-8 byte count of everything streamed. |
| MultipartDecode.DecodeSectionBody | src/request.rs:391-419 | A part's header lines and body, framed as the serialiser frames them, read back as the same headers and body. |
| MultipartDecode.DecodeEncode | src/request.rs:336-339 | An RFC 2046 reader gives back the sections of an encoded body when no section contains the delimiter. |
| MultipartDecode.ReceivedPartsReadBack | src/request.rs:284-476 | When no part contains the delimiter, a server reading the body as RFC 2046 multipart gets back every part's headers and content, in order. |
| Body.StringOutcome | src/request.rs:533-536 | A string body is one piece of text. Its length is its UTF-8 byte count, and the copy is the text itself. |
| Body.FileOutcome | src/request.rs:526-531 | A file body streams the file its path resolves to and reports that file's size. The copy names the resolved path even when the open fails. A file that cannot be opened is an error. |
| Body.AsHyperBody | src/request.rs:502-538 | Only a multipart body touches Content-Type. Text is copied only when asked for. A string or file body whose template fails is that error, and nothing is copied. When copying is asked for and the template renders, there is a copy. The reported length equals the bytes of the chunks. |
| Body.EmptyBody | src/request.rs:519 | No body means length 0, nothing sent and nothing copied. |
| Body.StringBodySent | src/request.rs:533-536 | The wire text of a string body is the text. Its length is the UTF-8 byte count, and the copy is the text. |
| Body.FileBodySent | src/request.rs:526-531 | A file body streams exactly the resolved file, or fails when that file cannot be opened. The copy is `<<contents of file: P>>` for the resolved path. |
| Body.LengthIsStreamed | src/request.rs:509-537 | For every kind of body, the reported length is the number of bytes streamed. |
| BlockSender.TrySend | src/request.rs:706-715 | `try_send` queues the value exactly when the channel is open and below capacity. A full channel hands the value back. A refusal leaves the channel unchanged. |
| BlockSender.Offer | src/request.rs:698-716 | The loop queues items in order until one is refused or the items run out. The items offered are exactly those queued, then the one consumed without being queued, then those left. Nothing is queued into a closed channel, and the queue never grows past the capacity. |
| BlockSender.Poll | src/request.rs:697-717 | A poll only appends to the channel's queue. What was pending equals what was queued, then what was lost (a value dropped on a closed channel or the iterator's error), then what is still pending. `value_added` becomes true exactly when a value was queued. Only a full channel leaves a value kept for the next poll. A closed channel receives nothing, and a poll that queues anything leaves the queue within the capacity. |
| BlockSender.RetryFirst | src/request.rs:699-710 | A value the channel refused is the first one queued by the next poll that queues anything. |
| BlockSender.RunKeepsOrder | src/request.rs:697-717 | Over any number of polls, every item is queued once, in iterator order, or lost exactly once, or still pending. None is skipped or duplicated. `value_added` never reverts. |
| BlockSender.Drop | src/request.rs:720-726 | Dropping the sender polls once more. Then the callback, if there is one, gets whether any value was accepted. |
| BlockSender.CallbackReportsValueAdded | src/request.rs:712-726 | The callback gets `true` exactly when some value was queued, whether during the run or by the final poll. |
| Endpoint.AddStartStream | src/request.rs:577-588 | A start stream at index 0 is replaced in place. In every other case the new start stream is appended at the end. |
| Endpoint.KeepsValueStreams | src/request.rs:582-587 | The value streams stay the same and in the same order. |
| Endpoint.StartStreamsAccumulate | src/request.rs:582-587 | With a value stream at the front, two calls add two start streams. |
| Endpoint.StartStreamReplaced | src/request.rs:582-585 | With a start stream at the front, or an empty list, the second call replaces the first one's stream. |
| Endpoint.GateStep | src/request.rs:605-627 | A closed gate admits exactly on a signal. It ends when the signals end, waits when there is none, and fails when they fail. The zipped streams are polled exactly when the gate is open or a signal arrives. An open gate passes on what they return and stays open only while they are not ready. |
| Endpoint.CombinedStep | src/request.rs:601-630 | The gate is used only when there are on-demand streams and the endpoint provides values. Otherwise the zipped streams pass through. |
| Endpoint.GateBalance | src/request.rs:604-627 | Over any run, closings plus a final open gate equal admissions plus an initially open gate. No more signals are admitted than arrive, and every item yielded closes the gate. |
| Endpoint.OneItemPerSignal | src/request.rs:604-627 | A gate that starts closed yields no more items than on-demand signals arrive. |
| Repeater.New | src/providers.rs:104-106 | A new stream starts at position 0 over the given values. |
| Repeater.Poll | src/providers.rs:113-117 | A poll never fails. It yields the value at the position exactly when there is one, and keeps the list. After it the position is below the length of a non-empty list, advanced by one or wrapped to 0. |
| Repeater.EmptyEnds | src/providers.rs:115-116 | On an empty list every poll ends the stream and the position stays 0. |
| Repeater.Cycles | src/providers.rs:113-117 | Over `n > 0` values, poll `k` yields `values[k mod n]` and leaves the position at `k mod n`. |
| Repeater.NeverEnds | src/providers.rs:113-117 | Over a non-empty list, no poll ends the stream. |
| Logger.Line | src/providers.rs:168-171 | The file target writes compact JSON. The console targets write a string's contents raw and anything else as compact JSON. |
| Logger.Step | src/providers.rs:252-290 | Each message counts. It is written while logging is on, unless the file write fails. `KilledByLogger` is sent exactly when kill is on and there is no limit or the limit is reached. Logging stops exactly when the limit is reached without kill. A failed file write ends the logger exactly when no kill is sent. |
| Logger.StepIsExpected | src/providers.rs:166-194 | From a reachable state and with writes succeeding, one message does what the reference says and reaches a reachable state. |
| Logger.RunIsExpected | src/providers.rs:164-197 | Over any sequence of messages whose writes succeed, the events are the reference's, the logger never stops, and every message is counted. |
| Logger.FailureEnds | src/providers.rs:264-293 | A failed file write on a message that sends no kill ends the logger with that error, and nothing after it is processed. |
| Logger.LimitWithoutKill | src/providers.rs:174-186 | With limit `L` and kill off, exactly the first `min(count, max(L, 1))` messages are written, in order, and no kill is sent. |
| Logger.KillWritesEverything | src/providers.rs:174-193 | With kill on, every message is written. With no limit, one kill follows each message. With limit `L`, one kill is sent per message from the `max(L, 1)`-th on. |
| Logger.UnlimitedWritesEverything | src/providers.rs:194 | With no limit and kill off, every message is written and no kill is sent. |
| Util.ValueToString | src/util.rs:9-14 | A string's contents are returned raw. Any other value is compact JSON that decodes back to the value, and whose only whitespace is spaces inside its strings. |
| Util.ObjectExample | src/util.rs:33-35 | `{"foo": 123}` becomes `{"foo":123}`. |
| Util.StringExample | src/util.rs:37-39 | The string `asdf " foo` is returned unchanged. |
| Util.ArrayExample | src/util.rs:41-43 | `["foo", 1, 2, 3, null]` becomes `["foo",1,2,3,null]`. |
| Util.ValueIntoString | src/util.rs:16-21 | `json_value_into_string` gives the same text as `json_value_to_string` for every value. |
| Util.StrToJson | src/util.rs:5-7 | The parsed value when the text parses, and otherwise the text as a JSON string. |
| Util.FallbackRoundTrip | src/util.rs:5-7 | Text that does not parse comes back unchanged through `str_to_json` and `json_value_to_string`. |
| Util.StrToJsonOfSerialized | src/util.rs:5-12 | The compact text of any value is read back by `str_to_json` as that value. |
| Util.RawStringIsReparsed | src/util.rs:5-14 | A string holding `1` is written raw, and that text comes back as the number 1. |
| Util.TweakPath | src/util.rs:23-25 | The result names the base path with its file name replaced by the given path. |
| Util.TweakPathReplacesFileName | src/util.rs:23-25 | An absolute path replaces the base. A relative path replaces the base's last component, or is appended when the base has no file name. |
| Util.TweakPathSibling | src/util.rs:23-25 | A plain file name resolves next to the base: same directory, that name. |
| Paths.ParseRender | src/util.rs:24 | Reading back a path's text gives the same path. |
| Json.WhitespaceOnlyInStrings | src/util.rs:12 | Compact JSON text has no whitespace between tokens. Every whitespace character in it is a space inside a string. |
| Json.ArrayText | src/util.rs:41-43 | The compact text of `["foo",1,2,3,null]`. |
| Json.ObjectText | src/util.rs:33-35 | The compact text of `{"foo":123}`. |
| JsonRoundTrip.QuoteRoundTrip | src/util.rs:12 | A quoted, escaped string reads back as the same string. |
| JsonRoundTrip.IntRoundTrip | src/util.rs:12 | An integer's decimal text reads back as the same integer. |
| JsonRoundTrip.DecodeSerialize | src/util.rs:12 | The compact text of every value decodes back to that value. |

## Left out

- Pretty printing (`{:#}`) in the logger is not modelled, because the layout of serde_json's pretty printer is not part of the core. Only compact text is modelled.
- JSON numbers are integers. Floats and their formatting are not modelled.
- A JSON object is modelled as the entries of serde_json's `Map` in iteration order. The type does not enforce that the keys are distinct, as the `Map` does; values built from such a map have distinct keys.
- serde_json's parser is not modelled. `Util.StrToJson` takes the parser as a parameter, and `JsonDecode` reads only the compact text the serialiser produces (no whitespace, no exponents, no fractions).
- Template evaluation is not modelled. Each template is represented by what it rendered to, or by its failure.
- The random boundary generator is not modelled. The boundary is an input, assumed to be 20 ASCII letters and digits.
- File I/O (`create_file_hyper_body`) is not modelled. A file is its size in a map, and a missing path is a failed open or failed metadata call. What is streamed is the file's contents, given as a second map. The 8 KiB buffered reads are not modelled.
- Multipart.Assemble: when several parts fail, the error reported is the first failing part in list order. `join_all` reports whichever future fails first, and this model has no timing.
- `String::from_utf8_lossy` in the copied text is not modelled, because strings here are sequences of characters and are always valid.
- The byte counts are unbounded naturals, not `u64`. The repeater's position is unbounded, not `usize`; its `i + 1` cannot overflow anyway, because the position stays below the list length.
- The channel internals, `select_any`, `zip_all`, `tokio::spawn` and task wake-ups are not modelled. The sender sees only `try_send`'s three answers. Each poll of the gate takes the on-demand poll and the zipped poll as inputs.
- Logger: creating the log file can fail, and that failure is not modelled. Console writes are treated as never failing, whereas `eprintln!`/`println!` panic on failure. The `test_killer` send is an abstract `Kill` event.
- Util.TweakPath: the result is the canonical spelling of the resulting path, with empty and `.` components dropped. The source keeps the base's own spelling. The contract states equality of the parsed paths, not of the texts. `..` is kept as an ordinary component, as `PathBuf` does.
- Header validation by the `http` crate is restated as character rules. A value may contain any character from space upwards except DEL, plus tab. A name must be a token, and it is lower-cased.
