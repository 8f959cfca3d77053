# HTTP request and multipart parsers of https-server-app-rs, in Dafny

This project models the protocol core of a small HTTPS server written in Rust.
It covers two byte-at-a-time parsers, each driven by a `rust_fsm` state table:

- the HTTP/1.1 request parser (`message/mod.rs`, table in `message/fsm.rs`);
- the `multipart/form-data` decoder (`form_data/mod.rs`, table in `form_data/fsm.rs`).

It also covers the `Request` and `Response` values, response serialisation
(`Response::to_bytes`) and the request-method lookup (`method.rs`).

Layout, one module per file:

| file | module | models |
|---|---|---|
| `common.dfy` | `Common` | bytes, byte constants, `Option`, `Result`, the error kinds |
| `text.dfy` | `Text` | the library calls both parsers use, stated on bytes |
| `method.dfy` | `Methods` | `Method` and `get_methods` |
| `message_fsm.dfy` | `MessageFsm` | the request state table |
| `message.dfy` | `Message` | `Request`, `Response`, the class `Parser` and its `parse`, `to_bytes` |
| `request_proofs.dfy` | `RequestProofs` | what the request parser makes of well-formed bytes |
| `request_invariant.dfy` | `RequestInvariant` | what every request the parser returns looks like |
| `request_examples.dfy` | `RequestExamples` | the two requests of the parser's unit tests |
| `form_data_fsm.dfy` | `FormDataFsm` | the multipart state table |
| `form_data.dfy` | `Multipart` | `FormDataPart`, `FormData`, `get_part`, `FormData::parse` |
| `form_data_proofs.dfy` | `MultipartProofs` | what the decoder makes of a well-formed body |
| `form_data_invariant.dfy` | `MultipartInvariant` | what every form the decoder returns looks like, and when it panics |
| `form_data_headers.dfy` | `MultipartHeaders` | how `Content-Disposition` values are read |
| `form_data_examples.dfy` | `MultipartExamples` | the upload of the decoder's unit test |

How the model is built:

- **Both state tables** are functions `Consume(state, input)`.
  - A pair with no entry is `Rejected`; this is `rust_fsm`'s `TransitionImpossible`.
  - Where the multipart table lists the same pair twice (`DataToBoundary` on `Cr`), the first entry wins, as in the generated `match`.
  - An entry without an output gives the output `Silent`.
- **Each parser** has a functional specification:
  - `StepByte` does one iteration of the parse loop.
  - `Run` does the whole loop from a state over the bytes still to read.
  - The loop as written is a method proved equal to `Run`: `Message.Parser.Parse` and `Multipart.Parse`.
- **The request parser** is a class whose state (the machine) survives between calls.
  - The input stream is the field `stream`, and `offset` marks how much of it has been consumed.
  - The loop stops with `Ok(None)` when `offset` reaches the end of `stream`; this is where `read_exact` fails.
- **Text** the request parser builds with `char::from(byte)` is kept as the sequence of those bytes.
- **`Request`** is a value: the parser produces it and `set_header` yields an updated copy.
- **`Response`** is a class whose methods update its fields in place.
- **Panics** are error results:
  - indexing the boundary one past its end gives `IndexOutOfBounds`;
  - a string slice out of range or off a character boundary gives `SliceOutOfBounds`.

What the code does, proved here, where it differs from the HTTP/1.1 message
framing of RFC 7230 and the `multipart/form-data` framing of RFC 7578 that
these parsers implement:

- **Request without headers.** A request is accepted only with at least one header (`RequestProofs.NoHeadersRejected`).
- **First body byte.** The body's first byte must be an `Alpha` byte: not space, colon, CR or LF.
- **Only one part.** The decoder returns only forms with exactly one part (`MultipartInvariant.ParsedWellFormed`).
  - After a complete boundary, any byte other than `-` makes it index the boundary one past its end. That is a panic (`MultipartInvariant.IndexPanic`, `MultipartProofs.SecondPartPanics`).
  - So a second part (boundary, then CR LF) never decodes.
- **Boundary.** The boundary is the whole first line, leading dashes included, so it must start with `-`.
- **Line break before the closing boundary.** The CR LF before the closing boundary stays in the part's data, as the unit test expects.
- **First data byte.** The data of a part cannot start with a blank (`MultipartProofs.BlankFirstRejected`).
- **Close of a partial match.** A byte that breaks a partial boundary match, of any length, is flushed into the data together with the match (`MultipartProofs.FalseStart`). It is not compared against the boundary's first byte again, so a match that begins inside a false start is missed.
  - As a result, the data is read back as sent when the boundary does not occur in it and it does not end in a non-empty prefix of the boundary (`MultipartProofs.Unambiguous`). The first data byte is never compared, so this is asked only of the bytes after it.
  - Data that ends in a non-empty prefix of the boundary leaves a match pending, and the pending match absorbs the first bytes of the real boundary. What follows depends on whether the two can join into a complete match.
    - When they cannot, the match breaks off and the closing boundary is never seen. The body is read to its end and no form is returned. For example, with a boundary `--x` where `x` is not a dash, data ending in `-` gives `Ok(None)` (`MultipartProofs.PendingMatchHidesClose`).
    - When they can, the joined match completes before the closing boundary has been read in full. The part is stored without the pending bytes at the next dash. With a boundary of dashes only, data ending in `-` gives the form with that dash lost (`MultipartProofs.PendingMatchTruncates`). With a boundary `-x-x`, data ending in `-x` is refused, because `x` after the stored part has no entry in the table (`MultipartProofs.PendingMatchRefused`).
- **Part stored on the first dash.** The part is appended on the first closing dash; the form is returned on the second.

## Model

| member | source | states |
|---|---|---|
| Methods.GetMethods | src/infra/http/method.rs:9-14 | `Some(m)` only for the token of `m`, and `None` exactly when the string is no variant's token |
| Methods.TokenRoundTrip | src/infra/http/method.rs:18-28 | each of the nine upper-case tokens is recognised as its own variant |
| Methods.TokensDistinct | src/infra/http/method.rs:18-28 | no two variants share a token, so the lookup is unambiguous |
| Methods.OnlyNineTokens | src/infra/http/method.rs:10-13 | a string that is none of the nine tokens matches no variant |
| Methods.LowerCaseRejected | src/infra/http/method.rs:10-13 | matching is case-sensitive: `get` is unknown |
| MessageFsm.Consume | src/infra/http/message/fsm.rs:3-53 | header block ends exactly on `Cr2`+`Lf` (into `Lf2`); body bytes only in `Lf2`/`Body`; `End` accepted exactly in `Lf2` and `Body`, returning to the start |
| MessageFsm.TableShape | src/infra/http/message/fsm.rs:6-52 | only `Alpha` starts a request; tokens grow only on `Alpha`; one blank after a header colon; a header is committed exactly on the `Cr` ending its value; `Lf0` demands a header; the body takes every symbol |
| Message.Request.GetHeader | src/infra/http/message/mod.rs:33-35 | `Some` exactly when the name is present, with the stored value |
| Message.Request.SetHeader | src/infra/http/message/mod.rs:36-38 | the name now maps to the value, every other name is unchanged, nothing else changes |
| Message.Classify | src/infra/http/message/mod.rs:134-140 | a stream byte is never `End`; it is `Alpha` exactly when it is not space, colon, CR or LF |
| Message.StepOutcomes | src/infra/http/message/mod.rs:128-194 | a refused symbol leaves the machine where it was; a request is completed only by the `Lf` of the empty line or the last announced body byte, leaving the machine in `End` |
| Message.Complete | src/infra/http/message/mod.rs:178-188 | the request is handed back exactly when no body bytes are outstanding, with the accumulated fields, and the machine is back in `End` |
| Message.RunOutcomes | src/infra/http/message/mod.rs:122-125 | `Ok(None)` exactly when the stream ends before the call returns, with every byte consumed; otherwise a byte of the input decided the result |
| Message.Parser.constructor | src/infra/http/message/mod.rs:105-110 | a new parser starts at the beginning of its stream with the machine in its initial state |
| Message.Parser.Parse | src/infra/http/message/mod.rs:111-196 | consumes bytes from the current offset and returns what `Run` gives on the unread stream, leaving machine and offset where `Run` stops |
| Message.Parser.ApplyOutput | src/infra/http/message/mod.rs:143-194 | one output's update of the locals equals `Effect`; after `EffectCheckEnd`/`EffectAppendBody` with no body outstanding the request is returned |
| Message.InsertAll | src/infra/http/message/mod.rs:146 | inserting header lines in order gives exactly the old names plus the lines' names |
| Message.HeaderBlock | src/infra/http/message/mod.rs:72-74 | a serialised header block has four bytes of punctuation per line besides names and values |
| Message.Response.constructor | src/infra/http/message/mod.rs:49-56 | version `1.1`, status 200, no headers, empty body |
| Message.Response.WithText | src/infra/http/message/mod.rs:57-62 | a new response with the given code and body, otherwise as `new` |
| Message.Response.SetBody | src/infra/http/message/mod.rs:82-84 | replaces the body, nothing else |
| Message.Response.SetCode | src/infra/http/message/mod.rs:85-87 | replaces the code, nothing else |
| Message.Response.GetHeader | src/infra/http/message/mod.rs:91-93 | `Some` exactly when the name is present, with the stored value |
| Message.Response.SetHeader | src/infra/http/message/mod.rs:94-96 | the name now maps to the value, every other name is unchanged, nothing else changes |
| Message.Response.ToBytes | src/infra/http/message/mod.rs:63-81 | an error exactly for a code without a reason phrase; otherwise status line, one `name: value` line per header in iteration order, empty line, body |
| Message.InsertLines | src/infra/http/message/mod.rs:72-74 | reading header lines back into a map keeps earlier names not listed and takes listed names' values |
| Message.HeaderMapOfLines | src/infra/http/message/mod.rs:72-74 | the header lines `to_bytes` writes, read back into a map, give exactly the response's headers, whatever the iteration order |
| RequestProofs.RunExtend | src/infra/http/message/mod.rs:122-195 | once a call has returned, bytes after the point where it stopped do not change its result |
| RequestProofs.FeedRequestLine | src/infra/http/message/fsm.rs:6-21 | a request line of three tokens is read into method, path and version, leaving the machine in `Lf0` |
| RequestProofs.FeedHeaderLine | src/infra/http/message/fsm.rs:22-35 | a `name: value` line inserts that header into the map and leaves the machine in `Lf1` |
| RequestProofs.FeedHeaderBlock | src/infra/http/message/mod.rs:145-155 | a block of well-formed header lines gives the map of the lines inserted in order |
| RequestProofs.EndOfHead | src/infra/http/message/mod.rs:167-188 | the empty line reads `Content-Length`: with no body announced the request is returned at once, otherwise the machine waits in `Lf2` for that many bytes |
| RequestProofs.RunBody | src/infra/http/message/mod.rs:172-188 | exactly the announced number of body bytes is read, and the request is returned after the last one |
| RequestProofs.ParseWellFormed | src/infra/http/message/mod.rs:111-196 | a well-formed request parses into its method, path, version, header map and body, and bytes after the body stay unread |
| RequestProofs.NoHeadersRejected | src/infra/http/message/fsm.rs:21-22 | a request line followed directly by the empty line is refused, with the machine left in `Lf0` |
| RequestInvariant.StepInv | src/infra/http/message/mod.rs:122-194 | each byte keeps the accumulator invariant, and a request returned at that byte is well formed |
| RequestInvariant.RunInv | src/infra/http/message/mod.rs:122-195 | from any state meeting the invariant, a returned request is well formed |
| RequestInvariant.ParsedWellFormed | src/infra/http/message/mod.rs:111-196 | every request a call returns has three tokens, at least one header, names and values the table allows, and a body of exactly `Content-Length` bytes |
| RequestExamples.ParseRequestGet | src/infra/http/message/mod.rs:244-254 | the GET test: method `GET`, path `/`, the three curl headers, whole stream read |
| RequestExamples.CurlHeaders | src/infra/http/message/mod.rs:246 | the GET request's header map and its zero body length |
| RequestExamples.ParseRequestPost | src/infra/http/message/mod.rs:255-271 | the POST test: method `POST`, path `/user`, five headers, the 23-byte JSON body |
| RequestExamples.PostHeaders | src/infra/http/message/mod.rs:257 | the POST request's header map and its announced length 23 |
| Text.ParseU64 | src/infra/http/message/mod.rs:169 | a parsed value is below 2^64 |
| Text.ParseU64Form | src/infra/http/message/mod.rs:169 | whatever parses to `n` is an optional `+`, some zeros and the decimal form of `n`, and `n` is below 2^64 |
| Text.ParseSigned | src/infra/http/message/mod.rs:169 | conversely, an optional `+`, any number of zeros and the decimal form of a number below 2^64 parse to that number |
| Text.ParseOverflow | src/infra/http/message/mod.rs:169 | the decimal form of a number of 2^64 or more, with or without a `+` and leading zeros, is an error |
| Text.DigitsShape | src/infra/http/message/mod.rs:169 | every non-empty run of digits is leading zeros followed by the decimal form of its value |
| Text.Decimal | src/infra/http/message/mod.rs:66-71 | decimal digits without leading zeros whose value is the number |
| Text.ParseDecimal | src/infra/http/message/mod.rs:66-71 | a formatted number parses back to itself |
| Text.IndexOf | src/infra/http/form_data/mod.rs:100-102 | the first occurrence of the separator at or after a position, or none at all |
| Text.Split | src/infra/http/form_data/mod.rs:100-101 | pieces that join back to the input, none containing the separator |
| Text.SplitOnce | src/infra/http/form_data/mod.rs:102 | one or two pieces that join back to the input, the first free of the separator |
| Text.AsciiIsUtf8 | src/infra/http/form_data/mod.rs:92 | ASCII bytes are valid UTF-8 |
| Text.StripEnds | src/infra/http/form_data/mod.rs:109 | succeeds exactly for two or more bytes with both cut points on character boundaries, giving the middle; otherwise the slice panics |
| FormDataFsm.Consume | src/infra/http/form_data/fsm.rs:3-77 | the form is complete only on `EndDash` in `EndDash1`; a part is stored only on `EndDash` in `DataToBoundary`; `End` only in `EndDash2` |
| FormDataFsm.TableShape | src/infra/http/form_data/fsm.rs:6-41 | a form starts with a dash; the boundary line takes no blank; one blank after a header colon; a header is committed exactly on the `Cr` ending its value |
| FormDataFsm.DataShape | src/infra/http/form_data/fsm.rs:43-75 | the data takes every plain byte except a leading blank; the second `Cr` entry of `DataToBoundary` is shadowed; after a full boundary and a dash only a second dash is accepted |
| FormDataFsm.Cr3Unreachable | src/infra/http/form_data/fsm.rs:69-74 | no entry leads into `Cr3`, and only `Cr3` leads to `Lf3` |
| Multipart.NewPart | src/infra/http/form_data/mod.rs:13-22 | no name, file name or content type, and no data |
| Multipart.EmptyForm | src/infra/http/form_data/mod.rs:31-36 | empty boundary, no parts |
| Multipart.FormData.GetPart | src/infra/http/form_data/mod.rs:37-46 | the first part with that name, or `None` exactly when no part has it |
| Multipart.FormData.FirstNamedUnique | src/infra/http/form_data/mod.rs:37-46 | the first part with a name is unique, so the lookup's answer is determined |
| Multipart.Pairs | src/infra/http/form_data/mod.rs:100-103 | each item of a disposition value is one or two pieces |
| Multipart.Disposition | src/infra/http/form_data/mod.rs:104-120 | the pairs never change content type or data; the only failure is the quote-stripping slice |
| Multipart.ApplyHeader | src/infra/http/form_data/mod.rs:89-127 | a non-UTF-8 name fails with `InvalidUtf8`; so does a non-UTF-8 `Content-Disposition` value; `Content-Type` sets the content type; other names leave the part as it was; data never changes |
| Multipart.ApplyPairs | src/infra/http/form_data/mod.rs:104-120 | the loop over the pairs computes `Disposition` |
| Multipart.ApplyHeaderBytes | src/infra/http/form_data/mod.rs:89-127 | the header commit as written computes `ApplyHeader` |
| Multipart.PlainInput | src/infra/http/form_data/mod.rs:70-75 | a byte on its own is a plain input: `Blank` exactly for space, `Dash` exactly for `-` |
| Multipart.Symbol | src/infra/http/form_data/mod.rs:57-76 | `EndDash` exactly for a `-` after a complete boundary outside the boundary line; an index panic exactly in the data after a complete boundary when the byte is not that `-` |
| Multipart.Parse | src/infra/http/form_data/mod.rs:47-151 | the loop as written returns what `Run` gives from the start state |
| Multipart.ApplyOutput | src/infra/http/form_data/mod.rs:78-148 | one output's update of the locals equals `Effect` |
| MultipartProofs.ApplyHeaders | src/infra/http/form_data/mod.rs:89-127 | applying a part's headers in order never changes its data |
| MultipartProofs.RunExtend | src/infra/http/form_data/mod.rs:140-143 | once the parse has returned, later bytes do not change its result |
| MultipartProofs.FeedBoundaryLine | src/infra/http/form_data/fsm.rs:6-15 | the first line is captured whole as the boundary, leaving the machine in `Lf0` |
| MultipartProofs.FeedHeaderLine | src/infra/http/form_data/mod.rs:89-133 | a `name: value` line applies that header to the part |
| MultipartProofs.FeedHeaders | src/infra/http/form_data/mod.rs:89-133 | a block of header lines applies them to the part in order |
| MultipartProofs.FeedData | src/infra/http/form_data/mod.rs:64-88 | from the data states, with a partial match pending or not, bytes that together with the match neither hold the boundary nor end in a prefix of it are appended after the match, byte for byte |
| MultipartProofs.FalseStart | src/infra/http/form_data/mod.rs:64-88 | the first `k` bytes of the boundary followed by a byte that does not continue them, for any `k` below the boundary's length, all go to the data |
| MultipartProofs.NoDoubleStart | src/infra/http/form_data/mod.rs:64-88 | data in which the boundary's first byte is always followed at once by a byte other than its second is read back as sent |
| MultipartProofs.FeedMatch | src/infra/http/form_data/mod.rs:64-69 | bytes continuing the boundary are held back in the partial match, not appended |
| MultipartProofs.RunClose | src/infra/http/form_data/mod.rs:137-143 | a complete boundary and two dashes store the part and return the form |
| MultipartProofs.ParseSinglePart | src/infra/http/form_data/mod.rs:47-151 | boundary line, header lines, empty line, data and closing boundary decode into the one part with its headers applied and its data byte for byte, whatever follows; the data must not start with a blank, and after its first byte must neither hold the boundary nor end in a non-empty prefix of it |
| MultipartProofs.PendingMatchHidesClose | src/infra/http/form_data/mod.rs:64-88 | with a boundary `--x` where `x` is not a dash, data ending in `-` makes the parser read the whole body, closing boundary included, without returning a form |
| MultipartProofs.PendingMatchTruncates | src/infra/http/form_data/mod.rs:64-88 | with a boundary of two or more dashes, data ending in `-` decodes into the one part with that last dash dropped from its data |
| MultipartProofs.TruncatesFromData | src/infra/http/form_data/mod.rs:137-143 | from the data state, a boundary of dashes and three more dashes return the form with the part as it stands |
| MultipartProofs.PendingMatchRefused | src/infra/http/form_data/fsm.rs:75 | with a boundary `-x-x` where `x` is not a dash, data ending in `-x` makes the parse fail with `TransitionImpossible` |
| MultipartProofs.RefusedFromData | src/infra/http/form_data/fsm.rs:68-75 | from the data state, `-x-x` then `-x` stores the part at the first dash and is refused at the `x` after it |
| MultipartProofs.SecondPartPanics | src/infra/http/form_data/mod.rs:64-66 | after a complete boundary inside the body, any byte but `-` (so the CR of a next part) panics indexing the boundary |
| MultipartProofs.BlankFirstRejected | src/infra/http/form_data/fsm.rs:43-50 | a part whose data starts with a blank is refused |
| MultipartInvariant.StartInv | src/infra/http/form_data/mod.rs:48-53 | the start state meets the invariant |
| MultipartInvariant.StepInv | src/infra/http/form_data/mod.rs:55-148 | each byte keeps the invariant, and a form returned at that byte is well formed |
| MultipartInvariant.RunInv | src/infra/http/form_data/mod.rs:55-150 | from any state meeting the invariant, a returned form is well formed |
| MultipartInvariant.ParsedWellFormed | src/infra/http/form_data/mod.rs:47-151 | every form returned has a boundary starting with `-` and free of blanks and line breaks, and exactly one part whose data is non-empty and does not start with a blank |
| MultipartInvariant.IndexPanic | src/infra/http/form_data/mod.rs:64-66 | the index panic happens exactly in `DataToBoundary` with the whole boundary matched and a byte other than `-` |
| MultipartHeaders.SplitJoin | src/infra/http/form_data/mod.rs:100-101 | splitting joined pieces gives the pieces back when none holds the separator's first byte |
| MultipartHeaders.SplitOnceJoin | src/infra/http/form_data/mod.rs:102 | `splitn(2, "=")` cuts at the separator after a key free of it |
| MultipartHeaders.StripQuotes | src/infra/http/form_data/mod.rs:109 | removing the quotes around ASCII text gives the text |
| MultipartHeaders.PairsOfValue | src/infra/http/form_data/mod.rs:100-103 | `<kind>; name="n"; filename="f"` gives the pairs `[kind]`, `[name, "n"]`, `[filename, "f"]` |
| MultipartHeaders.DispositionNamesPart | src/infra/http/form_data/mod.rs:98-121 | such a `Content-Disposition` sets the part's name to `n` and file name to `f`, nothing else |
| MultipartHeaders.ShortParameterPanics | src/infra/http/form_data/mod.rs:105-115 | a `name` or `filename` value shorter than two bytes makes the slice panic |
| MultipartExamples.ExampleHeaders | src/infra/http/form_data/mod.rs:159-160 | the test's two headers name the part `file`, its file `aria2.conf`, content type `application/octet-stream` |
| MultipartExamples.ParseExample | src/infra/http/form_data/mod.rs:180-216 | the test's upload, with all seventeen lines (366 bytes) of the uploaded file as its data, decodes into the one part with that data |
| MultipartExamples.ExampleGetPart | src/infra/http/form_data/mod.rs:217-260 | `get_part("file")` finds that part, with the test's file name, content type and the 366 bytes of data the test expects |
| MultipartExamples.ExampleUpload | src/infra/http/form_data/mod.rs:180-260 | parsing the upload and calling `get_part("file")` on the form returns the test's part with the 366 bytes of data the test expects |

## Left out

- Connection handling is not part of this model: TLS, the worker pool, start and stop (`src/infra/https.rs`). These are I/O and concurrency.
- `consume` (`message/mod.rs:199-209`) is not part of this model. It only wires the parser to a handler and writes the response to the socket.
- The middleware, UI, command line, the older `src/infra/http/message.rs` and the circuit-breaker table in `src/infra/http/fsm.rs` are not part of this model. They lie outside the two parsers.
- Reading from the stream: a failed `read_exact` of any kind is taken to be the end of the stream.
- `Message.Response.ToBytes`: the reason phrases of `status::get_code_reason` are a parameter. That table is not part of this model.
- `Message.Response.ToBytes`: the `HashMap` iteration order is a parameter. Any order listing each name once is allowed.
- `Message.Parser.Parse`: the text the request parser builds with `char::from` is kept as bytes. A byte at or above 0x80 would become a two-byte UTF-8 character in the Rust `String`; the model does not re-encode it.
- `Message.Request.SetHeader` is a function that returns the updated request. The source updates the request in place behind `Rc<RefCell<_>>`, and that sharing is not modelled.
- Panics (an index or a slice out of bounds) are `Err` results, not process aborts.
- `MultipartProofs.ParseSinglePart` requires that the data after its first byte neither holds the boundary nor ends in a non-empty prefix of it. That condition is sufficient, not necessary: an occurrence of the boundary that starts inside a false start is missed, and the data still comes back whole. Outside the condition the round trip can fail in three ways. A complete match found inside the data panics on the next byte or closes the part early (`MultipartProofs.SecondPartPanics`). A match still pending at the end of the data can hide the close (`MultipartProofs.PendingMatchHidesClose`). Or it can join the closing boundary into a match that completes early, so that the part is stored without the pending bytes and the form is then returned truncated (`MultipartProofs.PendingMatchTruncates`) or refused (`MultipartProofs.PendingMatchRefused`). The exact set of data that round-trips is not characterised.
- Multi-part round trips are not stated. The code never returns more than one part (`MultipartInvariant.ParsedWellFormed`, `MultipartProofs.SecondPartPanics`).
