# DevelopmentKit HTTP convenience layer, modelled in Dafny

This project models the request/response decision logic of the DevelopmentKit HTTP
layer (`DevelopmentKit/Tools/HTTP.swift` and `DevelopmentKit/Tools/HTTPConvenience.swift`)
and proves what that logic promises. The logic covers:

- how an `HTTP.Body` (`.none`, `.plain`, `.json`, `.query`, `.multipart`) becomes the parameters and the
  `ParameterEncoding` of a data request (`dataRequest`), and what `PlainParameterEncoding` puts in the body;
- how `uploadRequest` assembles a multipart form (text parameters, then files);
- where a download is stored (the destination closure of both `downloadRequest` variants);
- how a completed transfer becomes an `HTTPResponse` (status fallback `statusCodeMissing = -1`, headers
  fallback `[:]`, and for downloads the UTF-8 of the final file URL in place of a body);
- how `HTTP.request` validates the JSON envelope `{errorCode, message?, data?}` into a `Payload`;
- how `HTTP.request(_:decodeDataOnly:)` converts `data` to a requested type (model array, model, value type);
- `HTTPError.message`;
- the body strings of the debug traces `printRequest` and `printResponse`.

The network transfer itself is an input. The optional `HTTPURLResponse` and the transport `Result` are
parameters, and so are the JSON parser (`parse: Bytes -> Option<Json>`) and the HandyJSON model mapping
(`deserialize: map<string, Json> -> Option<M>`). Swift does not specify the order in which it iterates a
dictionary. That order also comes in as a parameter: `order`, constrained by `HTTP.KeyOrder` to list every
key exactly once.

Modules, one per concern:

| file | module | content |
|---|---|---|
| `Wrappers.dfy` | `Wrappers` | `Option`, `Result` |
| `Utf8.dfy` | `Utf8` | UTF-8 encoding and strict decoding (section 3 of RFC 3629), both round trips |
| `Json.dfy` | `Json` | the abstract JSON value and the `as?` casts the layer uses |
| `Http.dfy` | `HTTP` | bodies, encodings, upload form assembly (a `MultipartFormData` class with a loop), destinations, response mapping |
| `HttpDebug.dfy` | `HTTPDebug` | request and response body renderings of the debug traces |
| `HttpConvenience.dfy` | `HTTPConvenience` | `Payload`, `HTTPError`, envelope decoding, typed decoding |

Behaviour of the source worth noting:

- A model array keeps the elements that map to models and drops the others (`compactMap`); the call still succeeds.
- The default download destination is moved with no options. Only a caller's destination gets
  `.createIntermediateDirectories` and `.removePreviousFile`.
- Every malformed envelope (no body, an empty body, not JSON, not an object, no `Int` `errorCode`) fails with the one message `服务器返回数据格式错误`.
- A multipart body given to `dataRequest` is silently dropped.
- `"data": null` counts as present (Foundation's `NSNull`). It therefore never fails with "data is empty"; it fails the type dispatch instead.

## Model

| member | source | states |
|---|---|---|
| `HTTP.BodyParametersDistinguish` | DevelopmentKit/Tools/HTTP.swift:42-53 | two bodies get the same (params, encoding) iff they are equal or both are `.none`/`.multipart`: nothing of a plain, json or query body is lost, all of a multipart one is |
| `HTTP.BodyParameters` | DevelopmentKit/Tools/HTTP.swift:42-53 | parameters are passed iff the body is `.json` or `.query`; the layer's plain encoding is chosen iff the body is `.plain`, carrying its text |
| `HTTP.MultipartDroppedByDataRequest` | DevelopmentKit/Tools/HTTP.swift:43-45 | a multipart request issues exactly the call of the same request without body: no parameters, `URLEncoding.default` |
| `HTTP.DataRequestCallOf` | DevelopmentKit/Tools/HTTP.swift:54-59 | `AF.request` gets the request's URL, method and headers unchanged, and the parameters and encoding chosen for its body |
| `HTTP.DownloadCallOf` | DevelopmentKit/Tools/HTTP.swift:141 | `AF.download` gets the request's URL and headers |
| `HTTP.DataRequestParameters` | DevelopmentKit/Tools/HTTP.swift:46-59 | `.plain` passes no parameters and `PlainParameterEncoding` with its text; `.json` passes its dictionary with JSON encoding; `.query` passes the same keys with their string values with `URLEncoding.httpBody`; URL, method and headers pass unchanged |
| `HTTP.DownloadIgnoresMethodAndBody` | DevelopmentKit/Tools/HTTP.swift:141 | a download passes only URL and headers; method and body make no difference |
| `HTTP.PlainEncode` | DevelopmentKit/Tools/HTTP.swift:240-243 | the encoded request keeps URL, method and headers and its body decodes as UTF-8 to exactly the text |
| `HTTP.PlainBodyIsExactText` | DevelopmentKit/Tools/HTTP.swift:240-243 | the body is exactly the UTF-8 of the text whatever parameters are passed, and empty iff the text is |
| `HTTP.ApplyEncoding` | DevelopmentKit/Tools/HTTP.swift:238-245 | an encoding of the layer's own yields a request exactly for `PlainParameterEncoding`, by `PlainEncode` |
| `HTTP.PlainRequestSendsText` | DevelopmentKit/Tools/HTTP.swift:46-47 | a `.plain` request goes out with exactly the UTF-8 of its text as body, which reads back as the text, and with URL, method and headers untouched |
| `HTTP.TextPartsShape` | DevelopmentKit/Tools/HTTP.swift:93-95 | exactly one text part per parameter. Each has the key and holds the UTF-8 of its value, which decodes back to it, with no file name or MIME type; the parts' names are exactly the parameter keys |
| `HTTP.UploadPartsShape` | DevelopmentKit/Tools/HTTP.swift:90-106 | the text parts come first, then one part per file in order. Each file part holds the file's data in memory or its URL on disk, and keeps its name, file name and MIME type |
| `HTTP.AppendTextParts` | DevelopmentKit/Tools/HTTP.swift:93-95 | the `for (key, value) in params` loop appends exactly `TextParts(params, order)` to the form |
| `HTTP.AppendFileParts` | DevelopmentKit/Tools/HTTP.swift:96-103 | the `forEach` loop appends exactly `FileParts(files)`: in-memory data as data, a file URL as a file, in order |
| `HTTP.UploadPartsOfOtherBodies` | DevelopmentKit/Tools/HTTP.swift:104-105 | a non-multipart body contributes no parts |
| `HTTP.AssembleUploadForm` | DevelopmentKit/Tools/HTTP.swift:90-106 | the loops append to the form exactly `UploadParts(body, order)` after what it held before |
| `HTTP.DefaultDestinationBesideTemporaryFile` | DevelopmentKit/Tools/HTTP.swift:145-148 | the default destination is in the temporary file's directory, named `Alamofire_` + its name, never the temporary file itself, with no options |
| `HTTP.DownloadDestination` | DevelopmentKit/Tools/HTTP.swift:141-149 | options are empty iff no destination is given; a caller's destination is asked with the last path component; the default stays under the same scheme and authority |
| `HTTP.CustomDestinationFromFileName` | DevelopmentKit/Tools/HTTP.swift:142-144 | a caller's destination is called with the temporary file's last path component alone, with both options |
| `HTTP.DataResponseMapping` | DevelopmentKit/Tools/HTTP.swift:64-74 | success iff the transport succeeded. On success the body is the received data unchanged, and status and headers come from the response (-1 and `[:]` without one). A failure is passed on unchanged |
| `HTTP.DataResponseResult` | DevelopmentKit/Tools/HTTP.swift:64-74 | success iff the transport succeeded, with the received data and the status (or its fallback); a failure keeps its error |
| `HTTP.StatusSentinelMeansNoResponse` | DevelopmentKit/Tools/HTTP.swift:253 | when real codes are never -1, the status is `statusCodeMissing` iff there was no response |
| `HTTP.DownloadBodyIsFileLocation` | DevelopmentKit/Tools/HTTP.swift:163-173 | a successful download's body decodes to the final URL's absolute string, and is nil iff there is no URL |
| `HTTP.DownloadResponseResult` | DevelopmentKit/Tools/HTTP.swift:163-173 | success iff the transport succeeded; then the status (or -1) and the response headers (or `[:]` without a response), and a body absent iff there is no file URL; a failure keeps its error |
| `HTTP.ResumedDownloadResponseResult` | DevelopmentKit/Tools/HTTP.swift:199-209 | as for a fresh download, with status and headers read from the response the force unwrap requires on success |
| `HTTP.ResumedDownloadAgrees` | DevelopmentKit/Tools/HTTP.swift:199-209 | whenever the force unwrap holds (a response on success; any failure, with or without a response), a resumed download maps like a fresh one |
| `Utf8.DecodeEncode` | DevelopmentKit/Tools/HTTP.swift:242 | the UTF-8 bytes of any text decode back to that text |
| `Utf8.EncodeDecode` | DevelopmentKit/Tools/HTTP.swift:314 | bytes that decode to a text are exactly that text's UTF-8 bytes |
| `HTTPDebug.RedactedKeys` | DevelopmentKit/Tools/HTTP.swift:283-291 | a key is shown for a multipart body iff it is a text parameter or the name of some file |
| `HTTPDebug.Redacted` | DevelopmentKit/Tools/HTTP.swift:283-291 | every parameter key stays shown, and the last file's name shows that file's placeholder |
| `HTTPDebug.RedactedUntouched` | DevelopmentKit/Tools/HTTP.swift:283-291 | a text parameter that no file is named after is shown with its own value |
| `HTTPDebug.RedactedLastFileWins` | DevelopmentKit/Tools/HTTP.swift:284-291 | under a file's name stands the placeholder of the last file of that name (`Data方式…` for in-memory data, `URL方式…` for a file URL), over any parameter of that name |
| `HTTPDebug.RedactMultipartFields` | DevelopmentKit/Tools/HTTP.swift:283-291 | the `forEach` loop computes `Redacted(params, files)` |
| `HTTPDebug.RequestBodyString` | DevelopmentKit/Tools/HTTP.swift:267-296 | the body string closure computes `RenderRequestBody` for every body kind: `"null"`, the text, the parameters, the query string or the redacted fields |
| `HTTPDebug.RenderRequestBody` | DevelopmentKit/Tools/HTTP.swift:267-296 | `.none` shows `"null"`, `.plain` its text, `.json` its own parameters pretty-printed; pretty-printed JSON iff the body is `.json` or `.multipart` |
| `HTTPDebug.QueryRendering` | DevelopmentKit/Tools/HTTP.swift:277-281 | a query renders as the `&`-join of one `key=value` piece per key, as many pieces as keys, every key present with its own value |
| `HTTPDebug.QueryRenderingSplits` | DevelopmentKit/Tools/HTTP.swift:277-281 | when no key or value contains `&`, splitting the rendered query at `&` gives exactly the pieces back |
| `HTTPDebug.MultipartRendering` | DevelopmentKit/Tools/HTTP.swift:282-294 | the rendered multipart fields are the text parameters with every file's name overwritten by its kind's placeholder, the last file winning |
| `HTTPDebug.TraceMatchesEnvelope` | DevelopmentKit/Tools/HTTP.swift:302-323 | the response trace shows the envelope's status and headers. It shows `"null"` for an absent or empty body, and the error's description or its fixed fallback on failure |
| `HTTPDebug.RenderResponseBody` | DevelopmentKit/Tools/HTTP.swift:308-319 | `"null"` for no body or an empty one; a non-empty body is shown as JSON iff it parses, else as its UTF-8 text, else as the marker `body数据存在但无法转为字符串或JSON` |
| `HTTPDebug.ResponseTraceOf` | DevelopmentKit/Tools/HTTP.swift:301-325 | a completed trace iff the transfer succeeded, always with the request's URL; it shows the status with its fallback and the headers |
| `HTTPDebug.DownloadTraceShowsLocation` | DevelopmentKit/Tools/HTTP.swift:154-161 | a download's trace shows the file location as text (or `"null"` if it is empty) when it does not parse as JSON |
| `HTTPConvenience.MessageOfError` | DevelopmentKit/Tools/HTTPConvenience.swift:114-121 | a decode error's message verbatim; a transport error's description, or `alamofire未返回错误说明` |
| `HTTPConvenience.Message` | DevelopmentKit/Tools/HTTPConvenience.swift:114-121 | a decode error shows its message; a transport error without description the fixed fallback |
| `HTTPConvenience.MessageIdentifiesFailure` | DevelopmentKit/Tools/HTTPConvenience.swift:79-97 | the message of a failed typed decoding tells which check failed: "data is empty" iff `data` is missing, each model message iff that type was requested, and the last message names exactly the requested value type |
| `HTTPConvenience.RequestDecodesEnvelope` | DevelopmentKit/Tools/HTTPConvenience.swift:34-44 | success iff the body is present, non-empty, a JSON object and has an `Int` `errorCode`; otherwise the one fixed decode error. The payload holds that errorCode, `message` iff it is a string, and `data` as it stands |
| `HTTPConvenience.EnvelopeOf` | DevelopmentKit/Tools/HTTPConvenience.swift:34-39 | an envelope only comes from a present, non-empty body that parses to a JSON object with an `Int` `errorCode`, which it records |
| `HTTPConvenience.PayloadOf` | DevelopmentKit/Tools/HTTPConvenience.swift:43 | the payload holds the envelope's errorCode, a message iff `message` is a string, and data iff `data` is present |
| `HTTPConvenience.Request` | DevelopmentKit/Tools/HTTPConvenience.swift:24-50 | success iff the transport succeeded and the body is an envelope, handing back the response itself; a non-envelope gives the fixed decode error |
| `HTTPConvenience.TransportFailureWrapped` | DevelopmentKit/Tools/HTTPConvenience.swift:45-46 | in both overloads a transport failure becomes exactly `.alamofire(error)`, and `.alamofire` arises from nothing else |
| `HTTPConvenience.DecodeDataOutcome` | DevelopmentKit/Tools/HTTPConvenience.swift:78-98 | missing data fails first with "data is empty". Then each requested type has its own success condition and result: model array iff data is an array, holding the elements that map; model iff data is a dictionary that maps; value iff the cast succeeds, unchanged. Each failure has its own fixed message, the last naming the type |
| `HTTPConvenience.DecodeData` | DevelopmentKit/Tools/HTTPConvenience.swift:78-98 | failures are decode errors; a success needs `data` and has the requested shape |
| `HTTPConvenience.RequestDecodeDataOnly` | DevelopmentKit/Tools/HTTPConvenience.swift:58-105 | an `.alamofire` error iff the transport failed; a non-envelope gives the fixed decode error; a valid envelope gives the typed dispatch `DecodeData` of its payload's `data` |
| `HTTPConvenience.ModelFrom` | DevelopmentKit/Tools/HTTPConvenience.swift:88-93 | a model only comes from a dictionary that maps to it |
| `HTTPConvenience.ModelListFrom` | DevelopmentKit/Tools/HTTPConvenience.swift:82-85 | a list of candidate models iff `data` is an array, one per element, present iff that element is a dictionary that maps |
| `HTTPConvenience.CompactMapKeeps` | DevelopmentKit/Tools/HTTPConvenience.swift:86 | compactMap keeps a value iff it is present in the input. It loses nothing iff every element is present, and then returns the values position for position |
| `HTTPConvenience.CompactMap` | DevelopmentKit/Tools/HTTPConvenience.swift:86 | never longer than the input |
| `HTTPConvenience.CompactMapAppend` | DevelopmentKit/Tools/HTTPConvenience.swift:86 | compactMap of a concatenation is the concatenation of the compactMaps (order is kept) |
| `HTTPConvenience.ModelListOrder` | DevelopmentKit/Tools/HTTPConvenience.swift:82-87 | the models of `xs + ys` are those of `xs` then those of `ys`; with all elements mapping, the models correspond position for position |
| `HTTPConvenience.FailedElementDropped` | DevelopmentKit/Tools/HTTPConvenience.swift:83-86 | an element that does not map is dropped, and the call still succeeds with fewer models |
| `HTTPConvenience.TypedRequestIgnoresErrorCode` | DevelopmentKit/Tools/HTTPConvenience.swift:69-81 | envelopes differing only in `errorCode` decode the same; the typed overload fails with "data is empty" iff the envelope has no `data` (JSON `null` counts as present) |
| `HTTPConvenience.TypedRequestNeedsEnvelope` | DevelopmentKit/Tools/HTTPConvenience.swift:69-74 | the typed overload fails with the malformed-envelope error iff the first overload fails on the same response |
| `HTTPConvenience.ScenarioSingleModel` | DevelopmentKit/Tools/HTTPConvenience.swift:34-93 | `{"errorCode":0,"message":"ok","data":{...}}` gives `Payload(0, "ok", data)` and, as a model, the mapped model |
| `HTTPConvenience.ScenarioModelList` | DevelopmentKit/Tools/HTTPConvenience.swift:82-87 | `data: [{"id":1},{"id":2}]` as a model array gives both models in order |
| `HTTPConvenience.ScenarioMissingErrorCode` | DevelopmentKit/Tools/HTTPConvenience.swift:34-38 | `{"message":"no code"}` is the malformed-envelope error |
| `HTTPConvenience.ScenarioEmptyBody` | DevelopmentKit/Tools/HTTPConvenience.swift:34-38 | a 204 with no or empty body is a raw success but an envelope decode error |

## Left out

- The Alamofire calls (`AF.request`, `AF.upload`, `AF.download`, resuming), their asynchrony, progress handlers, cancellation and `requestModifier`: network I/O in a library outside the repository. The model starts where each completion closure starts.
- What `URLEncoding` and `JSONEncoding` write on the wire: Alamofire's code. The model stops at which encoding and which parameters are chosen.
- `JSONSerialization` parsing and pretty-printing: Foundation. Parsing is the `parse` parameter, and a pretty-printed rendering is kept as the JSON value (`PrettyJSON`).
- The `try!` crashes in `printRequest` for values that cannot be serialised: the abstract JSON value is always serialisable.
- The request line and header lines of `printRequest`: printing only. The `#if DEBUG` switch is also left out (the resumed download prints nothing).
- HandyJSON's reflection-based mapping: the `deserialize` parameter. `[M].deserialize(from:)` is modelled as "each element mapped if it is a dictionary".
- AsInt: Foundation's `NSNumber` bridging also lets `as? Int` accept `true`/`false` and integral doubles. The model accepts only integer literals within Swift's 64-bit `Int` range.
- CastSucceeds: the same bridging between `Bool`, `Int` and `Double` is not modelled. Each value type accepts only its own kind of JSON value.
- Requested types the model does not cover: integer and floating-point types other than `Int` and `Double` (`Float`, `Int32`, …), element-typed arrays and dictionaries (`[String]`, `[String: Int]`, …), and anything outside the documented set (models, model arrays, booleans, integers, floats, strings, arrays, dictionaries), which the source calls undefined. The model offers `Bool`, `Int`, `Double`, `String`, `[Any]` and `[String: Any]`.
- Swift compares `String`s and looks up `[String: _]` keys by canonical equivalence; the model compares keys as sequences of scalars. So a file named `e` + U+0301 and a parameter named `é` are one key in `printRequest`'s field list (HTTP.swift:283-291) but two in `HTTPDebug.Redacted`; the same holds for every dictionary of the model (query parameters, headers, JSON objects). Unicode normalisation is not modelled.
- `allHeaderFields as? [String: Any]`: header fields are modelled as a string dictionary, so the cast always succeeds.
- `String(data:encoding:)` is modelled as strict UTF-8 decoding, and `data(using: .utf8)` as UTF-8 encoding. Foundation's handling of a byte-order mark is not modelled.
- URL: only what the destination closure uses. Path components are opaque strings. Percent-encoding in `absoluteString`, a trailing slash on directory URLs, and a component containing `/` are not modelled. The file system effects of the destination options are not modelled either.
- `asURLRequest()` throwing in `PlainParameterEncoding.encode`: `PlainEncode` takes the `URLRequest` directly.
- `DevelopmentKit/Utils/Foundation/Autorelease.swift` (object lifetime), the UIKit files, `Macros.swift` and `MediaBrowserItemModel.swift`: no request/response logic.
