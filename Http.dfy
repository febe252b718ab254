/** The request/response decisions of the HTTP convenience layer (`HTTP.swift`): which
    parameters and which encoding a request body turns into, how the form of an upload
    is assembled, where a download is stored, and how a completed transfer becomes an
    `HTTPResponse`. The network calls themselves are not modelled: their outcome is an
    input (an optional `HTTPURLResponse` and a `Result`). */
module HTTP {
  import opened Wrappers
  import opened Utf8
  import opened Json

  // ---------------------------------------------------------------------------
  // Requests

  /** Alamofire's `HTTPMethod`, a wrapper around the method's name. */
  datatype Method = Method(rawValue: string)

  /** A file URL: its scheme and authority (`"file://"`) and its path components. */
  datatype URL = URL(base: string, path: seq<string>)

  /** A file of an upload: in memory (`.fileData`, file name and MIME type optional)
      or on disk (`.fileURL`, both required). */
  datatype UploadFileModel =
    | FileData(data: Bytes, name: string, fileName: Option<string>, mimeType: Option<string>)
    | FileURL(url: URL, name: string, fileNameOnDisk: string, mimeTypeOnDisk: string)
  {
    /** The file name the part declares, whichever way the file is given. */
    function DeclaredFileName(): Option<string> {
      match this
      case FileData(_, _, fileName, _) => fileName
      case FileURL(_, _, fileName, _) => Some(fileName)
    }

    /** The MIME type the part declares, whichever way the file is given. */
    function DeclaredMimeType(): Option<string> {
      match this
      case FileData(_, _, _, mimeType) => mimeType
      case FileURL(_, _, _, mimeType) => Some(mimeType)
    }
  }

  /** `HTTP.Body`: `.none`, `.plain`, `.json`, `.query` and `.multipart`. */
  datatype Body =
    | NoBody
    | Plain(text: string)
    | JSONParams(json: map<string, Json>)
    | Query(query: map<string, string>)
    | Multipart(params: map<string, string>, files: seq<UploadFileModel>)

  /** What a conforming `HTTPRequest` provides. */
  datatype HTTPRequest = HTTPRequest(httpMethod: Method, url: string, headers: map<string, string>, body: Body)

  /** The `ParameterEncoding` handed to Alamofire: `URLEncoding.default` (query string
      for GET-like methods), `URLEncoding.httpBody`, `JSONEncoding.default`, or the
      layer's own `PlainParameterEncoding`. */
  datatype ParameterEncoding =
    | URLEncodingDefault
    | URLEncodingHTTPBody
    | JSONEncodingDefault
    | PlainParameterEncoding(text: string)

  /** The `(params, encoding)` pair `dataRequest` chooses for a body. A multipart body
      has nowhere to go in a data request and is treated like no body at all. */
  function BodyParameters(body: Body): (r: (Option<map<string, Json>>, ParameterEncoding))
    ensures r.0.Some? <==> body.JSONParams? || body.Query?
    ensures r.1.PlainParameterEncoding? <==> body.Plain?
    ensures body.Plain? ==> r.1.text == body.text
  {
    match body
    case NoBody => (None, URLEncodingDefault)
    case Multipart(_, _) => (None, URLEncodingDefault)
    case Plain(text) => (None, PlainParameterEncoding(text))
    case JSONParams(params) => (Some(params), JSONEncodingDefault)
    case Query(params) => (Some(StringObject(params)), URLEncodingHTTPBody)
  }

  /** The arguments of the `AF.request` call that `dataRequest` makes. */
  datatype DataRequestCall = DataRequestCall(
    url: string, httpMethod: Method, parameters: Option<map<string, Json>>,
    encoding: ParameterEncoding, headers: map<string, string>)

  function DataRequestCallOf(request: HTTPRequest): (r: DataRequestCall)
    ensures r.url == request.url && r.httpMethod == request.httpMethod && r.headers == request.headers
    ensures (r.parameters, r.encoding) == BodyParameters(request.body)
  {
    var (params, encoding) := BodyParameters(request.body);
    DataRequestCall(request.url, request.httpMethod, params, encoding, request.headers)
  }

  /** The arguments of the `AF.download` call that `downloadRequest` makes: only the
      URL and the headers; Alamofire's own defaults (GET, no parameters) fill the rest. */
  datatype DownloadCall = DownloadCall(url: string, headers: map<string, string>)

  function DownloadCallOf(request: HTTPRequest): (r: DownloadCall)
    ensures r.url == request.url && r.headers == request.headers
  {
    DownloadCall(request.url, request.headers)
  }

  /** A string-valued dictionary is recovered from its JSON object form. */
  lemma StringObjectInjective(p: map<string, string>, q: map<string, string>)
    requires StringObject(p) == StringObject(q)
    ensures p == q
  {
    assert p.Keys == q.Keys;
    forall k | k in p ensures p[k] == q[k] {
      assert StringObject(p)[k] == JString(p[k]);
      assert StringObject(q)[k] == JString(q[k]);
    }
  }

  /** Two bodies give `dataRequest` the same parameters and encoding exactly when they
      are the same body, or both are among `.none` and `.multipart`: the encoding
      loses nothing of a `.plain`, `.json` or `.query` body and all of a multipart one. */
  lemma BodyParametersDistinguish(b1: Body, b2: Body)
    ensures BodyParameters(b1) == BodyParameters(b2) <==>
              b1 == b2 || ((b1.NoBody? || b1.Multipart?) && (b2.NoBody? || b2.Multipart?))
  {
    if BodyParameters(b1) == BodyParameters(b2) && b1.Query? && b2.Query? {
      StringObjectInjective(b1.query, b2.query);
    }
  }

  /** A multipart body never reaches a data request: `dataRequest` issues exactly the
      call it would issue for the same request without a body. */
  lemma MultipartDroppedByDataRequest(request: HTTPRequest)
    requires request.body.Multipart?
    ensures DataRequestCallOf(request) == DataRequestCallOf(request.(body := NoBody))
    ensures DataRequestCallOf(request).parameters == None
    ensures DataRequestCallOf(request).encoding == URLEncodingDefault
  {
  }

  /** A `.plain` body passes no parameters and its text in the layer's own encoding;
      a `.json` body passes its dictionary as is with JSON encoding; a `.query` body
      passes the same keys with their string values, encoded into the HTTP body. */
  lemma DataRequestParameters(request: HTTPRequest)
    ensures request.body.Plain? ==>
              DataRequestCallOf(request).parameters == None &&
              DataRequestCallOf(request).encoding == PlainParameterEncoding(request.body.text)
    ensures request.body.JSONParams? ==>
              DataRequestCallOf(request).parameters == Some(request.body.json) &&
              DataRequestCallOf(request).encoding == JSONEncodingDefault
    ensures request.body.Query? ==>
              DataRequestCallOf(request).parameters.Some? &&
              DataRequestCallOf(request).parameters.value.Keys == request.body.query.Keys &&
              (forall k :: k in request.body.query ==>
                 DataRequestCallOf(request).parameters.value[k] == JString(request.body.query[k])) &&
              DataRequestCallOf(request).encoding == URLEncodingHTTPBody
    ensures DataRequestCallOf(request).url == request.url
    ensures DataRequestCallOf(request).httpMethod == request.httpMethod
    ensures DataRequestCallOf(request).headers == request.headers
  {
  }

  /** A download sends only the URL and the headers: the method and the body of the
      request make no difference to it. */
  lemma DownloadIgnoresMethodAndBody(request: HTTPRequest, m: Method, body: Body)
    ensures DownloadCallOf(request.(httpMethod := m, body := body)) == DownloadCallOf(request)
  {
  }

  // ---------------------------------------------------------------------------
  // PlainParameterEncoding

  /** The part of Foundation's `URLRequest` that an encoding touches. */
  datatype URLRequest = URLRequest(url: string, httpMethod: Method, headers: map<string, string>, httpBody: Option<Bytes>)

  /** `PlainParameterEncoding.encode`: the request with its body set to the UTF-8 bytes
      of the text; whatever parameters are passed are ignored. */
  function PlainEncode(text: string, request: URLRequest, parameters: Option<map<string, Json>>): (r: URLRequest)
    ensures r.url == request.url && r.httpMethod == request.httpMethod && r.headers == request.headers
    ensures r.httpBody.Some? && Decode(r.httpBody.value) == Some(text)
  {
    DecodeEncode(text);
    request.(httpBody := Some(Encode(text)))
  }

  /** The plain body is exactly the text, with nothing around it and nothing taken
      from the parameters. */
  lemma PlainBodyIsExactText(text: string, request: URLRequest, p1: Option<map<string, Json>>, p2: Option<map<string, Json>>)
    ensures PlainEncode(text, request, p1) == PlainEncode(text, request, p2)
    ensures PlainEncode(text, request, p1).httpBody == Some(Encode(text))
    ensures PlainEncode(text, request, p1).httpBody.value == [] <==> text == []
  {
    EncodeEmpty(text);
  }

  /** What an encoding the layer defines does to a request: `PlainParameterEncoding`
      sets the body to its text; Alamofire's own encodings are not part of this model. */
  function ApplyEncoding(encoding: ParameterEncoding, request: URLRequest, parameters: Option<map<string, Json>>): (r: Option<URLRequest>)
    ensures r.Some? <==> encoding.PlainParameterEncoding?
  {
    match encoding
    case PlainParameterEncoding(text) => Some(PlainEncode(text, request, parameters))
    case _ => None
  }

  /** A `.plain` request reaches the wire with exactly the UTF-8 of its text as body,
      which reads back as that text, and with URL, method and headers untouched. */
  lemma PlainRequestSendsText(request: HTTPRequest, urlRequest: URLRequest)
    requires request.body.Plain?
    ensures var call := DataRequestCallOf(request);
      var sent := ApplyEncoding(call.encoding, urlRequest, call.parameters);
      && sent.Some?
      && sent.value.httpBody == Some(Encode(request.body.text))
      && Decode(sent.value.httpBody.value) == Some(request.body.text)
      && sent.value.url == urlRequest.url && sent.value.headers == urlRequest.headers
      && sent.value.httpMethod == urlRequest.httpMethod
  {
    PlainBodyIsExactText(request.body.text, urlRequest, None, None);
  }

  // ---------------------------------------------------------------------------
  // Upload form assembly

  /** Where a part's bytes come from. */
  datatype PartContent = InMemory(data: Bytes) | OnDisk(url: URL)

  /** One part of a multipart form, as Alamofire's `MultipartFormData.append` records it. */
  datatype FormPart = FormPart(content: PartContent, name: string, fileName: Option<string>, mimeType: Option<string>)

  /** `order` lists every key of `m` exactly once: the order in which Swift happens to
      iterate a dictionary, which the language leaves unspecified. */
  predicate KeyOrder<V>(order: seq<string>, m: map<string, V>)
  {
    && (forall i, j :: 0 <= i < j < |order| ==> order[i] != order[j])
    && (forall i :: 0 <= i < |order| ==> order[i] in m)
    && (forall k :: k in m ==> k in order)
  }

  lemma {:induction false} DistinctCardinality(s: seq<string>)
    requires forall i, j :: 0 <= i < j < |s| ==> s[i] != s[j]
    ensures |set x | x in s| == |s|
  {
    if s != [] {
      DistinctCardinality(s[1..]);
      assert (set x | x in s) == {s[0]} + (set x | x in s[1..]);
      assert s[0] !in (set x | x in s[1..]);
    }
  }

  /** An enumeration of a dictionary's keys has as many entries as the dictionary. */
  lemma KeyOrderLength<V>(order: seq<string>, m: map<string, V>)
    requires KeyOrder(order, m)
    ensures |order| == |m|
  {
    DistinctCardinality(order);
    assert (set x | x in order) == m.Keys;
  }

  /** The text part of one parameter: its value's UTF-8 bytes under its key. */
  function TextPart(params: map<string, string>, key: string): (r: FormPart)
    requires key in params
  {
    FormPart(InMemory(Encode(params[key])), key, None, None)
  }

  /** The part of one file: its data or its URL, with the name, file name and MIME type
      it declares. */
  function FilePart(file: UploadFileModel): (r: FormPart)
  {
    match file
    case FileData(data, name, fileName, mimeType) => FormPart(InMemory(data), name, fileName, mimeType)
    case FileURL(url, name, fileName, mimeType) => FormPart(OnDisk(url), name, Some(fileName), Some(mimeType))
  }

  function TextParts(params: map<string, string>, order: seq<string>): (r: seq<FormPart>)
    requires forall i :: 0 <= i < |order| ==> order[i] in params
  {
    seq(|order|, i requires 0 <= i < |order| => TextPart(params, order[i]))
  }

  function FileParts(files: seq<UploadFileModel>): (r: seq<FormPart>)
  {
    seq(|files|, i requires 0 <= i < |files| => FilePart(files[i]))
  }

  /** The parts `uploadRequest` appends for a body: for a multipart body its text
      parameters (in dictionary order), then its files (in list order); nothing for
      any other body. */
  function UploadParts(body: Body, order: seq<string>): (r: seq<FormPart>)
    requires body.Multipart? ==> KeyOrder(order, body.params)
  {
    match body
    case Multipart(params, files) => TextParts(params, order) + FileParts(files)
    case _ => []
  }

  /** The text parts: one per parameter, under its key, holding the UTF-8 of its
      value and no file name or MIME type; their names are exactly the keys. */
  lemma TextPartsShape(params: map<string, string>, order: seq<string>)
    requires KeyOrder(order, params)
    ensures var parts := TextParts(params, order);
      && |parts| == |params|
      && (forall i :: 0 <= i < |parts| ==>
            parts[i].name in params && parts[i].fileName.None? && parts[i].mimeType.None? &&
            parts[i].content == InMemory(Encode(params[parts[i].name])) &&
            Decode(parts[i].content.data) == Some(params[parts[i].name]))
      && (set i | 0 <= i < |parts| :: parts[i].name) == params.Keys
  {
    KeyOrderLength(order, params);
    var parts := TextParts(params, order);
    forall i | 0 <= i < |parts|
      ensures Decode(parts[i].content.data) == Some(params[parts[i].name])
    {
      DecodeEncode(params[order[i]]);
    }
    forall k | k in params ensures k in (set i | 0 <= i < |parts| :: parts[i].name) {
      var i :| 0 <= i < |order| && order[i] == k;
      assert parts[i].name == k;
    }
  }

  /** The form of an upload has one text part per parameter followed by one part per
      file, in the files' order; each text part carries its key and the UTF-8 of its
      value, and each file part keeps the file's name, file name and MIME type. */
  lemma UploadPartsShape(params: map<string, string>, files: seq<UploadFileModel>, order: seq<string>)
    requires KeyOrder(order, params)
    ensures var parts := UploadParts(Multipart(params, files), order);
      && |parts| == |params| + |files|
      && parts[..|params|] == TextParts(params, order)
      && (forall j :: 0 <= j < |files| ==>
            parts[|params| + j] == FilePart(files[j]) &&
            parts[|params| + j].content == (if files[j].FileData? then InMemory(files[j].data) else OnDisk(files[j].url)) &&
            parts[|params| + j].name == files[j].name &&
            parts[|params| + j].fileName == files[j].DeclaredFileName() &&
            parts[|params| + j].mimeType == files[j].DeclaredMimeType())
  {
    KeyOrderLength(order, params);
    var parts := UploadParts(Multipart(params, files), order);
    assert parts == TextParts(params, order) + FileParts(files);
    forall j | 0 <= j < |files|
      ensures parts[|params| + j] == FilePart(files[j])
    {
      assert parts[|params| + j] == FileParts(files)[j];
    }
  }

  /** Only a multipart body contributes parts to an upload. */
  lemma UploadPartsOfOtherBodies(body: Body, order: seq<string>)
    requires !body.Multipart?
    ensures UploadParts(body, order) == []
  {
  }

  /** Alamofire's `MultipartFormData`, as far as the layer uses it: the list of parts
      appended so far. */
  class MultipartFormData {
    var parts: seq<FormPart>

    constructor ()
      ensures parts == []
    {
      parts := [];
    }

    /** `append(_ data: Data, withName:fileName:mimeType:)`. */
    method AppendData(data: Bytes, name: string, fileName: Option<string>, mimeType: Option<string>)
      modifies this
      ensures parts == old(parts) + [FormPart(InMemory(data), name, fileName, mimeType)]
    {
      parts := parts + [FormPart(InMemory(data), name, fileName, mimeType)];
    }

    /** `append(_ fileURL: URL, withName:fileName:mimeType:)`. */
    method AppendFile(url: URL, name: string, fileName: string, mimeType: string)
      modifies this
      ensures parts == old(parts) + [FormPart(OnDisk(url), name, Some(fileName), Some(mimeType))]
    {
      parts := parts + [FormPart(OnDisk(url), name, Some(fileName), Some(mimeType))];
    }
  }

  /** The `for (key, value) in params` loop of `uploadRequest`. */
  method AppendTextParts(params: map<string, string>, order: seq<string>, formData: MultipartFormData)
    requires forall i :: 0 <= i < |order| ==> order[i] in params
    modifies formData
    ensures formData.parts == old(formData.parts) + TextParts(params, order)
  {
    for i := 0 to |order|
      invariant formData.parts == old(formData.parts) + TextParts(params, order[..i])
    {
      assert TextParts(params, order[..i + 1]) == TextParts(params, order[..i]) + [TextPart(params, order[i])];
      formData.AppendData(Encode(params[order[i]]), order[i], None, None);
    }
    assert order[..|order|] == order;
  }

  /** The `files.forEach` loop of `uploadRequest`. */
  method AppendFileParts(files: seq<UploadFileModel>, formData: MultipartFormData)
    modifies formData
    ensures formData.parts == old(formData.parts) + FileParts(files)
  {
    for j := 0 to |files|
      invariant formData.parts == old(formData.parts) + FileParts(files[..j])
    {
      assert FileParts(files[..j + 1]) == FileParts(files[..j]) + [FilePart(files[j])];
      match files[j] {
        case FileData(data, name, fileName, mimeType) =>
          formData.AppendData(data, name, fileName, mimeType);
        case FileURL(url, name, fileName, mimeType) =>
          formData.AppendFile(url, name, fileName, mimeType);
      }
    }
    assert files[..|files|] == files;
  }

  /** The `multipartFormData` closure of `uploadRequest`: a text part per parameter,
      visited in dictionary order, then a part per file; nothing for other bodies. */
  method AssembleUploadForm(body: Body, order: seq<string>, formData: MultipartFormData)
    requires body.Multipart? ==> KeyOrder(order, body.params)
    modifies formData
    ensures formData.parts == old(formData.parts) + UploadParts(body, order)
  {
    match body
    case Multipart(params, files) =>
      ghost var before := formData.parts;
      AppendTextParts(params, order, formData);
      ghost var texts := formData.parts;
      AppendFileParts(files, formData);
      assert formData.parts == texts + FileParts(files);
      assert texts == before + TextParts(params, order);
      assert formData.parts == before + (TextParts(params, order) + FileParts(files));
    case _ =>
  }

  // ---------------------------------------------------------------------------
  // Download destination

  /** The path of a URL as its absolute string spells it. */
  function PathString(path: seq<string>): (r: string)
  {
    if path == [] then "" else "/" + path[0] + PathString(path[1..])
  }

  function AbsoluteString(u: URL): (r: string)
  {
    u.base + PathString(u.path)
  }

  /** Foundation's `lastPathComponent` (`"/"` for a URL without path components). */
  function LastPathComponent(u: URL): (r: string)
  {
    if u.path == [] then "/" else u.path[|u.path| - 1]
  }

  /** Foundation's `deletingLastPathComponent()`, the directory a file URL lies in. */
  function DeletingLastPathComponent(u: URL): (r: URL)
  {
    if u.path == [] then u else u.(path := u.path[..|u.path| - 1])
  }

  function AppendingPathComponent(u: URL, component: string): (r: URL)
  {
    u.(path := u.path + [component])
  }

  /** `DownloadRequest.Options`. */
  datatype DestinationOption = CreateIntermediateDirectories | RemovePreviousFile

  const DefaultFileNamePrefix: string := "Alamofire_"

  /** The destination closure of both `downloadRequest` variants: a caller's
      destination is asked for the URL of the temporary file's name, and the file is
      moved there over any previous file, creating directories; without one, it goes
      next to the temporary file, under the same name prefixed with `Alamofire_`, with
      no options. */
  function DownloadDestination(temporaryURL: URL, destination: Option<string -> URL>): (r: (URL, set<DestinationOption>))
    ensures r.1 == {} <==> destination.None?
    ensures destination.Some? ==> r.0 == destination.value(LastPathComponent(temporaryURL))
    ensures destination.None? ==> r.0.base == temporaryURL.base
  {
    match destination
    case Some(f) =>
      (f(LastPathComponent(temporaryURL)), {CreateIntermediateDirectories, RemovePreviousFile})
    case None =>
      var fileName := DefaultFileNamePrefix + LastPathComponent(temporaryURL);
      (AppendingPathComponent(DeletingLastPathComponent(temporaryURL), fileName), {})
  }

  /** The default destination lies in the temporary file's directory, is named
      `Alamofire_` followed by the temporary file's name, and is never the temporary
      file itself. */
  lemma DefaultDestinationBesideTemporaryFile(temporaryURL: URL)
    ensures var (dest, options) := DownloadDestination(temporaryURL, None);
      && DeletingLastPathComponent(dest) == DeletingLastPathComponent(temporaryURL)
      && LastPathComponent(dest) == "Alamofire_" + LastPathComponent(temporaryURL)
      && dest != temporaryURL
      && options == {}
  {
    var dest := DownloadDestination(temporaryURL, None).0;
    var dir := DeletingLastPathComponent(temporaryURL);
    assert dest.path[..|dest.path| - 1] == dir.path;
    if temporaryURL.path != [] {
      assert |LastPathComponent(dest)| > |LastPathComponent(temporaryURL)|;
    }
  }

  /** A caller's destination decides the URL from the temporary file's last path
      component alone, and the move replaces a previous file and creates directories. */
  lemma CustomDestinationFromFileName(t1: URL, t2: URL, f: string -> URL)
    requires LastPathComponent(t1) == LastPathComponent(t2)
    ensures DownloadDestination(t1, Some(f)) == DownloadDestination(t2, Some(f))
    ensures DownloadDestination(t1, Some(f)).0 == f(LastPathComponent(t1))
    ensures DownloadDestination(t1, Some(f)).1 == {CreateIntermediateDirectories, RemovePreviousFile}
  {
  }

  // ---------------------------------------------------------------------------
  // Responses

  /** Foundation's `HTTPURLResponse`, with its header fields as a string dictionary. */
  datatype HTTPURLResponse = HTTPURLResponse(statusCode: int, headerFields: map<string, string>)

  /** Alamofire's `AFError`: an opaque cause and its optional `errorDescription`. */
  datatype AFError = AFError(cause: string, errorDescription: Option<string>)

  /** The response envelope every operation delivers. */
  datatype HTTPResponse = HTTPResponse(statusCode: int, headers: map<string, string>, body: Option<Bytes>)

  /** `HTTP.statusCodeMissing`, the status reported when there is no response. */
  const StatusCodeMissing: int := -1

  function StatusCodeOf(response: Option<HTTPURLResponse>): (r: int)
  {
    match response
    case Some(r) => r.statusCode
    case None => StatusCodeMissing
  }

  function HeadersOf(response: Option<HTTPURLResponse>): (r: map<string, string>)
  {
    match response
    case Some(r) => r.headerFields
    case None => map[]
  }

  /** The completion mapping of `dataRequest` and `uploadRequest`. */
  function DataResponseResult(response: Option<HTTPURLResponse>, result: Result<Option<Bytes>, AFError>): (r: Result<HTTPResponse, AFError>)
    ensures r.Success? <==> result.Success?
    ensures r.Success? ==> r.value.body == result.value && r.value.statusCode == StatusCodeOf(response)
    ensures r.Failure? ==> r.error == result.error
  {
    match result
    case Success(data) => Success(HTTPResponse(StatusCodeOf(response), HeadersOf(response), data))
    case Failure(error) => Failure(error)
  }

  /** What a download delivers as body: the UTF-8 of the final file URL's absolute
      string, not the file's contents. */
  function DownloadedBody(fileURL: Option<URL>): (r: Option<Bytes>)
  {
    match fileURL
    case Some(u) => Some(Encode(AbsoluteString(u)))
    case None => None
  }

  /** The completion mapping of `downloadRequest(_:to:...)`. */
  function DownloadResponseResult(response: Option<HTTPURLResponse>, result: Result<Option<URL>, AFError>): (r: Result<HTTPResponse, AFError>)
    ensures r.Success? <==> result.Success?
    ensures r.Success? ==> r.value.statusCode == StatusCodeOf(response) && (r.value.body.None? <==> result.value.None?)
    ensures r.Success? ==> (response.Some? ==> r.value.headers == response.value.headerFields) &&
                           (response.None? ==> r.value.headers == map[])
    ensures r.Failure? ==> r.error == result.error
  {
    match result
    case Success(fileURL) => Success(HTTPResponse(StatusCodeOf(response), HeadersOf(response), DownloadedBody(fileURL)))
    case Failure(error) => Failure(error)
  }

  /** The completion mapping of `downloadRequest(with:to:...)`, which force-unwraps the
      response on success: a successful resumed download must come with one. */
  function ResumedDownloadResponseResult(response: Option<HTTPURLResponse>, result: Result<Option<URL>, AFError>): (r: Result<HTTPResponse, AFError>)
    requires result.Success? ==> response.Some?
    ensures r.Success? <==> result.Success?
    ensures r.Success? ==> r.value.statusCode == response.value.statusCode && (r.value.body.None? <==> result.value.None?)
    ensures r.Success? ==> r.value.headers == response.value.headerFields
    ensures r.Failure? ==> r.error == result.error
  {
    match result
    case Success(fileURL) => Success(HTTPResponse(response.value.statusCode, HeadersOf(response), DownloadedBody(fileURL)))
    case Failure(error) => Failure(error)
  }

  /** A data or upload transfer succeeds exactly when the transport did; then the
      envelope holds the received data unchanged, the real status code (the sentinel
      -1 when no response exists) and the response headers (none without a response);
      a failure is passed on as it came. */
  lemma DataResponseMapping(response: Option<HTTPURLResponse>, result: Result<Option<Bytes>, AFError>)
    ensures var r := DataResponseResult(response, result);
      && (r.Success? <==> result.Success?)
      && (result.Failure? ==> r.error == result.error)
      && (result.Success? ==>
            && r.value.body == result.value
            && (response.Some? ==> r.value.statusCode == response.value.statusCode && r.value.headers == response.value.headerFields)
            && (response.None? ==> r.value.statusCode == -1 && r.value.headers == map[]))
  {
  }

  /** Since real status codes are never -1, an envelope's status is the sentinel
      exactly when the transport supplied no response. */
  lemma StatusSentinelMeansNoResponse(response: Option<HTTPURLResponse>, result: Result<Option<Bytes>, AFError>)
    requires response.Some? ==> response.value.statusCode != StatusCodeMissing
    requires result.Success?
    ensures DataResponseResult(response, result).value.statusCode == StatusCodeMissing <==> response.None?
  {
  }

  /** A successful download's body reads back, as UTF-8 text, as the absolute string of
      the file's final URL, and is absent when there is no URL. */
  lemma DownloadBodyIsFileLocation(response: Option<HTTPURLResponse>, result: Result<Option<URL>, AFError>)
    requires result.Success?
    ensures var r := DownloadResponseResult(response, result);
      && r.Success?
      && r.value.statusCode == StatusCodeOf(response)
      && (result.value.None? <==> r.value.body.None?)
      && (result.value.Some? ==> Decode(r.value.body.value) == Some(AbsoluteString(result.value.value)))
  {
    if result.value.Some? {
      DecodeEncode(AbsoluteString(result.value.value));
    }
  }

  /** A resumed download delivers what a fresh one does, whenever its force unwrap
      holds: a failure with or without a response is passed on the same way. */
  lemma ResumedDownloadAgrees(response: Option<HTTPURLResponse>, result: Result<Option<URL>, AFError>)
    requires result.Success? ==> response.Some?
    ensures ResumedDownloadResponseResult(response, result) == DownloadResponseResult(response, result)
  {
  }

}
