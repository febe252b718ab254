/** The strings that the debug traces of `HTTP.swift` (`printRequest`,
    `printResponse`) show for a request body and a response body. Pretty-printing a
    JSON value is Foundation's business: a rendering that Foundation would
    pretty-print is kept as the JSON value itself. */
module HTTPDebug {
  import opened Wrappers
  import opened Utf8
  import opened Json
  import opened HTTP

  /** Text shown verbatim, or a JSON value shown pretty-printed. */
  datatype BodyRendering = Text(text: string) | PrettyJSON(value: Json)

  const NullText: string := "null"
  /** Placeholders shown instead of the contents of an uploaded file. */
  const DataFilePlaceholder: string := "Data方式上传的二进制数据"
  const URLFilePlaceholder: string := "URL方式上传的二进制数据"
  /** Shown for a response body that is neither JSON nor UTF-8 text. */
  const UnprintableBody: string := "body数据存在但无法转为字符串或JSON"
  /** Shown for a transport error without a description. */
  const MissingErrorDescription: string := "alamofire未返回说明"

  // ---------------------------------------------------------------------------
  // Multipart fields with the files redacted

  /** The placeholder shown for one file, chosen by how the file is given. */
  function Placeholder(file: UploadFileModel): (r: string)
    ensures file.FileData? ==> r == DataFilePlaceholder
    ensures file.FileURL? ==> r == URLFilePlaceholder
  {
    match file
    case FileData(_, _, _, _) => DataFilePlaceholder
    case FileURL(_, _, _, _) => URLFilePlaceholder
  }

  /** The fields after each file in turn has overwritten the field of its name with
      its placeholder. */
  function Redacted(fields: map<string, string>, files: seq<UploadFileModel>): (r: map<string, string>)
    ensures fields.Keys <= r.Keys
    ensures files != [] ==> files[|files| - 1].name in r && r[files[|files| - 1].name] == Placeholder(files[|files| - 1])
    decreases |files|
  {
    if files == [] then fields
    else Redacted(fields[files[0].name := Placeholder(files[0])], files[1..])
  }

  /** A key is shown for a multipart body exactly when it is a text parameter or some
      file's name. */
  lemma {:induction false} RedactedKeys(fields: map<string, string>, files: seq<UploadFileModel>, k: string)
    ensures k in Redacted(fields, files) <==> k in fields || exists j :: 0 <= j < |files| && files[j].name == k
    decreases |files|
  {
    if files != [] {
      var rest := files[1..];
      RedactedKeys(fields[files[0].name := Placeholder(files[0])], rest, k);
      if exists j :: 0 <= j < |rest| && rest[j].name == k {
        var j :| 0 <= j < |rest| && rest[j].name == k;
        assert files[j + 1].name == k;
      }
      if exists j :: 0 <= j < |files| && files[j].name == k {
        var j :| 0 <= j < |files| && files[j].name == k;
        if j > 0 {
          assert rest[j - 1].name == k;
        }
      }
    }
  }

  /** A text parameter that no file is named after keeps its value. */
  lemma {:induction false} RedactedUntouched(fields: map<string, string>, files: seq<UploadFileModel>, k: string)
    requires k in fields
    requires forall j :: 0 <= j < |files| ==> files[j].name != k
    ensures k in Redacted(fields, files) && Redacted(fields, files)[k] == fields[k]
    decreases |files|
  {
    if files != [] {
      var rest := files[1..];
      forall j | 0 <= j < |rest| ensures rest[j].name != k {
        assert rest[j] == files[j + 1];
      }
      RedactedUntouched(fields[files[0].name := Placeholder(files[0])], rest, k);
    }
  }

  /** Under a file's name stands the placeholder of the LAST file of that name, over
      any text parameter of that name. */
  lemma {:induction false} RedactedLastFileWins(fields: map<string, string>, files: seq<UploadFileModel>, j: nat)
    requires j < |files|
    requires forall j' :: j < j' < |files| ==> files[j'].name != files[j].name
    ensures files[j].name in Redacted(fields, files)
    ensures Redacted(fields, files)[files[j].name] == Placeholder(files[j])
    decreases |files|
  {
    var k, rest := files[j].name, files[1..];
    var updated := fields[files[0].name := Placeholder(files[0])];
    if j == 0 {
      forall j' | 0 <= j' < |rest| ensures rest[j'].name != k {
        assert rest[j'] == files[j' + 1];
      }
      RedactedUntouched(updated, rest, k);
    } else {
      forall j' | j - 1 < j' < |rest| ensures rest[j'].name != rest[j - 1].name {
        assert rest[j'] == files[j' + 1];
      }
      RedactedLastFileWins(updated, rest, j - 1);
    }
  }

  /** The `forEach` over the files in `printRequest`'s multipart case. */
  method RedactMultipartFields(params: map<string, string>, files: seq<UploadFileModel>) returns (formDataList: map<string, string>)
    ensures formDataList == Redacted(params, files)
  {
    formDataList := params;
    for i := 0 to |files|
      invariant Redacted(formDataList, files[i..]) == Redacted(params, files)
    {
      assert files[i..][1..] == files[i + 1..];
      formDataList := formDataList[files[i].name := Placeholder(files[i])];
    }
  }

  // ---------------------------------------------------------------------------
  // Query strings

  /** The pieces joined with a separator between each two. */
  function Join(pieces: seq<string>, separator: char): (r: string)
  {
    if pieces == [] then ""
    else if |pieces| == 1 then pieces[0]
    else pieces[0] + [separator] + Join(pieces[1..], separator)
  }

  /** The text cut at every occurrence of the separator. */
  function Split(s: string, separator: char): (r: seq<string>)
    ensures |r| >= 1
  {
    if s == [] then [""]
    else
      var rest := Split(s[1..], separator);
      if s[0] == separator then [""] + rest else [[s[0]] + rest[0]] + rest[1..]
  }

  lemma {:induction false} SplitWithout(p: string, separator: char)
    requires separator !in p
    ensures Split(p, separator) == [p]
  {
    if p != [] {
      SplitWithout(p[1..], separator);
      assert [p[0]] + p[1..] == p;
    }
  }

  lemma {:induction false} SplitAfter(p: string, separator: char, t: string)
    requires separator !in p
    ensures Split(p + [separator] + t, separator) == [p] + Split(t, separator)
  {
    if p == [] {
      assert p + [separator] + t == [separator] + t;
      assert ([separator] + t)[1..] == t;
    } else {
      var s := p + [separator] + t;
      assert s[0] == p[0];
      assert s[1..] == p[1..] + [separator] + t;
      SplitAfter(p[1..], separator, t);
      assert [p[0]] + p[1..] == p;
    }
  }

  /** Splitting undoes joining when no piece contains the separator. */
  lemma {:induction false} SplitJoin(pieces: seq<string>, separator: char)
    requires |pieces| >= 1
    requires forall i :: 0 <= i < |pieces| ==> separator !in pieces[i]
    ensures Split(Join(pieces, separator), separator) == pieces
  {
    if |pieces| == 1 {
      SplitWithout(pieces[0], separator);
    } else {
      SplitJoin(pieces[1..], separator);
      SplitAfter(pieces[0], separator, Join(pieces[1..], separator));
      assert [pieces[0]] + pieces[1..] == pieces;
    }
  }

  /** One `key=value` piece per key, in the dictionary's order. */
  function QueryPairs(params: map<string, string>, order: seq<string>): (r: seq<string>)
    requires forall i :: 0 <= i < |order| ==> order[i] in params
    ensures |r| == |order|
  {
    seq(|order|, i requires 0 <= i < |order| => order[i] + "=" + params[order[i]])
  }

  // ---------------------------------------------------------------------------
  // Request bodies

  /** The body shown by `printRequest`: `"null"`, the plain text, the JSON parameters,
      the `key=value` pairs joined with `&`, or the multipart fields with the files
      redacted. */
  function RenderRequestBody(body: Body, order: seq<string>): (r: BodyRendering)
    requires body.Query? ==> KeyOrder(order, body.query)
    ensures r.PrettyJSON? <==> body.JSONParams? || body.Multipart?
    ensures r.PrettyJSON? ==> r.value.JObject?
    ensures body.NoBody? ==> r == Text("null")
    ensures body.Plain? ==> r == Text(body.text)
    ensures body.JSONParams? ==> r == PrettyJSON(JObject(body.json))
  {
    match body
    case NoBody => Text(NullText)
    case Plain(text) => Text(text)
    case JSONParams(params) => PrettyJSON(JObject(params))
    case Query(params) => Text(Join(QueryPairs(params, order), '&'))
    case Multipart(params, files) => PrettyJSON(JObject(StringObject(Redacted(params, files))))
  }

  /** The `bodyString` closure of `printRequest`, with the dictionary order of a
      query body as input. */
  method RequestBodyString(body: Body, order: seq<string>) returns (r: BodyRendering)
    requires body.Query? ==> KeyOrder(order, body.query)
    ensures r == RenderRequestBody(body, order)
  {
    match body {
      case NoBody => r := Text(NullText);
      case Plain(text) => r := Text(text);
      case JSONParams(params) => r := PrettyJSON(JObject(params));
      case Query(params) =>
        var pairs := seq(|order|, i requires 0 <= i < |order| => order[i] + "=" + params[order[i]]);
        r := Text(Join(pairs, '&'));
      case Multipart(params, files) =>
        var formDataList := RedactMultipartFields(params, files);
        r := PrettyJSON(JObject(StringObject(formDataList)));
    }
  }

  /** A query body is shown as one `key=value` piece for each key, each key once, and
      no other piece, joined with `&`. */
  lemma QueryRendering(params: map<string, string>, order: seq<string>)
    requires KeyOrder(order, params)
    ensures RenderRequestBody(Query(params), order) == Text(Join(QueryPairs(params, order), '&'))
    ensures |QueryPairs(params, order)| == |params|
    ensures forall k :: k in params ==>
              exists i :: 0 <= i < |order| && order[i] == k && QueryPairs(params, order)[i] == k + "=" + params[k]
  {
    KeyOrderLength(order, params);
    forall k | k in params
      ensures exists i :: 0 <= i < |order| && order[i] == k && QueryPairs(params, order)[i] == k + "=" + params[k]
    {
      var i :| 0 <= i < |order| && order[i] == k;
      assert QueryPairs(params, order)[i] == k + "=" + params[k];
    }
  }

  /** When neither keys nor values contain `&`, cutting a non-empty query's text at `&`
      gives back its `key=value` pieces. */
  lemma QueryRenderingSplits(params: map<string, string>, order: seq<string>)
    requires KeyOrder(order, params) && |params| > 0
    requires forall k :: k in params ==> '&' !in k && '&' !in params[k]
    ensures Split(RenderRequestBody(Query(params), order).text, '&') == QueryPairs(params, order)
  {
    KeyOrderLength(order, params);
    var pieces := QueryPairs(params, order);
    forall i | 0 <= i < |pieces| ensures '&' !in pieces[i] {
      assert pieces[i] == order[i] + "=" + params[order[i]];
    }
    SplitJoin(pieces, '&');
  }

  /** A multipart body is shown as its text fields and one entry per file name, each
      file field replaced by the placeholder of its kind, the last file of a name
      winning, so that no file's contents ever appear. */
  lemma MultipartRendering(params: map<string, string>, files: seq<UploadFileModel>, order: seq<string>, k: string)
    ensures RenderRequestBody(Multipart(params, files), order).PrettyJSON?
    ensures var shown := RenderRequestBody(Multipart(params, files), order).value.fields;
      && (k in shown <==> k in params || exists j :: 0 <= j < |files| && files[j].name == k)
      && (k in params && (forall j :: 0 <= j < |files| ==> files[j].name != k) ==> shown[k] == JString(params[k]))
      && (forall j :: 0 <= j < |files| && files[j].name == k && (forall j' :: j < j' < |files| ==> files[j'].name != k) ==>
            shown[k] == JString(Placeholder(files[j])))
  {
    RedactedKeys(params, files, k);
    if k in params && (forall j :: 0 <= j < |files| ==> files[j].name != k) {
      RedactedUntouched(params, files, k);
    }
    forall j | 0 <= j < |files| && files[j].name == k && (forall j' :: j < j' < |files| ==> files[j'].name != k)
      ensures Redacted(params, files)[k] == Placeholder(files[j])
    {
      RedactedLastFileWins(params, files, j);
    }
  }

  // ---------------------------------------------------------------------------
  // Response bodies

  /** The body shown by `printResponse`: `"null"` for no body or an empty one, else
      the JSON it parses to, else its UTF-8 text, else a fixed marker. */
  function RenderResponseBody(data: Option<Bytes>, parse: Bytes -> Option<Json>): (r: BodyRendering)
    ensures data.None? || data.value == [] ==> r == Text("null")
    ensures r.PrettyJSON? ==> data.Some? && parse(data.value) == Some(r.value)
    ensures data.Some? && data.value != [] && parse(data.value).Some? ==> r == PrettyJSON(parse(data.value).value)
    ensures data.Some? && data.value != [] && parse(data.value).None? && Decode(data.value).None? ==>
              r == Text("body数据存在但无法转为字符串或JSON")
    ensures data.Some? && data.value != [] && parse(data.value).None? && Decode(data.value).Some? ==>
              r == Text(Decode(data.value).value)
  {
    if data.None? || data.value == [] then Text(NullText)
    else
      match parse(data.value)
      case Some(json) => PrettyJSON(json)
      case None =>
        match Decode(data.value)
        case Some(text) => Text(text)
        case None => Text(UnprintableBody)
  }

  /** The trace `printResponse` writes: the status line, the headers and the body of
      a completed transfer, or the URL and a description of the error. */
  datatype ResponseTrace =
    | Completed(statusCode: int, url: string, headers: map<string, string>, body: BodyRendering)
    | Failed(url: string, description: string)

  function DescriptionOf(error: AFError): (r: string)
  {
    match error.errorDescription
    case Some(d) => d
    case None => MissingErrorDescription
  }

  function ResponseTraceOf(response: Option<HTTPURLResponse>, request: HTTPRequest,
                           result: Result<Option<Bytes>, AFError>, parse: Bytes -> Option<Json>): (r: ResponseTrace)
    ensures r.Completed? <==> result.Success?
    ensures r.url == request.url
    ensures r.Completed? ==> r.statusCode == StatusCodeOf(response) && r.headers == HeadersOf(response)
  {
    match result
    case Success(data) => Completed(StatusCodeOf(response), request.url, HeadersOf(response), RenderResponseBody(data, parse))
    case Failure(error) => Failed(request.url, DescriptionOf(error))
  }

  /** `downloadRequest` traces the final file location in place of the body. */
  function DownloadTraceResult(result: Result<Option<URL>, AFError>): (r: Result<Option<Bytes>, AFError>)
  {
    match result
    case Success(fileURL) => Success(DownloadedBody(fileURL))
    case Failure(error) => Failure(error)
  }

  /** The trace of a data or upload transfer shows what its envelope holds: the same
      status (with the same -1 fallback), the same headers, and a body of `"null"`
      whenever the envelope's body is absent or empty; a failure shows its error's
      description, or the fixed fallback when there is none. */
  lemma TraceMatchesEnvelope(response: Option<HTTPURLResponse>, request: HTTPRequest,
                             result: Result<Option<Bytes>, AFError>, parse: Bytes -> Option<Json>)
    ensures var trace := ResponseTraceOf(response, request, result, parse);
      var envelope := DataResponseResult(response, result);
      && (trace.Completed? <==> envelope.Success?)
      && (envelope.Success? ==>
            trace.statusCode == envelope.value.statusCode && trace.headers == envelope.value.headers &&
            (envelope.value.body.None? || envelope.value.body.value == [] ==> trace.body == Text("null")))
      && (envelope.Failure? ==>
            (envelope.error.errorDescription.Some? ==> trace.description == envelope.error.errorDescription.value) &&
            (envelope.error.errorDescription.None? ==> trace.description == "alamofire未返回说明"))
  {
  }

  /** A download's trace shows the final file location as text, unless the location
      itself parses as JSON; an empty location shows as `"null"`. */
  lemma DownloadTraceShowsLocation(response: Option<HTTPURLResponse>, request: HTTPRequest,
                                   fileURL: URL, parse: Bytes -> Option<Json>)
    requires parse(Encode(AbsoluteString(fileURL))).None?
    ensures var trace := ResponseTraceOf(response, request, DownloadTraceResult(Success(Some(fileURL))), parse);
      trace.Completed? &&
      trace.body == (if AbsoluteString(fileURL) == [] then Text("null") else Text(AbsoluteString(fileURL)))
  {
    EncodeEmpty(AbsoluteString(fileURL));
    DecodeEncode(AbsoluteString(fileURL));
  }

}
