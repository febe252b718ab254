/** The project-level decoding on top of `dataRequest` (`HTTPConvenience.swift`): a
    response body must be a JSON envelope `{errorCode, message?, data?}`; the first
    `HTTP.request` overload hands back the envelope as a `Payload`, the second
    (`decodeDataOnly:`) converts the envelope's `data` to a requested type. JSON
    parsing and HandyJSON's model mapping are given functions. */
module HTTPConvenience {
  import opened Wrappers
  import opened Utf8
  import opened Json
  import opened HTTP

  /** The envelope's fields: `errorCode` as an `Int`, `message` when it is a string,
      and `data` as it came (JSON `null` included). */
  datatype Payload = Payload(errorCode: int, message: Option<string>, data: Option<Json>)

  /** `HTTPError`: the payload made no sense, or the transport failed. */
  datatype HTTPError = DecodeError(message: string) | Alamofire(error: AFError)

  const MalformedEnvelope: string := "服务器返回数据格式错误"
  const DataIsEmpty: string := "data数据为空"
  const NotAModelList: string := "data数据无法解析为模型数组"
  const NotAModel: string := "data数据无法解析为模型"
  const NotConvertibleTo: string := "data数据无法解析为"
  const NoErrorDescription: string := "alamofire未返回错误说明"

  /** `HTTPError.message`. */
  function Message(error: HTTPError): (r: string)
    ensures error.Alamofire? && error.error.errorDescription.None? ==> r == NoErrorDescription
    ensures error.DecodeError? ==> r == error.message
  {
    match error
    case DecodeError(message) => message
    case Alamofire(e) =>
      match e.errorDescription
      case Some(d) => d
      case None => NoErrorDescription
  }

  /** A decode error shows its own message; a transport error its description, or
      the fixed fallback when it has none. */
  lemma MessageOfError(error: HTTPError)
    ensures error.DecodeError? ==> Message(error) == error.message
    ensures error.Alamofire? && error.error.errorDescription.Some? ==> Message(error) == error.error.errorDescription.value
    ensures error.Alamofire? && error.error.errorDescription.None? ==> Message(error) == "alamofire未返回错误说明"
  {
  }

  // ---------------------------------------------------------------------------
  // The envelope

  /** The JSON object of a valid envelope and its `errorCode`. */
  datatype Envelope = Envelope(fields: map<string, Json>, errorCode: int)

  /** The `guard` shared by both overloads: a body, not empty, that parses to a JSON
      object whose `errorCode` is an `Int`. */
  function EnvelopeOf(response: HTTPResponse, parse: Bytes -> Option<Json>): (r: Option<Envelope>)
    ensures r.Some? ==> response.body.Some? && response.body.value != []
    ensures r.Some? ==> parse(response.body.value) == Some(JObject(r.value.fields))
    ensures r.Some? ==> "errorCode" in r.value.fields && AsInt(r.value.fields["errorCode"]) == Some(r.value.errorCode)
  {
    match response.body
    case None => None
    case Some(body) =>
      if body == [] then None
      else
        match parse(body)
        case Some(JObject(fields)) =>
          if "errorCode" in fields && AsInt(fields["errorCode"]).Some? then
            Some(Envelope(fields, AsInt(fields["errorCode"]).value))
          else None
        case _ => None
  }

  function PayloadOf(envelope: Envelope): (r: Payload)
    ensures r.errorCode == envelope.errorCode
    ensures r.message.Some? <==> "message" in envelope.fields && envelope.fields["message"].JString?
    ensures r.data.Some? <==> "data" in envelope.fields
  {
    var message := match Get(envelope.fields, "message")
                   case Some(m) => AsString(m)
                   case None => None;
    Payload(envelope.errorCode, message, Get(envelope.fields, "data"))
  }

  /** The first `HTTP.request` overload: the response with its payload. */
  function Request(result: Result<HTTPResponse, AFError>, parse: Bytes -> Option<Json>): (r: Result<(HTTPResponse, Payload), HTTPError>)
    ensures r.Success? <==> result.Success? && EnvelopeOf(result.value, parse).Some?
    ensures r.Success? ==> r.value.0 == result.value
    ensures r.Failure? && result.Success? ==> r.error == DecodeError(MalformedEnvelope)
  {
    match result
    case Failure(error) => Failure(Alamofire(error))
    case Success(response) =>
      match EnvelopeOf(response, parse)
      case None => Failure(DecodeError(MalformedEnvelope))
      case Some(envelope) => Success((response, PayloadOf(envelope)))
  }

  /** The four conditions on a body that make it an envelope. */
  predicate IsEnvelopeBody(body: Option<Bytes>, parse: Bytes -> Option<Json>)
  {
    && body.Some?
    && |body.value| > 0
    && parse(body.value).Some?
    && parse(body.value).value.JObject?
    && "errorCode" in parse(body.value).value.fields
    && parse(body.value).value.fields["errorCode"].JInt?
    && IntMin <= parse(body.value).value.fields["errorCode"].i <= IntMax
  }

  /** Decoding a transferred response succeeds exactly when the body is present, not
      empty, a JSON object, and carries an `Int` `errorCode`; any other body fails
      with the one fixed decode error. On success the response is handed back as it
      came, with `errorCode` as decoded, `message` when it is a string and nothing
      otherwise, and `data` exactly as it stands in the object. */
  lemma RequestDecodesEnvelope(response: HTTPResponse, parse: Bytes -> Option<Json>)
    ensures var r := Request(Success(response), parse);
      && (r.Success? <==> IsEnvelopeBody(response.body, parse))
      && (r.Failure? ==> r.error == DecodeError("服务器返回数据格式错误"))
      && (r.Success? ==>
            var fields := parse(response.body.value).value.fields;
            && r.value.0 == response
            && r.value.1.errorCode == fields["errorCode"].i
            && (r.value.1.message.Some? <==> "message" in fields && fields["message"].JString?)
            && (r.value.1.message.Some? ==> fields["message"] == JString(r.value.1.message.value))
            && (r.value.1.data.Some? <==> "data" in fields)
            && (r.value.1.data.Some? ==> r.value.1.data.value == fields["data"]))
  {
  }

  /** A transport failure always comes back as that same `.alamofire` error, and an
      `.alamofire` error comes from nowhere else, in both overloads. */
  lemma TransportFailureWrapped<M>(result: Result<HTTPResponse, AFError>, parse: Bytes -> Option<Json>,
                                   dataType: DataType, deserialize: map<string, Json> -> Option<M>)
    ensures var r := Request(result, parse);
      (result.Failure? ==> r == Failure(Alamofire(result.error))) &&
      (r.Failure? && r.error.Alamofire? ==> result.Failure?)
    ensures var r := RequestDecodeDataOnly(result, parse, dataType, deserialize);
      (result.Failure? ==> r == Failure(Alamofire(result.error))) &&
      (r.Failure? && r.error.Alamofire? ==> result.Failure?)
  {
    if result.Success? {
      match EnvelopeOf(result.value, parse)
      case None =>
      case Some(envelope) => DecodeDataOutcome(Get(envelope.fields, "data"), dataType, deserialize);
    }
  }

  // ---------------------------------------------------------------------------
  // Requested types and typed decoding

  /** The non-model types of `decodeDataOnly:` that this model covers: `Bool`, `Int`,
      `Double`, `String`, `[Any]` and `[String: Any]`. */
  datatype ValueKind = BoolValue | IntValue | DoubleValue | StringValue | ArrayValue | DictionaryValue

  /** The requested type: an array of HandyJSON models, one model, or a value type. */
  datatype DataType = ModelList | SingleModel | Value(kind: ValueKind)

  /** What the typed overload delivers, tagged by the shape that was requested. */
  datatype Decoded<M> = Models(models: seq<M>) | Model(model: M) | Raw(value: Json)

  /** How Swift prints the value type in the last decode error. */
  function TypeName(kind: ValueKind): (r: string)
  {
    match kind
    case BoolValue => "Bool"
    case IntValue => "Int"
    case DoubleValue => "Double"
    case StringValue => "String"
    case ArrayValue => "Array<Any>"
    case DictionaryValue => "Dictionary<String, Any>"
  }

  /** `data as? Data` for a value type. */
  predicate CastSucceeds(v: Json, kind: ValueKind)
  {
    match kind
    case BoolValue => v.JBool?
    case IntValue => AsInt(v).Some?
    case DoubleValue => v.JFloat?
    case StringValue => v.JString?
    case ArrayValue => v.JArray?
    case DictionaryValue => v.JObject?
  }

  /** HandyJSON's `M.deserialize(from: [String: Any]?)`: nothing from nothing, else
      the given mapping of the dictionary. */
  function ModelFrom<M>(dictionary: Option<map<string, Json>>, deserialize: map<string, Json> -> Option<M>): (r: Option<M>)
    ensures r.Some? ==> dictionary.Some? && deserialize(dictionary.value) == r
  {
    match dictionary
    case None => None
    case Some(fields) => deserialize(fields)
  }

  /** HandyJSON's `[M].deserialize(from: [Any]?)`: nothing from nothing, else each
      element mapped as a model, a non-dictionary element giving nothing. */
  function ModelListFrom<M>(list: Option<seq<Json>>, deserialize: map<string, Json> -> Option<M>): (r: Option<seq<Option<M>>>)
    ensures r.Some? <==> list.Some?
    ensures r.Some? ==> |r.value| == |list.value|
    ensures r.Some? ==> forall i :: 0 <= i < |r.value| ==>
              (r.value[i].Some? <==> list.value[i].JObject? && deserialize(list.value[i].fields).Some?)
  {
    match list
    case None => None
    case Some(items) => Some(seq(|items|, i requires 0 <= i < |items| => ModelFrom(AsObject(items[i]), deserialize)))
  }

  /** Swift's `compactMap({ $0 })`: the present elements, in order. */
  function CompactMap<T>(s: seq<Option<T>>): (r: seq<T>)
    ensures |r| <= |s|
  {
    if s == [] then []
    else if s[0].Some? then [s[0].value] + CompactMap(s[1..])
    else CompactMap(s[1..])
  }

  lemma {:induction false} CompactMapAppend<T>(a: seq<Option<T>>, b: seq<Option<T>>)
    ensures CompactMap(a + b) == CompactMap(a) + CompactMap(b)
  {
    if a == [] {
      assert a + b == b;
    } else {
      assert (a + b)[0] == a[0];
      assert (a + b)[1..] == a[1..] + b;
      CompactMapAppend(a[1..], b);
    }
  }

  /** `compactMap` keeps exactly the present elements: a value is in the result exactly
      when it is present in the input, and the result is as long as the input exactly
      when nothing was missing, in which case it is the input's values one for one. */
  lemma {:induction false} CompactMapKeeps<T>(s: seq<Option<T>>)
    ensures forall x :: x in CompactMap(s) <==> Some(x) in s
    ensures |CompactMap(s)| == |s| <==> forall i :: 0 <= i < |s| ==> s[i].Some?
    ensures (forall i :: 0 <= i < |s| ==> s[i].Some?) ==>
              forall i :: 0 <= i < |s| ==> CompactMap(s)[i] == s[i].value
  {
    if s != [] {
      CompactMapKeeps(s[1..]);
      assert s == [s[0]] + s[1..];
      forall x ensures Some(x) in s <==> Some(x) == s[0] || Some(x) in s[1..] {
      }
      if |CompactMap(s)| == |s| {
        assert s[0].Some?;
        forall i | 0 <= i < |s| ensures s[i].Some? {
          if i > 0 { assert s[i] == s[1..][i - 1]; }
        }
      }
      if forall i :: 0 <= i < |s| ==> s[i].Some? {
        forall i | 0 <= i < |s[1..]| ensures s[1..][i].Some? {
          assert s[1..][i] == s[i + 1];
        }
        forall i | 0 <= i < |s| ensures CompactMap(s)[i] == s[i].value {
          if i > 0 { assert s[i] == s[1..][i - 1]; }
        }
      }
    }
  }

  /** The `result` closure of the typed overload on the envelope's `data`: a missing
      `data` fails first; then a model array, a model or a value type is tried,
      following the requested type. */
  function DecodeData<M>(data: Option<Json>, dataType: DataType, deserialize: map<string, Json> -> Option<M>): (r: Result<Decoded<M>, HTTPError>)
    ensures r.Failure? ==> r.error.DecodeError?
    ensures r.Success? ==> data.Some?
    ensures r.Success? ==> (r.value.Models? <==> dataType.ModelList?) && (r.value.Model? <==> dataType.SingleModel?)
  {
    match data
    case None => Failure(DecodeError(DataIsEmpty))
    case Some(v) =>
      match dataType
      case ModelList =>
        (match ModelListFrom(AsArray(v), deserialize)
         case None => Failure(DecodeError(NotAModelList))
         case Some(list) => Success(Models(CompactMap(list))))
      case SingleModel =>
        (match ModelFrom(AsObject(v), deserialize)
         case None => Failure(DecodeError(NotAModel))
         case Some(model) => Success(Model(model)))
      case Value(kind) =>
        if CastSucceeds(v, kind) then Success(Raw(v))
        else Failure(DecodeError(NotConvertibleTo + TypeName(kind)))
  }

  /** The second `HTTP.request` overload (`decodeDataOnly:`). */
  function RequestDecodeDataOnly<M>(result: Result<HTTPResponse, AFError>, parse: Bytes -> Option<Json>,
                                    dataType: DataType, deserialize: map<string, Json> -> Option<M>): (r: Result<Decoded<M>, HTTPError>)
    ensures r.Failure? && r.error.Alamofire? <==> result.Failure?
    ensures result.Success? && EnvelopeOf(result.value, parse).None? ==> r == Failure(DecodeError(MalformedEnvelope))
    ensures result.Success? && EnvelopeOf(result.value, parse).Some? ==>
              r == DecodeData(PayloadOf(EnvelopeOf(result.value, parse).value).data, dataType, deserialize)
  {
    match result
    case Failure(error) => Failure(Alamofire(error))
    case Success(response) =>
      match EnvelopeOf(response, parse)
      case None => Failure(DecodeError(MalformedEnvelope))
      case Some(envelope) => DecodeData(Get(envelope.fields, "data"), dataType, deserialize)
  }

  /** What typed decoding delivers, case by case. A missing `data` fails before the
      requested type is looked at. A model array needs `data` to be an array and then
      succeeds with the elements that map to models, in order, the others dropped. A
      model needs `data` to be a dictionary that maps to a model. A value type needs
      `data` to be of that type and hands it back unchanged. Each failure carries its
      own fixed message, the last one naming the type, and a success always has the
      requested shape. */
  lemma DecodeDataOutcome<M>(data: Option<Json>, dataType: DataType, deserialize: map<string, Json> -> Option<M>)
    ensures var r := DecodeData(data, dataType, deserialize);
      && (r.Failure? ==> r.error.DecodeError?)
      && (data.None? ==> r == Failure(DecodeError("data数据为空")))
      && (data.Some? && dataType.ModelList? ==>
            && (r.Success? <==> data.value.JArray?)
            && (r.Failure? ==> r.error.message == "data数据无法解析为模型数组")
            && (r.Success? ==>
                  r.value.Models? &&
                  forall m :: m in r.value.models <==>
                    exists i :: 0 <= i < |data.value.items| && data.value.items[i].JObject? &&
                                deserialize(data.value.items[i].fields) == Some(m)))
      && (data.Some? && dataType.SingleModel? ==>
            && (r.Success? <==> data.value.JObject? && deserialize(data.value.fields).Some?)
            && (r.Failure? ==> r.error.message == "data数据无法解析为模型")
            && (r.Success? ==> r.value == Model(deserialize(data.value.fields).value)))
      && (data.Some? && dataType.Value? ==>
            && (r.Success? <==> CastSucceeds(data.value, dataType.kind))
            && (r.Failure? ==> r.error.message == "data数据无法解析为" + TypeName(dataType.kind))
            && (r.Success? ==> r.value == Raw(data.value)))
  {
    if data.Some? && dataType.ModelList? && data.value.JArray? {
      var items := data.value.items;
      var list := ModelListFrom(Some(items), deserialize).value;
      CompactMapKeeps(list);
      forall m ensures Some(m) in list <==>
                 exists i :: 0 <= i < |items| && items[i].JObject? && deserialize(items[i].fields) == Some(m)
      {
        if Some(m) in list {
          var i :| 0 <= i < |list| && list[i] == Some(m);
          assert items[i].JObject? && deserialize(items[i].fields) == Some(m);
        }
        if exists i :: 0 <= i < |items| && items[i].JObject? && deserialize(items[i].fields) == Some(m) {
          var i :| 0 <= i < |items| && items[i].JObject? && deserialize(items[i].fields) == Some(m);
          assert list[i] == Some(m);
        }
      }
    }
  }

  /** A model array keeps its order element by element: the models of `xs + ys` are
      the models of `xs` followed by those of `ys`; when every element maps to a model
      the result holds exactly those models, position for position. */
  lemma ModelListOrder<M>(xs: seq<Json>, ys: seq<Json>, deserialize: map<string, Json> -> Option<M>)
    ensures var r := DecodeData(Some(JArray(xs + ys)), ModelList, deserialize);
      var rx := DecodeData(Some(JArray(xs)), ModelList, deserialize);
      var ry := DecodeData(Some(JArray(ys)), ModelList, deserialize);
      r.Success? && rx.Success? && ry.Success? &&
      r.value.models == rx.value.models + ry.value.models
    ensures (forall i :: 0 <= i < |xs| ==> xs[i].JObject? && deserialize(xs[i].fields).Some?) ==>
      var r := DecodeData(Some(JArray(xs)), ModelList, deserialize);
      |r.value.models| == |xs| &&
      forall i :: 0 <= i < |xs| ==> r.value.models[i] == deserialize(xs[i].fields).value
  {
    var lx := ModelListFrom(Some(xs), deserialize).value;
    var ly := ModelListFrom(Some(ys), deserialize).value;
    assert ModelListFrom(Some(xs + ys), deserialize).value == lx + ly;
    CompactMapAppend(lx, ly);
    CompactMapKeeps(lx);
  }

  /** One element that does not map to a model does not fail a model array: the call
      still succeeds, with one model fewer than there were elements. */
  lemma FailedElementDropped<M>(items: seq<Json>, k: nat, deserialize: map<string, Json> -> Option<M>)
    requires k < |items|
    requires !(items[k].JObject? && deserialize(items[k].fields).Some?)
    ensures var r := DecodeData(Some(JArray(items)), ModelList, deserialize);
      r.Success? && |r.value.models| < |items|
  {
    var list := ModelListFrom(Some(items), deserialize).value;
    CompactMapKeeps(list);
    assert list[k].None?;
  }

  /** The message of a failed typed decoding tells which check failed: the fixed
      messages differ from one another, and the last one names the requested type. */
  lemma MessageIdentifiesFailure<M>(data: Option<Json>, dataType: DataType, deserialize: map<string, Json> -> Option<M>,
                                    kind: ValueKind)
    requires DecodeData(data, dataType, deserialize).Failure?
    ensures var message := Message(DecodeData(data, dataType, deserialize).error);
      && (message == DataIsEmpty <==> data.None?)
      && (message == NotAModelList <==> data.Some? && dataType.ModelList?)
      && (message == NotAModel <==> data.Some? && dataType.SingleModel?)
      && (message == NotConvertibleTo + TypeName(kind) <==> data.Some? && dataType == Value(kind))
  {
    var message := Message(DecodeData(data, dataType, deserialize).error);
    assert DataIsEmpty[6] != NotConvertibleTo[6];
    assert |NotAModel| == |NotConvertibleTo| + 2 && NotAModel[|NotConvertibleTo|..] == "模型";
    assert NotAModelList[|NotConvertibleTo|..] == "模型数组";
    if data.Some? && dataType.Value? {
      var other := dataType.kind;
      assert message == NotConvertibleTo + TypeName(other);
      assert message[..|NotConvertibleTo|] == NotConvertibleTo;
      assert message[|NotConvertibleTo|..] == TypeName(other);
      if message == NotConvertibleTo + TypeName(kind) {
        assert (NotConvertibleTo + TypeName(kind))[|NotConvertibleTo|..] == TypeName(kind);
        TypeNameInjective(other, kind);
      }
    }
  }

  lemma TypeNameInjective(k1: ValueKind, k2: ValueKind)
    requires TypeName(k1) == TypeName(k2)
    ensures k1 == k2
  {
  }

  /** The typed overload checks `errorCode` but ignores its value: two envelopes that
      differ only in their `errorCode` decode the same. Nor does it ever fail for a
      missing `data` when `data` is present, even as JSON `null`; a missing one fails
      with "data is empty" whatever type was requested. */
  lemma TypedRequestIgnoresErrorCode<M>(r1: HTTPResponse, r2: HTTPResponse, parse: Bytes -> Option<Json>,
                                        dataType: DataType, deserialize: map<string, Json> -> Option<M>)
    requires EnvelopeOf(r1, parse).Some? && EnvelopeOf(r2, parse).Some?
    requires EnvelopeOf(r1, parse).value.fields - {"errorCode"} == EnvelopeOf(r2, parse).value.fields - {"errorCode"}
    ensures RequestDecodeDataOnly(Success(r1), parse, dataType, deserialize) ==
            RequestDecodeDataOnly(Success(r2), parse, dataType, deserialize)
    ensures "data" !in EnvelopeOf(r1, parse).value.fields ==>
              RequestDecodeDataOnly(Success(r1), parse, dataType, deserialize) == Failure(DecodeError("data数据为空"))
    ensures "data" in EnvelopeOf(r1, parse).value.fields ==>
              RequestDecodeDataOnly(Success(r1), parse, dataType, deserialize) != Failure(DecodeError("data数据为空"))
  {
    var f1, f2 := EnvelopeOf(r1, parse).value.fields, EnvelopeOf(r2, parse).value.fields;
    assert "data" in f1 <==> "data" in f1 - {"errorCode"};
    assert "data" in f2 <==> "data" in f2 - {"errorCode"};
    if "data" in f1 {
      assert f1["data"] == (f1 - {"errorCode"})["data"];
      assert f2["data"] == (f2 - {"errorCode"})["data"];
    }
  }

  /** The typed overload rejects a body that is not an envelope with the same error
      as the first overload, before looking at `data`. */
  lemma TypedRequestNeedsEnvelope<M>(response: HTTPResponse, parse: Bytes -> Option<Json>,
                                     dataType: DataType, deserialize: map<string, Json> -> Option<M>)
    ensures RequestDecodeDataOnly(Success(response), parse, dataType, deserialize).Failure? &&
            RequestDecodeDataOnly(Success(response), parse, dataType, deserialize).error == DecodeError("服务器返回数据格式错误")
            <==> Request(Success(response), parse).Failure?
  {
    if EnvelopeOf(response, parse).Some? {
      var data := Get(EnvelopeOf(response, parse).value.fields, "data");
      DecodeDataOutcome(data, dataType, deserialize);
    }
  }

  // ---------------------------------------------------------------------------
  // Worked scenarios

  /** An envelope `{"errorCode":0,"message":"ok","data":{"id":1,"name":"a"}}` gives the
      payload as it stands, and the model its data maps to. */
  lemma ScenarioSingleModel<M>(response: HTTPResponse, parse: Bytes -> Option<Json>,
                               deserialize: map<string, Json> -> Option<M>, model: M)
    requires response.body.Some? && response.body.value != []
    requires parse(response.body.value) == Some(JObject(map[
               "errorCode" := JInt(0), "message" := JString("ok"),
               "data" := JObject(map["id" := JInt(1), "name" := JString("a")])]))
    requires deserialize(map["id" := JInt(1), "name" := JString("a")]) == Some(model)
    ensures Request(Success(response), parse) ==
            Success((response, Payload(0, Some("ok"), Some(JObject(map["id" := JInt(1), "name" := JString("a")])))))
    ensures RequestDecodeDataOnly(Success(response), parse, SingleModel, deserialize) == Success(Model(model))
  {
  }

  /** `{"errorCode":0,"data":[{"id":1},{"id":2}]}` as a model array gives both models,
      in order. */
  lemma ScenarioModelList<M>(response: HTTPResponse, parse: Bytes -> Option<Json>,
                             deserialize: map<string, Json> -> Option<M>, m1: M, m2: M)
    requires response.body.Some? && response.body.value != []
    requires parse(response.body.value) == Some(JObject(map[
               "errorCode" := JInt(0),
               "data" := JArray([JObject(map["id" := JInt(1)]), JObject(map["id" := JInt(2)])])]))
    requires deserialize(map["id" := JInt(1)]) == Some(m1) && deserialize(map["id" := JInt(2)]) == Some(m2)
    ensures RequestDecodeDataOnly(Success(response), parse, ModelList, deserialize) == Success(Models([m1, m2]))
  {
    var items := [JObject(map["id" := JInt(1)]), JObject(map["id" := JInt(2)])];
    var fields := map["errorCode" := JInt(0), "data" := JArray(items)];
    assert EnvelopeOf(response, parse) == Some(Envelope(fields, 0));
    assert Get(fields, "data") == Some(JArray(items));
    var list := ModelListFrom(Some(items), deserialize).value;
    assert list == [Some(m1), Some(m2)];
    assert list[1..] == [Some(m2)];
    assert CompactMap([Some(m2)]) == [m2] + CompactMap([]);
    assert CompactMap(list) == [m1, m2];
    assert DecodeData(Some(JArray(items)), ModelList, deserialize) == Success(Models(CompactMap(list)));
  }

  /** `{"message":"no code"}` lacks `errorCode` and is a decode error. */
  lemma ScenarioMissingErrorCode(response: HTTPResponse, parse: Bytes -> Option<Json>)
    requires response.body.Some? && response.body.value != []
    requires parse(response.body.value) == Some(JObject(map["message" := JString("no code")]))
    ensures Request(Success(response), parse) == Failure(DecodeError("服务器返回数据格式错误"))
  {
  }

  /** A 204 with no body (or an empty one) is a success for the raw data request but
      a decode error for the envelope, whatever the parser would say. */
  lemma ScenarioEmptyBody(headers: map<string, string>, data: Option<Bytes>, parse: Bytes -> Option<Json>)
    requires data.None? || data.value == []
    ensures var raw := DataResponseResult(Some(HTTPURLResponse(204, headers)), Success(data));
      && raw == Success(HTTPResponse(204, headers, data))
      && Request(raw, parse) == Failure(DecodeError("服务器返回数据格式错误"))
  {
  }

}
