/** `decodeRadonRequest` and `decodeRadonScript` (src/lib/utils.js:34-67):
    from the hex text of a serialized data request back to its retrievals,
    their scripts and the two reducers. The protobuf and CBOR decoders are
    not part of this model: they are passed in as functions. */
module RequestDecoding {
  import opened Common
  import opened Values
  import Utf8
  import Hex
  import opened Script

  type Byte = Utf8.Byte

  // ---------------------------------------------------------------------
  // The record `RADRequest.decode` yields. protobufjs fills an absent
  // string with "", an absent bytes field with an empty buffer and an
  // absent repeated field with an empty array; an absent sub-message is
  // `null`.

  datatype StringPair = StringPair(left: string, right: string)

  datatype RawRetrieval = RawRetrieval(kind: int, url: string, headers: seq<StringPair>, body: seq<Byte>, script: seq<Byte>)

  datatype RawFilter = RawFilter(op: int, args: seq<Byte>)

  datatype RawReducer = RawReducer(reducer: int, filters: seq<RawFilter>)

  datatype RawRequest = RawRequest(retrieve: seq<RawRetrieval>, aggregate: Option<RawReducer>, tally: Option<RawReducer>)

  // ---------------------------------------------------------------------
  // What `decodeRadonRequest` builds

  /** The `specs` object handed to `new RadonRetrieval`: a field that was
      never assigned is `None`. */
  datatype Specs = Specs(url: Option<string>, headers: seq<(string, string)>, body: Option<seq<Utf8.CodeUnit>>, script: Option<Script>)

  datatype RadonRetrieval = RadonRetrieval(kind: int, specs: Specs)

  datatype RadonFilter = RadonFilter(op: int, args: Option<JsValue>)

  datatype RadonReducer = RadonReducer(reducer: int, filters: seq<RadonFilter>)

  datatype RadonRequest = RadonRequest(retrieve: seq<RadonRetrieval>, aggregate: RadonReducer, tally: RadonReducer)

  /** The external decoders: `cborDecode` and `RADRequest.decode`, each of
      which may throw. */
  type Cbor = seq<Byte> -> Result<JsValue>
  type Proto = seq<Byte> -> Result<RawRequest>

  // ---------------------------------------------------------------------
  // decodeRadonScript

  /** `decodeRadonScript(hexString)`: hex to bytes, CBOR to a value, and
      the value parsed as a script. */
  function DecodedScript(ops: map<string, string>, cbor: Cbor, hexString: string): (r: Result<Option<Script>>)
    ensures Hex.FromHexString(hexString).Failure? ==> r == Failure(Hex.FromHexString(hexString).error)
    ensures Hex.FromHexString(hexString).Success? && cbor(Hex.FromHexString(hexString).value).Failure? ==>
      r == Failure(cbor(Hex.FromHexString(hexString).value).error)
  {
    var buffer :- Hex.FromHexString(hexString);
    var decoded := cbor(buffer);
    if decoded.Failure? then Failure(decoded.error) else Parsed(ops, decoded.value)
  }

  /** Going through hex text and back loses nothing: the script of a
      non-empty buffer is its CBOR value, parsed. */
  lemma ScriptThroughHex(ops: map<string, string>, cbor: Cbor, b: seq<Byte>)
    requires b != []
    ensures Hex.ToHexString(b).Success?
    ensures cbor(b).Failure? ==> DecodedScript(ops, cbor, Hex.ToHexString(b).value) == Failure(cbor(b).error)
    ensures cbor(b).Success? ==> DecodedScript(ops, cbor, Hex.ToHexString(b).value) == Parsed(ops, cbor(b).value)
  {
    Hex.HexRoundTrip(b);
  }

  // ---------------------------------------------------------------------
  // One retrieval

  function HeaderPairs(headers: seq<StringPair>): (r: seq<(string, string)>)
    ensures |r| == |headers|
    ensures forall i :: 0 <= i < |headers| ==> r[i] == (headers[i].left, headers[i].right)
  {
    seq(|headers|, i requires 0 <= i < |headers| => (headers[i].left, headers[i].right))
  }

  /** The error of the call at src/lib/utils.js:47. The module only
      re-exports `utf8ArrayToStr` from `./helpers`, which binds no local
      name, so the bare call finds no declaration. */
  const BodyError := ReferenceError("utf8ArrayToStr is not defined")

  /** The callback of `obj.retrieve.map`, as written. A bytes field is an
      object and so always truthy: the script is always decoded, and an
      empty one makes `toHexString` throw. A body with bytes throws before
      the script is reached, because the decoder it calls is not in scope. */
  function DecodedRetrieval(ops: map<string, string>, cbor: Cbor, raw: RawRetrieval): (r: Result<RadonRetrieval>)
    ensures raw.body != [] ==> r == Failure(BodyError)
    ensures raw.body == [] ==> r == IntendedRetrieval(ops, cbor, raw)
    ensures raw.body == [] && raw.script == [] ==> r.Failure? && r.error.TypeError?
    ensures r.Success? ==> r.value.kind == raw.kind && r.value.specs.body.None?
  {
    var url := if raw.url != "" then Some(raw.url) else None;
    var headers := HeaderPairs(raw.headers);
    if |raw.body| > 0 then Failure(BodyError)
    else
      var hexString :- Hex.ToHexString(raw.script);
      var script :- DecodedScript(ops, cbor, hexString);
      Success(RadonRetrieval(raw.kind, Specs(url, headers, None, script)))
  }

  /** The same callback with the body decoded by `helpers.utf8ArrayToStr`,
      as the other helper calls of the function are written. */
  function IntendedRetrieval(ops: map<string, string>, cbor: Cbor, raw: RawRetrieval): (r: Result<RadonRetrieval>)
    ensures raw.script == [] ==> r.Failure? && r.error.TypeError?
    ensures r.Success? ==> r.value.kind == raw.kind
  {
    var url := if raw.url != "" then Some(raw.url) else None;
    var headers := HeaderPairs(raw.headers);
    var body := if |raw.body| > 0 then Some(Utf8.Decoded(raw.body)) else None;
    var hexString :- Hex.ToHexString(raw.script);
    var script :- DecodedScript(ops, cbor, hexString);
    Success(RadonRetrieval(raw.kind, Specs(url, headers, body, script)))
  }

  /** A retrieval with a body never decodes as written: a POST retrieval
      whose body is the single byte `a` throws the ReferenceError, while the
      intended reading keeps that body as the one unit 0x61, the text "a". */
  lemma BodyThrows(ops: map<string, string>, cbor: Cbor)
    requires cbor([0x80]).Success? && Parsed(ops, cbor([0x80]).value).Success?
    ensures var raw := RawRetrieval(2, "http://h", [], [0x61], [0x80]);
      && DecodedRetrieval(ops, cbor, raw) == Failure(BodyError)
      && IntendedRetrieval(ops, cbor, raw).Success?
      && IntendedRetrieval(ops, cbor, raw).value.specs.body == Some([0x61])
  {
    var raw := RawRetrieval(2, "http://h", [], [0x61], [0x80]);
    ScriptThroughHex(ops, cbor, raw.script);
    assert Utf8.Decoded(raw.body) == [0x61] by {
      Utf8.StepOne(raw.body, 0);
    }
  }

  /** What the intended reading of a retrieval holds: the url only when it
      is not empty, every header as a `[left, right]` pair in its order, the
      body only when it has bytes (as UTF-8 text), and the script read from
      its own bytes. */
  lemma RetrievalFields(ops: map<string, string>, cbor: Cbor, raw: RawRetrieval)
    requires IntendedRetrieval(ops, cbor, raw).Success?
    ensures var specs := IntendedRetrieval(ops, cbor, raw).value.specs;
      && (specs.url.Some? <==> raw.url != "")
      && (specs.url.Some? ==> specs.url.value == raw.url)
      && |specs.headers| == |raw.headers|
      && (forall i :: 0 <= i < |raw.headers| ==> specs.headers[i] == (raw.headers[i].left, raw.headers[i].right))
      && (specs.body.Some? <==> raw.body != [])
      && (specs.body.Some? ==> specs.body.value == Utf8.Decoded(raw.body))
      && raw.script != []
      && cbor(raw.script).Success?
      && Parsed(ops, cbor(raw.script).value) == Success(specs.script)
  {
    ScriptThroughHex(ops, cbor, raw.script);
  }

  /** A retrieval as written fails exactly when it has a body or its script
      fails; the error of the CBOR decoder or of the script parser comes out
      unchanged. */
  lemma RetrievalFailure(ops: map<string, string>, cbor: Cbor, raw: RawRetrieval)
    requires raw.script != []
    ensures DecodedRetrieval(ops, cbor, raw).Failure? <==>
      raw.body != [] || cbor(raw.script).Failure? || Parsed(ops, cbor(raw.script).value).Failure?
    ensures raw.body == [] && cbor(raw.script).Failure? ==> DecodedRetrieval(ops, cbor, raw) == Failure(cbor(raw.script).error)
  {
    ScriptThroughHex(ops, cbor, raw.script);
  }

  // ---------------------------------------------------------------------
  // Filters and reducers

  /** `decodeFilter(f)`: CBOR arguments only when there are argument
      bytes. */
  function DecodedFilter(cbor: Cbor, f: RawFilter): (r: Result<RadonFilter>)
    ensures f.args == [] ==> r == Success(RadonFilter(f.op, None))
    ensures f.args != [] ==> (r.Success? <==> cbor(f.args).Success?)
    ensures f.args != [] && r.Success? ==> r.value == RadonFilter(f.op, Some(cbor(f.args).value))
    ensures f.args != [] && r.Failure? ==> r.error == cbor(f.args).error
  {
    if |f.args| > 0 then
      var args := cbor(f.args);
      if args.Failure? then Failure(args.error) else Success(RadonFilter(f.op, Some(args.value)))
    else
      Success(RadonFilter(f.op, None))
  }

  /** `decodeFilter` as the callback it is. */
  function FilterDecoder(cbor: Cbor): RawFilter -> Result<RadonFilter> {
    f => DecodedFilter(cbor, f)
  }

  /** `filters.map(decodeFilter)`: every filter decoded in its place. */
  function DecodedFilters(cbor: Cbor, fs: seq<RawFilter>): (r: Result<seq<RadonFilter>>)
    ensures r.Success? <==> forall i :: 0 <= i < |fs| ==> DecodedFilter(cbor, fs[i]).Success?
    ensures r.Success? ==> |r.value| == |fs|
    ensures r.Success? ==> forall i :: 0 <= i < |fs| ==> DecodedFilter(cbor, fs[i]) == Success(r.value[i])
  {
    MapAll(FilterDecoder(cbor), fs)
  }

  /** Filters without argument bytes never fail. */
  lemma FiltersWithoutArgs(cbor: Cbor, fs: seq<RawFilter>)
    requires forall i :: 0 <= i < |fs| ==> fs[i].args == []
    ensures DecodedFilters(cbor, fs).Success?
    ensures forall i :: 0 <= i < |fs| ==> DecodedFilters(cbor, fs).value[i] == RadonFilter(fs[i].op, None)
  {
    forall i | 0 <= i < |fs|
      ensures DecodedFilter(cbor, fs[i]) == Success(RadonFilter(fs[i].op, None))
    {
    }
  }

  /** `new RadonReducer(reducer, filters?.map(decodeFilter))`; a missing
      sub-message is `null`, whose `reducer` cannot be read. */
  function DecodedReducer(cbor: Cbor, raw: Option<RawReducer>): (r: Result<RadonReducer>)
    ensures raw.None? ==> r == Failure(TypeError("Cannot read properties of null (reading 'reducer')"))
    ensures r.Success? ==> r.value.reducer == raw.value.reducer && |r.value.filters| == |raw.value.filters|
  {
    if raw.None? then Failure(TypeError("Cannot read properties of null (reading 'reducer')"))
    else
      var filters :- DecodedFilters(cbor, raw.value.filters);
      Success(RadonReducer(raw.value.reducer, filters))
  }

  // ---------------------------------------------------------------------
  // The whole request

  /** The callback of `obj.retrieve.map`. */
  function RetrievalDecoder(ops: map<string, string>, cbor: Cbor): RawRetrieval -> Result<RadonRetrieval> {
    raw => DecodedRetrieval(ops, cbor, raw)
  }

  /** `obj.retrieve.map(...)`: every retrieval decoded in its place. */
  function DecodedRetrievals(ops: map<string, string>, cbor: Cbor, raws: seq<RawRetrieval>): (r: Result<seq<RadonRetrieval>>)
    ensures r.Success? <==> forall i :: 0 <= i < |raws| ==> DecodedRetrieval(ops, cbor, raws[i]).Success?
    ensures r.Success? ==> |r.value| == |raws|
    ensures r.Success? ==> forall i :: 0 <= i < |raws| ==> DecodedRetrieval(ops, cbor, raws[i]) == Success(r.value[i])
  {
    MapAll(RetrievalDecoder(ops, cbor), raws)
  }

  /** The first retrieval that fails decides the error. */
  lemma FirstFailingRetrieval(ops: map<string, string>, cbor: Cbor, raws: seq<RawRetrieval>, k: nat)
    requires k < |raws| && DecodedRetrieval(ops, cbor, raws[k]).Failure?
    requires forall i :: 0 <= i < k ==> DecodedRetrieval(ops, cbor, raws[i]).Success?
    ensures DecodedRetrievals(ops, cbor, raws) == Failure(DecodedRetrieval(ops, cbor, raws[k]).error)
  {
    FirstFailureFrom(RetrievalDecoder(ops, cbor), raws, k);
  }

  /** `decodeRadonRequest(hexString)` as one expression: a text that is not
      hex and a buffer the protobuf decoder refuses fail with their own
      errors, and a decoded request has one retrieval per encoded one. */
  function DecodedRequest(ops: map<string, string>, proto: Proto, cbor: Cbor, hexString: string): (r: Result<RadonRequest>)
    ensures Hex.FromHexString(hexString).Failure? ==> r == Failure(Hex.FromHexString(hexString).error)
    ensures Hex.FromHexString(hexString).Success? && proto(Hex.FromHexString(hexString).value).Failure? ==>
      r == Failure(proto(Hex.FromHexString(hexString).value).error)
    ensures r.Success? ==>
      && Hex.FromHexString(hexString).Success? && proto(Hex.FromHexString(hexString).value).Success?
      && |r.value.retrieve| == |proto(Hex.FromHexString(hexString).value).value.retrieve|
  {
    var buffer :- Hex.FromHexString(hexString);
    var obj := proto(buffer);
    if obj.Failure? then Failure(obj.error)
    else
      var retrieve :- DecodedRetrievals(ops, cbor, obj.value.retrieve);
      var aggregate :- DecodedReducer(cbor, obj.value.aggregate);
      var tally :- DecodedReducer(cbor, obj.value.tally);
      Success(RadonRequest(retrieve, aggregate, tally))
  }

  /** `obj.retrieve.map(...)` as the loop it runs: each retrieval is
      decoded in turn into a fresh array, and the first one that throws
      ends the map. */
  method DecodeRetrievals(ops: map<string, string>, cbor: Cbor, raws: seq<RawRetrieval>) returns (r: Result<seq<RadonRetrieval>>)
    ensures r == DecodedRetrievals(ops, cbor, raws)
  {
    var retrieve: seq<RadonRetrieval> := [];
    var i := 0;
    while i < |raws|
      invariant i <= |raws|
      invariant DecodedRetrievals(ops, cbor, raws[..i]) == Success(retrieve)
    {
      MapAllStep(RetrievalDecoder(ops, cbor), raws, i);
      var one := DecodedRetrieval(ops, cbor, raws[i]);
      if one.Failure? {
        MapAllFirstFailure(RetrievalDecoder(ops, cbor), raws, i);
        return Failure(one.error);
      }
      retrieve := retrieve + [one.value];
      i := i + 1;
    }
    assert raws[..i] == raws;
    return Success(retrieve);
  }

  /** `decodeRadonRequest(hexString)`: the retrievals are mapped one after
      the other into a fresh array, then the two reducers are built. */
  method DecodeRadonRequest(ops: map<string, string>, proto: Proto, cbor: Cbor, hexString: string) returns (r: Result<RadonRequest>)
    ensures r == DecodedRequest(ops, proto, cbor, hexString)
  {
    var buffer := Hex.FromHexString(hexString);
    if buffer.Failure? {
      return Failure(buffer.error);
    }
    var obj := proto(buffer.value);
    if obj.Failure? {
      return Failure(obj.error);
    }
    var retrieve := DecodeRetrievals(ops, cbor, obj.value.retrieve);
    if retrieve.Failure? {
      return Failure(retrieve.error);
    }
    var aggregate := DecodedReducer(cbor, obj.value.aggregate);
    if aggregate.Failure? {
      return Failure(aggregate.error);
    }
    var tally := DecodedReducer(cbor, obj.value.tally);
    if tally.Failure? {
      return Failure(tally.error);
    }
    return Success(RadonRequest(retrieve.value, aggregate.value, tally.value));
  }

  /** A decoded request keeps the order and the number of its retrievals
      and of each reducer's filters, and copies both reducer opcodes. */
  lemma RequestShape(ops: map<string, string>, proto: Proto, cbor: Cbor, hexString: string)
    requires DecodedRequest(ops, proto, cbor, hexString).Success?
    ensures var buffer := Hex.FromHexString(hexString).value;
      var obj := proto(buffer).value;
      var req := DecodedRequest(ops, proto, cbor, hexString).value;
      && |req.retrieve| == |obj.retrieve|
      && (forall i :: 0 <= i < |obj.retrieve| ==> DecodedRetrieval(ops, cbor, obj.retrieve[i]) == Success(req.retrieve[i]))
      && obj.aggregate.Some? && req.aggregate.reducer == obj.aggregate.value.reducer
      && obj.tally.Some? && req.tally.reducer == obj.tally.value.reducer
      && |req.tally.filters| == |obj.tally.value.filters|
      && |req.aggregate.filters| == |obj.aggregate.value.filters|
      && (forall i :: 0 <= i < |obj.tally.value.filters| ==> DecodedFilter(cbor, obj.tally.value.filters[i]) == Success(req.tally.filters[i]))
      && (forall i :: 0 <= i < |obj.aggregate.value.filters| ==> DecodedFilter(cbor, obj.aggregate.value.filters[i]) == Success(req.aggregate.filters[i]))
  {
    var buffer := Hex.FromHexString(hexString).value;
    var obj := proto(buffer).value;
    var retrieve := DecodedRetrievals(ops, cbor, obj.retrieve);
    var aggregate := DecodedReducer(cbor, obj.aggregate);
    var tally := DecodedReducer(cbor, obj.tally);
    assert retrieve.Success? && aggregate.Success? && tally.Success?;
    assert DecodedRequest(ops, proto, cbor, hexString).value == RadonRequest(retrieve.value, aggregate.value, tally.value);
  }
}
