/** What Decode makes of the messages a peer writes, field number by field number (internal/beyonder/messages.go,
    Decode and decodeAuth, and the .proto files), and what the encoders put on the wire in the same terms. */
module Arriving {
  import opened Wire
  import opened Utf8
  import opened Proto
  import opened Messages
  import opened WireFields

  // ------------------------------------------------------------------ one message at a time

  lemma BaseSchema()
    ensures WellFormed(BASE)
    ensures forall fs :: AllText(BASE, fs)
  {
  }

  function BaseOf(fs: seq<Field>): BaseMessage {
    BaseMessage(IntAt(fs, 1), BytesAt(fs, 2), IntAt(fs, 3), IntAt(fs, 4), NumberAt(fs, 5))
  }

  lemma BaseRead(fs: seq<Field>)
    requires Legal(fs)
    ensures ReadBase(Written(fs)) == Some(BaseOf(fs))
  {
    hide Unmarshal, Written, NumberAt, BytesAt;
    BaseSchema();
    AnyFields(BASE, fs);
  }

  lemma HandshakeRead(fs: seq<Field>)
    requires Legal(fs)
    ensures ReadHandshake(Written(fs)) ==
            if TextAt(fs, 2)
            then Some(Handshake(IntAt(fs, 1), BytesAt(fs, 2), IntAt(fs, 3), BytesAt(fs, 4), IntAt(fs, 5))) else None
  {
    hide Unmarshal, Written, NumberAt, BytesAt, TextAt;
    assert IsText(HANDSHAKE[1].kind);
    AnyFields(HANDSHAKE, fs);
  }

  lemma EnvelopeRead(fs: seq<Field>)
    requires Legal(fs)
    ensures ReadEnvelope(Written(fs)) == Some(Envelope(IntAt(fs, 1), BytesAt(fs, 2)))
  {
    hide Unmarshal, Written, NumberAt, BytesAt, TextAt;
    AnyFields(ENVELOPE, fs);
  }

  lemma AuthLevelRead(fs: seq<Field>)
    requires Legal(fs)
    ensures ReadAuthLevel(Written(fs)) ==
            if TextAt(fs, 2) then Some(AuthorizationLevel(IntAt(fs, 1), BytesAt(fs, 2), IntAt(fs, 3))) else None
  {
    hide Unmarshal, Written, NumberAt, BytesAt, TextAt;
    assert IsText(AUTH_LEVEL[1].kind);
    AnyFields(AUTH_LEVEL, fs);
  }

  lemma PairingResultRead(fs: seq<Field>)
    requires Legal(fs)
    ensures ReadPairingResult(Written(fs)) ==
            if TextAt(fs, 2)
            then Some(PairingResult(IntAt(fs, 1), BytesAt(fs, 2), BytesAt(fs, 3), BytesAt(fs, 4))) else None
  {
    hide Unmarshal, Written, NumberAt, BytesAt, TextAt;
    assert IsText(PAIRING_RESULT[1].kind);
    AnyFields(PAIRING_RESULT, fs);
  }

  lemma LaunchResponseRead(fs: seq<Field>)
    requires Legal(fs)
    ensures ReadLaunchResponse(Written(fs)) == Some(LaunchResponse(IntAt(fs, 1)))
  {
    hide Unmarshal, Written, NumberAt, BytesAt, TextAt;
    AnyFields(LAUNCH_RESPONSE, fs);
  }

  lemma HostInformationRead(fs: seq<Field>)
    requires Legal(fs)
    ensures ReadHostInformation(Written(fs)) ==
            if TextAt(fs, 1) && TextAt(fs, 2) && TextAt(fs, 4) && TextAt(fs, 5)
            then Some(HostInformation(BytesAt(fs, 1), BytesAt(fs, 2), IntAt(fs, 3), BytesAt(fs, 4), ListAt(fs, 5)))
            else None
  {
    hide Unmarshal, Written, NumberAt, BytesAt, ListAt, TextAt;
    assert IsText(HOST_INFORMATION[0].kind) && IsText(HOST_INFORMATION[1].kind)
        && IsText(HOST_INFORMATION[3].kind) && IsText(HOST_INFORMATION[4].kind);
    AnyFields(HOST_INFORMATION, fs);
  }

  // ------------------------------------------------------------------ whole frames

  /** The fields of the message on its three levels: the base, its payload and the object inside that. */
  ghost predicate Nested(base: seq<Field>, env: seq<Field>, service: int, command: int) {
    && Legal(base) && Legal(env)
    && IntAt(base, 1) == service && BytesAt(base, 2) == Written(env) && IntAt(env, 1) == command
  }

  lemma NestedEnvelope(base: seq<Field>, env: seq<Field>, service: int, command: int)
    requires Nested(base, env, service, command)
    ensures ReadBase(Written(base)) == Some(BaseOf(base))
    ensures BaseOf(base).serviceId == service
    ensures ReadEnvelope(BaseOf(base).payload) == Some(Envelope(command, BytesAt(env, 2)))
  {
    hide ReadBase, ReadEnvelope, Written, Legal;
    BaseRead(base);
    EnvelopeRead(env);
  }

  /** Service 1, a handshake. */
  lemma HandshakeArrives(base: seq<Field>, payload: seq<Field>)
    requires Legal(base) && Legal(payload) && IntAt(base, 1) == 1 && BytesAt(base, 2) == Written(payload)
    ensures Decode(Written(base)) ==
            if !TextAt(payload, 2) then Failed(BadPayload(1))
            else
              var h := Handshake(IntAt(payload, 1), BytesAt(payload, 2), IntAt(payload, 3), BytesAt(payload, 4),
                                 IntAt(payload, 5));
              Ok(Message(BaseOf(base), Some(h), None, None, None, false, None, None, None, None))
  {
    hide ReadBase, ReadHandshake, Written, Legal, TextAt;
    BaseRead(base);
    HandshakeRead(payload);
  }

  /** Service 10, command 1000: the authorization level. */
  lemma AuthLevelArrives(base: seq<Field>, env: seq<Field>, obj: seq<Field>)
    requires Nested(base, env, 10, 1000) && Legal(obj) && BytesAt(env, 2) == Written(obj)
    ensures Decode(Written(base)) ==
            if !TextAt(obj, 2) then Failed(BadPayload(10))
            else
              var level := AuthorizationLevel(IntAt(obj, 1), BytesAt(obj, 2), IntAt(obj, 3));
              Ok(Message(BaseOf(base), None, Some(Envelope(1000, Written(obj))), Some(level), None, false,
                         None, None, None, None))
  {
    hide ReadBase, ReadEnvelope, ReadAuthLevel, Written, Nested, TextAt;
    NestedEnvelope(base, env, 10, 1000);
    AuthLevelRead(obj);
  }

  /** Service 10, command 2101: the pairing result, whose private key is field 3 and certificate field 4. */
  lemma PairingResultArrives(base: seq<Field>, env: seq<Field>, obj: seq<Field>)
    requires Nested(base, env, 10, 2101) && Legal(obj) && BytesAt(env, 2) == Written(obj)
    ensures Decode(Written(base)) ==
            if !TextAt(obj, 2) then Failed(BadPayload(10))
            else
              var result := PairingResult(IntAt(obj, 1), BytesAt(obj, 2), BytesAt(obj, 3), BytesAt(obj, 4));
              Ok(Message(BaseOf(base), None, Some(Envelope(2101, Written(obj))), None, Some(result), false,
                         None, None, None, None))
  {
    hide ReadBase, ReadEnvelope, ReadPairingResult, Written, Nested, TextAt;
    NestedEnvelope(base, env, 10, 2101);
    PairingResultRead(obj);
  }

  /** Service 10 with any other command: the PIN challenge is command 1103; the object is kept as it is. */
  lemma OtherAuthArrives(base: seq<Field>, env: seq<Field>)
    requires Nested(base, env, 10, IntAt(env, 1)) && IntAt(env, 1) !in {1000, 2101}
    ensures Decode(Written(base)) ==
            Ok(Message(BaseOf(base), None, Some(Envelope(IntAt(env, 1), BytesAt(env, 2))), None, None,
                       IntAt(env, 1) == 1103, None, None, None, None))
  {
    hide ReadBase, ReadEnvelope, Written, Nested;
    NestedEnvelope(base, env, 10, IntAt(env, 1));
  }

  /** Service 1009, command 3: the launch response. Any other command keeps its object as it is. */
  lemma LauncherArrives(base: seq<Field>, env: seq<Field>, obj: seq<Field>)
    requires Nested(base, env, 1009, IntAt(env, 1)) && Legal(obj) && BytesAt(env, 2) == Written(obj)
    ensures Decode(Written(base)) ==
            Ok(Message(BaseOf(base), None, None, None, None, false, Some(Envelope(IntAt(env, 1), Written(obj))),
                       if IntAt(env, 1) == 3 then Some(LaunchResponse(IntAt(obj, 1))) else None, None, None))
  {
    hide ReadBase, ReadEnvelope, ReadLaunchResponse, Written, Nested;
    NestedEnvelope(base, env, 1009, IntAt(env, 1));
    LaunchResponseRead(obj);
  }

  /** Service 11, command 2101 with an object: the host information. Otherwise the envelope alone is kept. */
  lemma HostInfoArrives(base: seq<Field>, env: seq<Field>, obj: seq<Field>)
    requires Nested(base, env, 11, IntAt(env, 1)) && Legal(obj) && BytesAt(env, 2) == Written(obj)
    ensures var payload := Envelope(IntAt(env, 1), Written(obj));
            Decode(Written(base)) ==
            if IntAt(env, 1) != 2101 || Written(obj) == []
            then Ok(Message(BaseOf(base), None, None, None, None, false, None, None, Some(payload), None))
            else if !(TextAt(obj, 1) && TextAt(obj, 2) && TextAt(obj, 4) && TextAt(obj, 5))
            then Failed(BadPayload(11))
            else
              var info := HostInformation(BytesAt(obj, 1), BytesAt(obj, 2), IntAt(obj, 3), BytesAt(obj, 4), ListAt(obj, 5));
              Ok(Message(BaseOf(base), None, None, None, None, false, None, None, Some(payload), Some(info)))
  {
    hide ReadBase, ReadEnvelope, ReadHostInformation, Written, Nested, TextAt;
    NestedEnvelope(base, env, 11, IntAt(env, 1));
    HostInformationRead(obj);
  }

  /** Every other service: nothing but the base message, whatever its payload. */
  lemma OtherServiceArrives(base: seq<Field>)
    requires Legal(base) && IntAt(base, 1) !in {1, 10, 11, 1009}
    ensures Decode(Written(base)) ==
            Ok(Message(BaseOf(base), None, None, None, None, false, None, None, None, None))
  {
    hide ReadBase, Written, Legal;
    BaseRead(base);
  }

  // ------------------------------------------------------------------ what the encoders write

  /** A bytes or string field, left out when it is empty. */
  function Present(num: nat, b: Bytes): seq<Field> {
    if b == [] then [] else [Chunk(num, b)]
  }

  lemma BaseOnWire(service: Int32, payload: Bytes)
    requires 0 < service && Base(service, Some(payload)).Some?
    ensures Base(service, Some(payload)).value == Written([Number(1, service)] + Present(2, payload))
  {
    hide EncodeFields, Written;
    var r := BaseRecord(BaseMessage(service, payload, 0, 0, 0));
    RecordOnWire(BASE, r, 0);
    assert FieldsOfRecord(BASE, r, 2) == [];
    assert FieldsOfRecord(BASE, r, 1) == Present(2, payload);
  }

  lemma EnvelopeOnWire(command: Int32, o: Bytes)
    requires 0 < command && Marshal(ENVELOPE, EnvelopeRecord(Envelope(command, o))).Some?
    ensures Marshal(ENVELOPE, EnvelopeRecord(Envelope(command, o))).value == Written([Number(1, command)] + Present(2, o))
  {
    hide EncodeFields, Written;
    var r := EnvelopeRecord(Envelope(command, o));
    RecordOnWire(ENVELOPE, r, 0);
    assert FieldsOfRecord(ENVELOPE, r, 1) == Present(2, o);
  }

  lemma HandshakeOnWire(name: Bytes)
    requires name != [] && Marshal(HANDSHAKE, HelloRecord(name)).Some?
    ensures Marshal(HANDSHAKE, HelloRecord(name)).value ==
            Written([Number(1, 1), Chunk(2, name), Number(3, 1), Number(5, 81915)])
  {
    hide EncodeFields, Written;
    var r := HelloRecord(name);
    RecordOnWire(HANDSHAKE, r, 0);
    assert FieldsOfRecord(HANDSHAKE, r, 3) == [Number(5, 81915)];
    assert FieldsOfRecord(HANDSHAKE, r, 1) == [Chunk(2, name), Number(3, 1), Number(5, 81915)];
    assert FieldsOfRecord(HANDSHAKE, r, 0) == [Number(1, 1), Chunk(2, name), Number(3, 1), Number(5, 81915)];
  }

  lemma PinOnWire(pin: Bytes, deviceId: Bytes)
    requires Marshal(PIN_CODE, PinCodeRecord(PairingPinCode(pin, deviceId))).Some?
    ensures Marshal(PIN_CODE, PinCodeRecord(PairingPinCode(pin, deviceId))).value ==
            Written(Present(1, pin) + Present(2, deviceId))
  {
    hide EncodeFields, Written;
    var r := PinCodeRecord(PairingPinCode(pin, deviceId));
    RecordOnWire(PIN_CODE, r, 0);
    assert FieldsOfRecord(PIN_CODE, r, 1) == Present(2, deviceId);
  }

  lemma InputOnWire(v: Int32)
    ensures var r := VirtualInputRecord(VirtualInput(REQUEST_COMMAND, ACCESSORY_CONTROLLER, INPUT_SPECIAL, 0, [], v));
            EncodeFields(VIRTUAL_INPUT, r, 0) == Written(SpecialFields(v))
  {
    hide EncodeFields, Written;
    var r := VirtualInputRecord(VirtualInput(REQUEST_COMMAND, ACCESSORY_CONTROLLER, INPUT_SPECIAL, 0, [], v));
    RecordOnWire(VIRTUAL_INPUT, r, 0);
    assert FieldsOfRecord(VIRTUAL_INPUT, r, 5) == if v == 0 then [] else [Number(8, v % TWO_64)];
    assert FieldsOfRecord(VIRTUAL_INPUT, r, 3) == FieldsOfRecord(VIRTUAL_INPUT, r, 5);
    assert FieldsOfRecord(VIRTUAL_INPUT, r, 1) == [Number(2, 5), Number(4, 30)] + FieldsOfRecord(VIRTUAL_INPUT, r, 5);
    assert FieldsOfRecord(VIRTUAL_INPUT, r, 0) == SpecialFields(v);
  }

  /** A special input: request 20, accessory 5, input type 30 and the input value, sign extended to 64 bits. */
  function SpecialFields(v: Int32): seq<Field> {
    [Number(1, 20), Number(2, 5), Number(4, 30)] + if v == 0 then [] else [Number(8, v % TWO_64)]
  }

  lemma NotEmpty(f: Field, rest: seq<Field>)
    ensures Written([f] + rest) != []
  {
    hide Written;
    WrittenAppend([f], rest);
    WrittenOne(f);
  }

  /** HELLO on the wire. */
  lemma HelloOnWire(name: Bytes)
    requires EncodeHello(name).Some?
    ensures EncodeHello(name).value ==
            Written([Number(1, 1),
                     Chunk(2, Written([Number(1, 1), Chunk(2, name), Number(3, 1), Number(5, 81915)]))])
  {
    hide EncodeFields, Written, BaseRecord;
    HandshakeOnWire(name);
    var p := Marshal(HANDSHAKE, HelloRecord(name)).value;
    BaseOnWire(1, p);
    NotEmpty(Number(1, 1), [Chunk(2, name), Number(3, 1), Number(5, 81915)]);
    assert [Number(1, 1)] + [Chunk(2, name), Number(3, 1), Number(5, 81915)]
        == [Number(1, 1), Chunk(2, name), Number(3, 1), Number(5, 81915)];
    assert [Number(1, 1)] + [Chunk(2, p)] == [Number(1, 1), Chunk(2, p)];
  }

  lemma AuthOnWire(command: Int32, o: Bytes)
    requires 0 < command && Auth(command, Some(o)).Some?
    ensures Auth(command, Some(o)).value ==
            Written([Number(1, 10), Chunk(2, Written([Number(1, command)] + Present(2, o)))])
  {
    hide EncodeFields, Written, BaseRecord;
    EnvelopeOnWire(command, o);
    var p := Marshal(ENVELOPE, EnvelopeRecord(Envelope(command, o))).value;
    BaseOnWire(10, p);
    NotEmpty(Number(1, command), Present(2, o));
    assert [Number(1, 10)] + [Chunk(2, p)] == [Number(1, 10), Chunk(2, p)];
  }

  /** PIN_REQUEST and PIN_CODE on the wire: commands 1101 and 1105, the code in field 1 and the device in 2. */
  lemma PairingOnWire(pin: Bytes, deviceId: Bytes)
    ensures EncodePinRequest().Some?
    ensures EncodePinRequest().value == Written([Number(1, 10), Chunk(2, Written([Number(1, 1101)]))])
    ensures EncodePinCode(pin, deviceId).Some? ==>
              EncodePinCode(pin, deviceId).value ==
              Written([Number(1, 10),
                       Chunk(2, Written([Number(1, 1105)] + Present(2, Written(Present(1, pin) + Present(2, deviceId)))))])
  {
    hide EncodeFields, Written, Auth;
    PinRequestDecodes();
    AuthOnWire(1101, []);
    assert [Number(1, 1101)] + [] == [Number(1, 1101)];
    if EncodePinCode(pin, deviceId).Some? {
      AuthNeedsObject(COMMAND_PIN_CODE, Marshal(PIN_CODE, PinCodeRecord(PairingPinCode(pin, deviceId))));
      PinOnWire(pin, deviceId);
      AuthOnWire(1105, Marshal(PIN_CODE, PinCodeRecord(PairingPinCode(pin, deviceId))).value);
    }
  }

  lemma AuthNeedsObject(command: Int32, obj: Option<Bytes>)
    requires Auth(command, obj).Some?
    ensures obj.Some?
  {
  }

  /** A special input on the wire: service 1001. */
  lemma SpecialInputOnWire(v: Int32)
    ensures EncodeSpecialInput(v) == Some(Written([Number(1, 1001), Chunk(2, Written(SpecialFields(v)))]))
  {
    hide EncodeFields, Written, BaseRecord;
    SpecialInputEncodes(v);
    InputOnWire(v);
    var p := Written(SpecialFields(v));
    BaseOnWire(1001, p);
    assert SpecialFields(v) == [Number(1, 20)] + SpecialFields(v)[1..];
    NotEmpty(Number(1, 20), SpecialFields(v)[1..]);
    assert [Number(1, 1001)] + [Chunk(2, p)] == [Number(1, 1001), Chunk(2, p)];
  }

  /** A launch on the wire: service 1009, command 2, the package name in field 1 of the object. */
  lemma LaunchOnWire(pkg: Bytes)
    requires EncodeLaunch(pkg).Some?
    ensures EncodeLaunch(pkg).value ==
            Written([Number(1, 1009), Chunk(2, Written([Number(1, 2)] + Present(2, Written(Present(1, pkg)))))])
  {
    hide EncodeFields, Written, BaseRecord;
    var r := LaunchRequestRecord(LaunchRequest(pkg));
    RecordOnWire(LAUNCH_REQUEST, r, 0);
    assert FieldsOfRecord(LAUNCH_REQUEST, r, 0) == Present(1, pkg);
    var o := Marshal(LAUNCH_REQUEST, r).value;
    EnvelopeOnWire(2, o);
    var p := Marshal(ENVELOPE, EnvelopeRecord(Envelope(2, o))).value;
    BaseOnWire(1009, p);
    NotEmpty(Number(1, 2), Present(2, o));
    assert [Number(1, 1009)] + [Chunk(2, p)] == [Number(1, 1009), Chunk(2, p)];
  }

  /** A probe on the wire: the time stamp in field 5. */
  lemma ProbeOnWire(nowMs: Uint64)
    ensures EncodeRTTProbe(nowMs) == Some(Written(if nowMs == 0 then [] else [Number(5, nowMs)]))
  {
    hide EncodeFields, Written;
    var r := BaseRecord(BaseMessage(0, [], 0, 0, nowMs));
    RecordOnWire(BASE, r, 0);
    RTTProbeDecodes(nowMs);
    assert FieldsOfRecord(BASE, r, 3) == if nowMs == 0 then [] else [Number(5, nowMs)];
    assert FieldsOfRecord(BASE, r, 1) == FieldsOfRecord(BASE, r, 3);
    assert FieldsOfRecord(BASE, r, 0) == FieldsOfRecord(BASE, r, 1);
  }
}
