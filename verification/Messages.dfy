/** The beyonder messages, their encoders and Decode (internal/beyonder/messages.go and the .proto files). */
module Messages {
  import opened Wire
  import opened Utf8
  import opened Proto

  type Int32 = i: int | -TWO_31 <= i < TWO_31
  type Uint64 = i: int | 0 <= i < TWO_64

  const SERVICE_HANDSHAKE: Int32 := 1
  const SERVICE_AUTHENTICATION: Int32 := 10
  const SERVICE_HOST_INFO: Int32 := 11
  const SERVICE_VIRTUAL_INPUT: Int32 := 1001
  const SERVICE_REMOTE_LAUNCHER: Int32 := 1009
  const COMMAND_HELLO: Int32 := 1
  const DEVICEOS_ANDROID: Int32 := 1
  const CLIENT_CAPABILITY: Int32 := 0x13FFB
  const COMMAND_AUTHORIZATION_LEVEL: Int32 := 1000
  const COMMAND_PIN_REQUEST: Int32 := 1101
  const COMMAND_PIN_CHALLENGE: Int32 := 1103
  const COMMAND_PIN_CODE: Int32 := 1105
  const COMMAND_PAIRING_RESULT: Int32 := 2101
  const COMMAND_HOST_INFO_RESULT: Int32 := 2101
  const REQUEST_COMMAND: Int32 := 20
  const ACCESSORY_CONTROLLER: Int32 := 5
  const INPUT_SPECIAL: Int32 := 30
  const REQUEST_LAUNCH: Int32 := 2
  const RESPONSE_LAUNCH: Int32 := 3

  datatype BaseMessage =
    BaseMessage(serviceId: Int32, payload: Bytes, serviceNumber: Int32, size: Int32, timeStamp: Uint64)
  datatype Handshake =
    Handshake(command: Int32, name: Bytes, deviceOs: Int32, certificate: Bytes, capability: Int32)
  /** Authentication, launcher and host-info payloads share one shape: a command and its serialized object. */
  datatype Envelope = Envelope(command: Int32, object_: Bytes)
  datatype AuthorizationLevel = AuthorizationLevel(level: Int32, deviceName: Bytes, capability: Int32)
  datatype PairingPinCode = PairingPinCode(pinCode: Bytes, deviceId: Bytes)
  datatype PairingResult =
    PairingResult(resultType: Int32, resultString: Bytes, privateKey: Bytes, certificate: Bytes)
  datatype VirtualInput = VirtualInput(request: Int32, accessoryType: Int32, inputType: Int32,
                                       keyState: Int32, text: Bytes, specialInput: Int32)
  datatype LaunchRequest = LaunchRequest(packageName: Bytes)
  datatype LaunchResponse = LaunchResponse(result: Int32)
  datatype HostInformation = HostInformation(deviceName: Bytes, ip: Bytes, port: Int32,
                                             androidId: Bytes, supportedAbis: seq<Bytes>)

  const BASE: Schema := [FieldDesc(1, KInt32), FieldDesc(2, KBytes), FieldDesc(3, KInt32),
                         FieldDesc(4, KInt32), FieldDesc(5, KUint64)]
  const HANDSHAKE: Schema := [FieldDesc(1, KInt32), FieldDesc(2, KString), FieldDesc(3, KInt32),
                              FieldDesc(4, KBytes), FieldDesc(5, KInt32)]
  const ENVELOPE: Schema := [FieldDesc(1, KInt32), FieldDesc(2, KBytes)]
  const AUTH_LEVEL: Schema := [FieldDesc(1, KInt32), FieldDesc(2, KString), FieldDesc(3, KInt32)]
  const PIN_CODE: Schema := [FieldDesc(1, KString), FieldDesc(2, KString)]
  const PAIRING_RESULT: Schema := [FieldDesc(1, KInt32), FieldDesc(2, KString), FieldDesc(3, KBytes),
                                   FieldDesc(4, KBytes)]
  const VIRTUAL_INPUT: Schema := [FieldDesc(1, KInt32), FieldDesc(2, KInt32), FieldDesc(4, KInt32),
                                  FieldDesc(5, KInt32), FieldDesc(7, KString), FieldDesc(8, KInt32)]
  const LAUNCH_REQUEST: Schema := [FieldDesc(1, KString)]
  const LAUNCH_RESPONSE: Schema := [FieldDesc(1, KInt32)]
  const HOST_INFORMATION: Schema := [FieldDesc(1, KString), FieldDesc(2, KString), FieldDesc(3, KInt32),
                                     FieldDesc(4, KString), FieldDesc(5, KStrings)]

  function BaseRecord(m: BaseMessage): (r: Record)
    ensures Conforms(BASE, r)
  {
    [VInt(m.serviceId), VBytes(m.payload), VInt(m.serviceNumber), VInt(m.size), VInt(m.timeStamp)]
  }

  function HandshakeRecord(m: Handshake): (r: Record)
    ensures Conforms(HANDSHAKE, r)
  {
    [VInt(m.command), VBytes(m.name), VInt(m.deviceOs), VBytes(m.certificate), VInt(m.capability)]
  }

  function EnvelopeRecord(m: Envelope): (r: Record)
    ensures Conforms(ENVELOPE, r)
  {
    [VInt(m.command), VBytes(m.object_)]
  }

  function PinCodeRecord(m: PairingPinCode): (r: Record)
    ensures Conforms(PIN_CODE, r)
  {
    [VBytes(m.pinCode), VBytes(m.deviceId)]
  }

  function VirtualInputRecord(m: VirtualInput): (r: Record)
    ensures Conforms(VIRTUAL_INPUT, r)
  {
    [VInt(m.request), VInt(m.accessoryType), VInt(m.inputType), VInt(m.keyState), VBytes(m.text),
     VInt(m.specialInput)]
  }

  function LaunchRequestRecord(m: LaunchRequest): (r: Record)
    ensures Conforms(LAUNCH_REQUEST, r)
  {
    [VBytes(m.packageName)]
  }

  // ------------------------------------------------------------------ reading typed messages

  function ReadBase(b: Bytes): Option<BaseMessage> {
    match Unmarshal(BASE, b)
    case None => None
    case Some(r) =>
      assert Conforms(BASE, r) && Fits(BASE[0].kind, r[0]) && Fits(BASE[1].kind, r[1])
          && Fits(BASE[2].kind, r[2]) && Fits(BASE[3].kind, r[3]) && Fits(BASE[4].kind, r[4]);
      Some(BaseMessage(r[0].i, r[1].b, r[2].i, r[3].i, r[4].i))
  }

  function ReadHandshake(b: Bytes): Option<Handshake> {
    match Unmarshal(HANDSHAKE, b)
    case None => None
    case Some(r) =>
      assert Fits(HANDSHAKE[0].kind, r[0]) && Fits(HANDSHAKE[1].kind, r[1]) && Fits(HANDSHAKE[2].kind, r[2])
          && Fits(HANDSHAKE[3].kind, r[3]) && Fits(HANDSHAKE[4].kind, r[4]);
      Some(Handshake(r[0].i, r[1].b, r[2].i, r[3].b, r[4].i))
  }

  function ReadEnvelope(b: Bytes): Option<Envelope> {
    match Unmarshal(ENVELOPE, b)
    case None => None
    case Some(r) =>
      assert Fits(ENVELOPE[0].kind, r[0]) && Fits(ENVELOPE[1].kind, r[1]);
      Some(Envelope(r[0].i, r[1].b))
  }

  function ReadAuthLevel(b: Bytes): Option<AuthorizationLevel> {
    match Unmarshal(AUTH_LEVEL, b)
    case None => None
    case Some(r) =>
      assert Fits(AUTH_LEVEL[0].kind, r[0]) && Fits(AUTH_LEVEL[1].kind, r[1]) && Fits(AUTH_LEVEL[2].kind, r[2]);
      Some(AuthorizationLevel(r[0].i, r[1].b, r[2].i))
  }

  function ReadPinCode(b: Bytes): Option<PairingPinCode> {
    match Unmarshal(PIN_CODE, b)
    case None => None
    case Some(r) =>
      assert Fits(PIN_CODE[0].kind, r[0]) && Fits(PIN_CODE[1].kind, r[1]);
      Some(PairingPinCode(r[0].b, r[1].b))
  }

  function ReadPairingResult(b: Bytes): Option<PairingResult> {
    match Unmarshal(PAIRING_RESULT, b)
    case None => None
    case Some(r) =>
      assert Fits(PAIRING_RESULT[0].kind, r[0]) && Fits(PAIRING_RESULT[1].kind, r[1])
          && Fits(PAIRING_RESULT[2].kind, r[2]) && Fits(PAIRING_RESULT[3].kind, r[3]);
      Some(PairingResult(r[0].i, r[1].b, r[2].b, r[3].b))
  }

  function ReadVirtualInput(b: Bytes): Option<VirtualInput> {
    match Unmarshal(VIRTUAL_INPUT, b)
    case None => None
    case Some(r) =>
      assert Fits(VIRTUAL_INPUT[0].kind, r[0]) && Fits(VIRTUAL_INPUT[1].kind, r[1])
          && Fits(VIRTUAL_INPUT[2].kind, r[2]) && Fits(VIRTUAL_INPUT[3].kind, r[3])
          && Fits(VIRTUAL_INPUT[4].kind, r[4]) && Fits(VIRTUAL_INPUT[5].kind, r[5]);
      Some(VirtualInput(r[0].i, r[1].i, r[2].i, r[3].i, r[4].b, r[5].i))
  }

  function ReadLaunchRequest(b: Bytes): Option<LaunchRequest> {
    match Unmarshal(LAUNCH_REQUEST, b)
    case None => None
    case Some(r) =>
      assert Fits(LAUNCH_REQUEST[0].kind, r[0]);
      Some(LaunchRequest(r[0].b))
  }

  function ReadLaunchResponse(b: Bytes): Option<LaunchResponse> {
    match Unmarshal(LAUNCH_RESPONSE, b)
    case None => None
    case Some(r) =>
      assert Fits(LAUNCH_RESPONSE[0].kind, r[0]);
      Some(LaunchResponse(r[0].i))
  }

  function ReadHostInformation(b: Bytes): Option<HostInformation> {
    match Unmarshal(HOST_INFORMATION, b)
    case None => None
    case Some(r) =>
      assert Fits(HOST_INFORMATION[0].kind, r[0]) && Fits(HOST_INFORMATION[1].kind, r[1])
          && Fits(HOST_INFORMATION[2].kind, r[2]) && Fits(HOST_INFORMATION[3].kind, r[3])
          && Fits(HOST_INFORMATION[4].kind, r[4]);
      Some(HostInformation(r[0].b, r[1].b, r[2].i, r[3].b, r[4].items))
  }

  // ------------------------------------------------------------------ encoders

  /** A service payload inside the base envelope. */
  function Base(service: Int32, payload: Option<Bytes>): Option<Bytes> {
    match payload
    case None => None
    case Some(p) => Marshal(BASE, BaseRecord(BaseMessage(service, p, 0, 0, 0)))
  }

  /** An authentication command; obj is the serialized object, empty when there is none. */
  function Auth(command: Int32, obj: Option<Bytes>): Option<Bytes> {
    match obj
    case None => None
    case Some(o) => Base(SERVICE_AUTHENTICATION, Marshal(ENVELOPE, EnvelopeRecord(Envelope(command, o))))
  }

  function HelloRecord(name: Bytes): (r: Record)
    ensures Conforms(HANDSHAKE, r)
  {
    HandshakeRecord(Handshake(COMMAND_HELLO, name, DEVICEOS_ANDROID, [], CLIENT_CAPABILITY))
  }

  function EncodeHello(name: Bytes): Option<Bytes> {
    if name == [] then None
    else Base(SERVICE_HANDSHAKE, Marshal(HANDSHAKE, HelloRecord(name)))
  }

  function EncodePinRequest(): Option<Bytes> {
    Auth(COMMAND_PIN_REQUEST, Some([]))
  }

  function EncodePinCode(pin: Bytes, deviceId: Bytes): Option<Bytes> {
    Auth(COMMAND_PIN_CODE, Marshal(PIN_CODE, PinCodeRecord(PairingPinCode(pin, deviceId))))
  }

  function EncodeSpecialInput(v: Int32): Option<Bytes> {
    Base(SERVICE_VIRTUAL_INPUT, Marshal(VIRTUAL_INPUT, VirtualInputRecord(
      VirtualInput(REQUEST_COMMAND, ACCESSORY_CONTROLLER, INPUT_SPECIAL, 0, [], v))))
  }

  function EncodeLaunch(pkg: Bytes): Option<Bytes> {
    match Marshal(LAUNCH_REQUEST, LaunchRequestRecord(LaunchRequest(pkg)))
    case None => None
    case Some(o) =>
      Base(SERVICE_REMOTE_LAUNCHER, Marshal(ENVELOPE, EnvelopeRecord(Envelope(REQUEST_LAUNCH, o))))
  }

  function EncodeRTTProbe(nowMs: Uint64): Option<Bytes> {
    Marshal(BASE, BaseRecord(BaseMessage(0, [], 0, 0, nowMs)))
  }

  // ------------------------------------------------------------------ Decode

  /** A decoded frame; at most one family of typed payload fields is set. */
  datatype Message = Message(
    base: BaseMessage,
    handshake: Option<Handshake>,
    authentication: Option<Envelope>,
    authLevel: Option<AuthorizationLevel>,
    pairingResult: Option<PairingResult>,
    pinChallenge: bool,
    launcher: Option<Envelope>,
    launchResult: Option<LaunchResponse>,
    hostInfoPayload: Option<Envelope>,
    hostInfo: Option<HostInformation>)
  {
    predicate IsRTT() { base.timeStamp != 0 }
  }

  datatype DecodeError = BadBase | BadPayload(serviceId: Int32)
  datatype Decoding = Ok(message: Message) | Failed(error: DecodeError)

  /** What ends a connection's reader, as recorded for whoever waits for a message. */
  datatype Cause = BadFrame(error: DecodeError) | ReadFailed | KeepaliveFailed

  /** A message that carries nothing beyond its base envelope. */
  function Plain(b: BaseMessage): Message {
    Message(b, None, None, None, None, false, None, None, None, None)
  }

  function Decode(frame: Bytes): Decoding {
    match ReadBase(frame)
    case None => Failed(BadBase)
    case Some(b) =>
      match DecodePayload(b)
      case None => Failed(BadPayload(b.serviceId))
      case Some(m) => Ok(m)
  }

  function DecodePayload(b: BaseMessage): Option<Message> {
    if b.serviceId == SERVICE_HANDSHAKE then
      match ReadHandshake(b.payload)
      case None => None
      case Some(h) => Some(Plain(b).(handshake := Some(h)))
    else if b.serviceId == SERVICE_AUTHENTICATION then
      match ReadEnvelope(b.payload)
      case None => None
      case Some(a) => DecodeAuth(b, a)
    else if b.serviceId == SERVICE_REMOTE_LAUNCHER then
      match ReadEnvelope(b.payload)
      case None => None
      case Some(l) =>
        if l.command != RESPONSE_LAUNCH then Some(Plain(b).(launcher := Some(l)))
        else
          match ReadLaunchResponse(l.object_)
          case None => None
          case Some(r) => Some(Plain(b).(launcher := Some(l), launchResult := Some(r)))
    else if b.serviceId == SERVICE_HOST_INFO then
      match ReadEnvelope(b.payload)
      case None => None
      case Some(h) =>
        if h.command != COMMAND_HOST_INFO_RESULT || h.object_ == [] then Some(Plain(b).(hostInfoPayload := Some(h)))
        else
          match ReadHostInformation(h.object_)
          case None => None
          case Some(i) => Some(Plain(b).(hostInfoPayload := Some(h), hostInfo := Some(i)))
    else Some(Plain(b))
  }

  function DecodeAuth(b: BaseMessage, a: Envelope): Option<Message> {
    var m := Plain(b).(authentication := Some(a));
    if a.command == COMMAND_AUTHORIZATION_LEVEL then
      match ReadAuthLevel(a.object_)
      case None => None
      case Some(l) => Some(m.(authLevel := Some(l)))
    else if a.command == COMMAND_PAIRING_RESULT then
      match ReadPairingResult(a.object_)
      case None => None
      case Some(r) => Some(m.(pairingResult := Some(r)))
    else if a.command == COMMAND_PIN_CHALLENGE then Some(m.(pinChallenge := true))
    else Some(m)
  }

  // ------------------------------------------------------------------ inversion

  lemma BaseRoundTrip(m: BaseMessage)
    requires |m.payload| < TWO_63
    ensures Marshal(BASE, BaseRecord(m)).Some?
    ensures ReadBase(Marshal(BASE, BaseRecord(m)).value) == Some(m)
  {
    RoundTrip(BASE, BaseRecord(m));
  }

  lemma EnvelopeRoundTrip(m: Envelope)
    requires Marshal(ENVELOPE, EnvelopeRecord(m)).Some?
    ensures ReadEnvelope(Marshal(ENVELOPE, EnvelopeRecord(m)).value) == Some(m)
  {
    RoundTrip(ENVELOPE, EnvelopeRecord(m));
  }

  /** Whatever a service wraps, Decode sees that service id and that payload, and no other base field. */
  lemma BaseDecodes(service: Int32, payload: Bytes)
    requires Base(service, Some(payload)).Some?
    ensures Decode(Base(service, Some(payload)).value) ==
            match DecodePayload(BaseMessage(service, payload, 0, 0, 0))
            case None => Failed(BadPayload(service))
            case Some(m) => Ok(m)
  {
    var rec := BaseRecord(BaseMessage(service, payload, 0, 0, 0));
    assert Encodable(BASE[1].kind, rec[1]);
    BaseRoundTrip(BaseMessage(service, payload, 0, 0, 0));
  }

  /** HELLO: all five handshake fields come back through both levels of nesting. */
  lemma HelloDecodes(name: Bytes)
    requires EncodeHello(name).Some?
    ensures Decode(EncodeHello(name).value).Ok?
    ensures var m := Decode(EncodeHello(name).value).message;
            && m.base.(payload := []) == BaseMessage(SERVICE_HANDSHAKE, [], 0, 0, 0)
            && m == Plain(m.base).(handshake :=
                 Some(Handshake(COMMAND_HELLO, name, DEVICEOS_ANDROID, [], CLIENT_CAPABILITY)))
  {
    hide Unmarshal, EncodeFields, Encodable;
    var rec := HelloRecord(name);
    RoundTrip(HANDSHAKE, rec);
    BaseDecodes(SERVICE_HANDSHAKE, Marshal(HANDSHAKE, rec).value);
  }

  /** An authentication command comes back with its object, whatever the object is. */
  lemma AuthDecodes(command: Int32, o: Bytes)
    requires Auth(command, Some(o)).Some?
    ensures exists p: Bytes ::
              Decode(Auth(command, Some(o)).value) ==
              var b := BaseMessage(SERVICE_AUTHENTICATION, p, 0, 0, 0);
              match DecodeAuth(b, Envelope(command, o))
              case None => Failed(BadPayload(SERVICE_AUTHENTICATION))
              case Some(m) => Ok(m)
  {
    var rec := EnvelopeRecord(Envelope(command, o));
    EnvelopeRoundTrip(Envelope(command, o));
    BaseDecodes(SERVICE_AUTHENTICATION, Marshal(ENVELOPE, rec).value);
  }

  lemma PinRequestDecodes()
    ensures EncodePinRequest().Some? && Decode(EncodePinRequest().value).Ok?
    ensures var m := Decode(EncodePinRequest().value).message;
            && m.base.serviceId == SERVICE_AUTHENTICATION
            && m == Plain(m.base).(authentication := Some(Envelope(COMMAND_PIN_REQUEST, [])))
  {
    var p := Marshal(ENVELOPE, EnvelopeRecord(Envelope(COMMAND_PIN_REQUEST, []))).value;
    assert EncodeField(ENVELOPE[1], VBytes([])) == [];
    assert p == EncodeField(ENVELOPE[0], VInt(COMMAND_PIN_REQUEST)) + (EncodeField(ENVELOPE[1], VBytes([])) + []);
    assert |p| < TWO_63 by {
      assert |EncodeVarint(8)| == 1;
      VarintRoundTrip(COMMAND_PIN_REQUEST, []);
    }
    BaseRoundTrip(BaseMessage(SERVICE_AUTHENTICATION, p, 0, 0, 0));
    AuthDecodes(COMMAND_PIN_REQUEST, []);
  }

  /** PIN_CODE: both strings come back through all three levels of nesting. */
  lemma PinCodeDecodes(pin: Bytes, deviceId: Bytes)
    requires EncodePinCode(pin, deviceId).Some?
    ensures Decode(EncodePinCode(pin, deviceId).value).Ok?
    ensures var m := Decode(EncodePinCode(pin, deviceId).value).message;
            && m.base.serviceId == SERVICE_AUTHENTICATION
            && m.authentication.Some?
            && m == Plain(m.base).(authentication := m.authentication)
            && m.authentication.value.command == COMMAND_PIN_CODE
            && ReadPinCode(m.authentication.value.object_) == Some(PairingPinCode(pin, deviceId))
  {
    hide Unmarshal, EncodeFields, Encodable;
    var rec := PinCodeRecord(PairingPinCode(pin, deviceId));
    RoundTrip(PIN_CODE, rec);
    AuthDecodes(COMMAND_PIN_CODE, Marshal(PIN_CODE, rec).value);
  }

  /** SPECIAL input: every value encodes; Decode keeps the payload, and it holds exactly the six fields sent. */
  lemma SpecialInputDecodes(v: Int32)
    ensures EncodeSpecialInput(v).Some? && Decode(EncodeSpecialInput(v).value).Ok?
    ensures var m := Decode(EncodeSpecialInput(v).value).message;
            && m.base.serviceId == SERVICE_VIRTUAL_INPUT
            && m == Plain(m.base)
            && ReadVirtualInput(m.base.payload) ==
               Some(VirtualInput(REQUEST_COMMAND, ACCESSORY_CONTROLLER, INPUT_SPECIAL, 0, [], v))
  {
    hide Decode, Unmarshal, EncodeFields, Encodable;
    var rec := VirtualInputRecord(VirtualInput(REQUEST_COMMAND, ACCESSORY_CONTROLLER, INPUT_SPECIAL, 0, [], v));
    SpecialInputEncodes(v);
    RoundTrip(VIRTUAL_INPUT, rec);
    BaseDecodes(SERVICE_VIRTUAL_INPUT, Marshal(VIRTUAL_INPUT, rec).value);
  }

  /** LAUNCH: the package name comes back through all three levels of nesting. */
  lemma LaunchDecodes(pkg: Bytes)
    requires EncodeLaunch(pkg).Some?
    ensures Decode(EncodeLaunch(pkg).value).Ok?
    ensures var m := Decode(EncodeLaunch(pkg).value).message;
            && m.base.serviceId == SERVICE_REMOTE_LAUNCHER
            && m.launcher.Some?
            && m == Plain(m.base).(launcher := m.launcher)
            && m.launcher.value.command == REQUEST_LAUNCH
            && ReadLaunchRequest(m.launcher.value.object_) == Some(LaunchRequest(pkg))
  {
    var rec := LaunchRequestRecord(LaunchRequest(pkg));
    RoundTrip(LAUNCH_REQUEST, rec);
    var o := Marshal(LAUNCH_REQUEST, rec).value;
    EnvelopeRoundTrip(Envelope(REQUEST_LAUNCH, o));
    BaseDecodes(SERVICE_REMOTE_LAUNCHER, Marshal(ENVELOPE, EnvelopeRecord(Envelope(REQUEST_LAUNCH, o))).value);
  }

  /** A probe comes back as its time stamp and counts as RTT exactly when that stamp is not zero. */
  lemma RTTProbeDecodes(nowMs: Uint64)
    ensures EncodeRTTProbe(nowMs).Some?
    ensures Decode(EncodeRTTProbe(nowMs).value) == Ok(Plain(BaseMessage(0, [], 0, 0, nowMs)))
    ensures Plain(BaseMessage(0, [], 0, 0, nowMs)).IsRTT() <==> nowMs != 0
  {
    BaseRoundTrip(BaseMessage(0, [], 0, 0, nowMs));
  }

  // ------------------------------------------------------------------ when encoding succeeds

  lemma BaseSucceeds(service: Int32, p: Bytes)
    requires |p| < TWO_63
    ensures Base(service, Some(p)) == Some(EncodeFields(BASE, BaseRecord(BaseMessage(service, p, 0, 0, 0)), 0))
  {
    BaseRoundTrip(BaseMessage(service, p, 0, 0, 0));
  }

  lemma EnvelopeSize(m: Envelope)
    requires |m.object_| < TWO_63
    ensures Marshal(ENVELOPE, EnvelopeRecord(m)).Some?
    ensures |Marshal(ENVELOPE, EnvelopeRecord(m)).value| <= |m.object_| + 40
  {
    assert Content(EnvelopeRecord(m), 1) == |m.object_|;
    RecordSize(ENVELOPE, EnvelopeRecord(m), 0);
  }

  lemma HelloSize(name: Bytes)
    requires |name| < TWO_63
    ensures Marshal(HANDSHAKE, HelloRecord(name)).Some? <==> ValidUtf8(name)
    ensures |EncodeFields(HANDSHAKE, HelloRecord(name), 0)| <= |name| + 100
  {
    var r := HelloRecord(name);
    assert Encodable(HANDSHAKE[1].kind, r[1]) <==> ValidUtf8(name);
    assert Content(r, 4) == 0;
    assert Content(r, 2) == 0;
    RecordSize(HANDSHAKE, r, 0);
  }

  /** HELLO is refused exactly for an empty name or one that is not UTF-8. */
  lemma HelloEncodes(name: Bytes)
    requires |name| + 128 < TWO_63
    ensures EncodeHello(name).Some? <==> name != [] && ValidUtf8(name)
  {
    HelloSize(name);
    BaseSucceeds(SERVICE_HANDSHAKE, EncodeFields(HANDSHAKE, HelloRecord(name), 0));
  }

  lemma PinCodeSize(pin: Bytes, deviceId: Bytes)
    requires |pin| + |deviceId| < TWO_63
    ensures var r := PinCodeRecord(PairingPinCode(pin, deviceId));
            && (Marshal(PIN_CODE, r).Some? <==> ValidUtf8(pin) && ValidUtf8(deviceId))
            && |EncodeFields(PIN_CODE, r, 0)| <= |pin| + |deviceId| + 40
  {
    var r := PinCodeRecord(PairingPinCode(pin, deviceId));
    assert Encodable(PIN_CODE[0].kind, r[0]) <==> ValidUtf8(pin);
    assert Encodable(PIN_CODE[1].kind, r[1]) <==> ValidUtf8(deviceId);
    assert Content(r, 1) == |deviceId|;
    RecordSize(PIN_CODE, r, 0);
  }

  /** PIN_CODE is refused exactly when one of its strings is not UTF-8. */
  lemma PinCodeEncodes(pin: Bytes, deviceId: Bytes)
    requires |pin| + |deviceId| + 256 < TWO_63
    ensures EncodePinCode(pin, deviceId).Some? <==> ValidUtf8(pin) && ValidUtf8(deviceId)
  {
    PinCodeSize(pin, deviceId);
    var env := Envelope(COMMAND_PIN_CODE, EncodeFields(PIN_CODE, PinCodeRecord(PairingPinCode(pin, deviceId)), 0));
    EnvelopeSize(env);
    BaseSucceeds(SERVICE_AUTHENTICATION, EncodeFields(ENVELOPE, EnvelopeRecord(env), 0));
  }

  lemma SpecialInputSize(v: Int32)
    ensures var r := VirtualInputRecord(VirtualInput(REQUEST_COMMAND, ACCESSORY_CONTROLLER, INPUT_SPECIAL, 0, [], v));
            Marshal(VIRTUAL_INPUT, r).Some? && |EncodeFields(VIRTUAL_INPUT, r, 0)| <= 120
  {
    var r := VirtualInputRecord(VirtualInput(REQUEST_COMMAND, ACCESSORY_CONTROLLER, INPUT_SPECIAL, 0, [], v));
    assert Encodable(VIRTUAL_INPUT[4].kind, r[4]);
    assert Content(r, 5) == 0;
    assert Content(r, 3) == 0;
    assert Content(r, 1) == 0;
    RecordSize(VIRTUAL_INPUT, r, 0);
  }

  /** SPECIAL input is never refused. */
  lemma SpecialInputEncodes(v: Int32)
    ensures EncodeSpecialInput(v).Some?
  {
    hide EncodeFields;
    SpecialInputSize(v);
    var r := VirtualInputRecord(VirtualInput(REQUEST_COMMAND, ACCESSORY_CONTROLLER, INPUT_SPECIAL, 0, [], v));
    BaseSucceeds(SERVICE_VIRTUAL_INPUT, EncodeFields(VIRTUAL_INPUT, r, 0));
  }

  lemma LaunchRequestSize(pkg: Bytes)
    requires |pkg| < TWO_63
    ensures var r := LaunchRequestRecord(LaunchRequest(pkg));
            && (Marshal(LAUNCH_REQUEST, r).Some? <==> ValidUtf8(pkg))
            && |EncodeFields(LAUNCH_REQUEST, r, 0)| <= |pkg| + 20
  {
    var r := LaunchRequestRecord(LaunchRequest(pkg));
    assert Encodable(LAUNCH_REQUEST[0].kind, r[0]) <==> ValidUtf8(pkg);
    assert Content(r, 1) == 0;
    RecordSize(LAUNCH_REQUEST, r, 0);
  }

  /** LAUNCH is refused exactly for a package name that is not UTF-8. */
  lemma LaunchEncodes(pkg: Bytes)
    requires |pkg| + 256 < TWO_63
    ensures EncodeLaunch(pkg).Some? <==> ValidUtf8(pkg)
  {
    LaunchRequestSize(pkg);
    var env := Envelope(REQUEST_LAUNCH, EncodeFields(LAUNCH_REQUEST, LaunchRequestRecord(LaunchRequest(pkg)), 0));
    EnvelopeSize(env);
    BaseSucceeds(SERVICE_REMOTE_LAUNCHER, EncodeFields(ENVELOPE, EnvelopeRecord(env), 0));
  }

  // ------------------------------------------------------------------ the first byte on the wire

  /** The tag byte of the first base field that is not at its default; 0 when all are. */
  function FirstTag(m: BaseMessage): Byte {
    if m.serviceId != 0 then 0x08
    else if m.payload != [] then 0x12
    else if m.serviceNumber != 0 then 0x18
    else if m.size != 0 then 0x20
    else if m.timeStamp != 0 then 0x28
    else 0
  }

  /** An encoded base message starts with the tag of its first field that is set. */
  lemma BaseFirstByte(m: BaseMessage)
    requires |m.payload| < TWO_63
    ensures Marshal(BASE, BaseRecord(m)).Some?
    ensures var b := Marshal(BASE, BaseRecord(m)).value;
            if FirstTag(m) == 0 then b == [] else b != [] && b[0] == FirstTag(m)
  {
    var r := BaseRecord(m);
    BaseRoundTrip(m);
    assert EncodeFields(BASE, r, 3) ==
           EncodeField(BASE[3], r[3]) + (EncodeField(BASE[4], r[4]) + EncodeFields(BASE, r, 5));
    assert EncodeFields(BASE, r, 0) == EncodeField(BASE[0], r[0]) +
           (EncodeField(BASE[1], r[1]) + (EncodeField(BASE[2], r[2]) + EncodeFields(BASE, r, 3)));
  }

  /** No encoder's frame can be taken for a size announcement, which starts with 0x20. */
  lemma EncodersNeverAnnounce(name: Bytes, pin: Bytes, deviceId: Bytes, v: Int32, pkg: Bytes, nowMs: Uint64)
    ensures forall f :: f in {EncodeHello(name), EncodePinRequest(), EncodePinCode(pin, deviceId),
                              EncodeSpecialInput(v), EncodeLaunch(pkg)} && f.Some? ==>
              f.value != [] && f.value[0] == 0x08
    ensures var f := EncodeRTTProbe(nowMs); f.Some? && (nowMs != 0 ==> f.value != [] && f.value[0] == 0x28)
  {
    hide Marshal;
    forall s: Int32, p: Bytes | s != 0 && Base(s, Some(p)).Some?
      ensures Base(s, Some(p)).value != [] && Base(s, Some(p)).value[0] == 0x08
    {
      ServiceFirstByte(s, p);
    }
    BaseFirstByte(BaseMessage(0, [], 0, 0, nowMs));
  }

  lemma ServiceFirstByte(service: Int32, payload: Bytes)
    requires service != 0 && Base(service, Some(payload)).Some?
    ensures Base(service, Some(payload)).value != [] && Base(service, Some(payload)).value[0] == 0x08
  {
    var m := BaseMessage(service, payload, 0, 0, 0);
    assert Encodable(BASE[1].kind, BaseRecord(m)[1]);
    BaseFirstByte(m);
  }

  // ------------------------------------------------------------------ golden frames of the test suite

  /** A small number in a low field takes two bytes. */
  lemma GoldenField(d: FieldDesc, v: Int32)
    requires d.kind == KInt32 && d.num < 16 && 0 < v < 128
    ensures EncodeField(d, VInt(v)) == [d.num * 8, v]
  {
    assert EncodeVarint(d.num * 8) == [d.num * 8] && EncodeVarint(v) == [v];
  }

  lemma GoldenPayload()
    ensures Marshal(VIRTUAL_INPUT, VirtualInputRecord(VirtualInput(20, 5, 30, 0, [], 30))) ==
            Some([0x08, 0x14, 0x10, 0x05, 0x20, 0x1E, 0x40, 0x1E])
  {
    hide EncodeFields, Encodable;
    SpecialInputSize(30);
    GoldenInput(VirtualInputRecord(VirtualInput(20, 5, 30, 0, [], 30)));
  }

  lemma GoldenInput(r: Record)
    requires r == VirtualInputRecord(VirtualInput(20, 5, 30, 0, [], 30))
    ensures EncodeFields(VIRTUAL_INPUT, r, 0) == [0x08, 0x14, 0x10, 0x05, 0x20, 0x1E, 0x40, 0x1E]
  {
    hide EncodeField, EncodeFields;
    GoldenField(VIRTUAL_INPUT[0], 20);
    GoldenField(VIRTUAL_INPUT[1], 5);
    GoldenField(VIRTUAL_INPUT[2], 30);
    GoldenField(VIRTUAL_INPUT[5], 30);
    GoldenDefaults(r);
    InputFields(r);
    var e: Bytes := [];
    assert e + (e + ([0x40, 0x1E] + e)) == [0x40, 0x1E];
    assert [0x08, 0x14] + ([0x10, 0x05] + ([0x20, 0x1E] + [0x40, 0x1E]))
        == [0x08, 0x14, 0x10, 0x05, 0x20, 0x1E, 0x40, 0x1E];
  }

  lemma InputFields(r: Record)
    requires Conforms(VIRTUAL_INPUT, r)
    ensures EncodeFields(VIRTUAL_INPUT, r, 0) ==
            EncodeField(VIRTUAL_INPUT[0], r[0]) + (EncodeField(VIRTUAL_INPUT[1], r[1]) +
              (EncodeField(VIRTUAL_INPUT[2], r[2]) + (EncodeField(VIRTUAL_INPUT[3], r[3]) +
                (EncodeField(VIRTUAL_INPUT[4], r[4]) + (EncodeField(VIRTUAL_INPUT[5], r[5]) + [])))))
  {
    hide EncodeField;
    assert EncodeFields(VIRTUAL_INPUT, r, 4) ==
           EncodeField(VIRTUAL_INPUT[4], r[4]) + (EncodeField(VIRTUAL_INPUT[5], r[5]) + []);
    assert EncodeFields(VIRTUAL_INPUT, r, 2) ==
           EncodeField(VIRTUAL_INPUT[2], r[2]) + (EncodeField(VIRTUAL_INPUT[3], r[3]) + EncodeFields(VIRTUAL_INPUT, r, 4));
  }

  lemma GoldenDefaults(r: Record)
    requires Conforms(VIRTUAL_INPUT, r) && r[3] == VInt(0) && r[4] == VBytes([])
    ensures EncodeField(VIRTUAL_INPUT[3], r[3]) == [] && EncodeField(VIRTUAL_INPUT[4], r[4]) == []
  {
  }

  lemma GoldenSleepNow()
    ensures EncodeSpecialInput(30) ==
            Some([0x08, 0xE9, 0x07, 0x12, 0x08, 0x08, 0x14, 0x10, 0x05, 0x20, 0x1E, 0x40, 0x1E])
  {
    hide Marshal, EncodeFields, Base;
    var p: Bytes := [0x08, 0x14, 0x10, 0x05, 0x20, 0x1E, 0x40, 0x1E];
    GoldenPayload();
    GoldenBase(1001, p);
    assert EncodeVarint(1001) == [0xE9, 0x07];
    assert [0x08] + [0xE9, 0x07] + [0x12, |p|] + p
        == [0x08, 0xE9, 0x07, 0x12, 0x08, 0x08, 0x14, 0x10, 0x05, 0x20, 0x1E, 0x40, 0x1E];
  }

  lemma GoldenHead(service: Int32, p: Bytes)
    requires 0 < service && 0 < |p| < 128
    ensures EncodeField(BASE[0], VInt(service)) == [0x08] + EncodeVarint(service)
    ensures EncodeField(BASE[1], VBytes(p)) == [0x12, |p|] + p
  {
    assert EncodeVarint(0x08) == [0x08] && EncodeVarint(0x12) == [0x12] && EncodeVarint(|p|) == [|p|];
  }

  /** A base message with no more than a service id and a payload. */
  lemma GoldenTwoFields(service: Int32, p: Bytes)
    requires |p| < TWO_63
    ensures Base(service, Some(p)) == Some(EncodeField(BASE[0], VInt(service)) + EncodeField(BASE[1], VBytes(p)))
  {
    var b := BaseRecord(BaseMessage(service, p, 0, 0, 0));
    BaseSucceeds(service, p);
    assert EncodeFields(BASE, b, 4) == [];
    assert EncodeFields(BASE, b, 2) == [];
    hide EncodeField;
    assert EncodeFields(BASE, b, 0) ==
           EncodeField(BASE[0], b[0]) + (EncodeField(BASE[1], b[1]) + EncodeFields(BASE, b, 2));
    assert EncodeField(BASE[1], b[1]) + [] == EncodeField(BASE[1], b[1]);
  }

  /** The envelope of a small payload: service id, then the payload behind its one-byte length. */
  lemma GoldenBase(service: Int32, p: Bytes)
    requires 0 < service && 0 < |p| < 128
    ensures Base(service, Some(p)) == Some([0x08] + EncodeVarint(service) + [0x12, |p|] + p)
  {
    hide EncodeField, EncodeVarint, Base;
    GoldenHead(service, p);
    GoldenTwoFields(service, p);
    assert [0x08] + EncodeVarint(service) + ([0x12, |p|] + p) == [0x08] + EncodeVarint(service) + [0x12, |p|] + p;
  }

  lemma GoldenCommand()
    ensures Marshal(ENVELOPE, EnvelopeRecord(Envelope(1101, []))) == Some([0x08, 0xCD, 0x08])
  {
    var r := EnvelopeRecord(Envelope(1101, []));
    EnvelopeSize(Envelope(1101, []));
    assert EncodeVarint(1101) == [0xCD, 0x08] && EncodeVarint(0x08) == [0x08];
    assert EncodeField(ENVELOPE[0], r[0]) == [0x08, 0xCD, 0x08];
    assert EncodeFields(ENVELOPE, r, 1) == [];
    hide EncodeField, EncodeVarint;
    assert EncodeFields(ENVELOPE, r, 0) == [0x08, 0xCD, 0x08] + [] == [0x08, 0xCD, 0x08];
  }

  lemma GoldenPinRequest()
    ensures EncodePinRequest() == Some([0x08, 0x0A, 0x12, 0x03, 0x08, 0xCD, 0x08])
  {
    hide Marshal, EncodeFields, Base;
    var p: Bytes := [0x08, 0xCD, 0x08];
    GoldenCommand();
    GoldenBase(10, p);
    assert EncodeVarint(10) == [0x0A];
    assert [0x08] + [0x0A] + [0x12, |p|] + p == [0x08, 0x0A, 0x12, 0x03, 0x08, 0xCD, 0x08];
  }

  /** A special input starts with its service id, followed by its payload. */
  lemma SpecialInputBytes(v: Int32)
    ensures EncodeSpecialInput(v).Some?
    ensures var m := EncodeSpecialInput(v).value;
            3 < |m| <= 200 && m[..3] == [0x08, 0xE9, 0x07]
  {
    hide Marshal, EncodeFields, EncodeField;
    SpecialInputSize(v);
    var p := SpecialInputPayload(v);
    GoldenTwoFields(SERVICE_VIRTUAL_INPUT, p);
    PayloadFieldSize(p);
    ServiceField();
  }

  lemma SpecialInputPayload(v: Int32) returns (p: Bytes)
    ensures EncodeSpecialInput(v) == Base(SERVICE_VIRTUAL_INPUT, Some(p)) && 0 < |p| <= 120
  {
    hide EncodeField;
    SpecialInputSize(v);
    var r := VirtualInputRecord(VirtualInput(REQUEST_COMMAND, ACCESSORY_CONTROLLER, INPUT_SPECIAL, 0, [], v));
    GoldenField(VIRTUAL_INPUT[0], REQUEST_COMMAND);
    p := EncodeFields(VIRTUAL_INPUT, r, 0);
    assert p == EncodeField(VIRTUAL_INPUT[0], r[0]) + EncodeFields(VIRTUAL_INPUT, r, 1);
  }

  lemma PayloadFieldSize(p: Bytes)
    requires 0 < |p| < TWO_63
    ensures 0 < |EncodeField(BASE[1], VBytes(p))| <= |p| + 20
  {
    FieldSize(BASE[1], VBytes(p));
  }

  lemma ServiceField()
    ensures EncodeField(BASE[0], VInt(SERVICE_VIRTUAL_INPUT)) == [0x08, 0xE9, 0x07]
  {
    assert EncodeVarint(0x08) == [0x08] && EncodeVarint(1001) == [0xE9, 0x07];
  }

  /** Those three bytes alone are a message too. */
  lemma HeadDecodes()
    ensures Decode([0x08, 0xE9, 0x07]) == Ok(Plain(BaseMessage(SERVICE_VIRTUAL_INPUT, [], 0, 0, 0)))
  {
    hide EncodeFields, Unmarshal;
    ServiceField();
    GoldenTwoFields(SERVICE_VIRTUAL_INPUT, []);
    var b: Bytes := [0x08, 0xE9, 0x07];
    assert EncodeField(BASE[1], VBytes([])) == [] && b + [] == b;
    assert Base(SERVICE_VIRTUAL_INPUT, Some([])) == Some(b);
    BaseDecodes(SERVICE_VIRTUAL_INPUT, []);
  }
}
