/** The accessory object of index.js: configuration checks and topic names
    (index.js:14-53), the MQTT connect and message handlers that fill the cache
    (index.js:61-81), and the get/set handlers of the HomeKit characteristics
    (index.js:153-285). Publishing is an append to `outbox`; a value pushed to
    another characteristic with `updateValue` is an append to `notifications`. */
module Device {
  import opened Wrappers
  import opened JsValue
  import opened Encoder

  /** The accessory configuration (index.js:23-29). */
  datatype Config = Config(
    password: Option<string>,
    token: Option<string>,
    name: Option<string>,
    showsHumidity: Option<bool>,
    showsTemperature: Option<bool>)

  /** What a successful construction fixes for the life of the accessory. */
  datatype Identity = Identity(
    password: string,
    token: string,
    name: string,
    rawTopic: string,
    reqTopic: string,
    showsHumidity: bool,
    showsTemperature: bool)

  const PasswordMissing := "You must provide your Medole password."
  const TokenMissing := "You must provide your Medole token."
  const DefaultName := "Medole Dehumidifier"
  const TopicRoot := "MEDOLE/MEDOLE/"

  /** JavaScript truthiness of an optional string setting: `undefined` and the
      empty string are falsy. */
  predicate Present(s: Option<string>) {
    s.Some? && s.value != ""
  }

  /** The topic `MEDOLE/MEDOLE/<token>/<leaf>` (index.js:41-43). */
  function Topic(token: string, leaf: string): (t: string)
    ensures |t| == |TopicRoot| + |token| + 1 + |leaf|
  {
    TopicRoot + token + "/" + leaf
  }

  /** The constructor's checks and derived settings (index.js:23-43): the
      password is checked first, then the token; on success both topics are
      derived from the token, the name defaults when it is not given and the
      two sensor flags default to false (index.js:15-21, 28-29). */
  function Configure(config: Config): (r: Result<Identity, string>)
    ensures r.Success? <==> Present(config.password) && Present(config.token)
    ensures !Present(config.password) ==> r == Failure(PasswordMissing)
    ensures Present(config.password) && !Present(config.token) ==> r == Failure(TokenMissing)
    ensures r.Success? ==>
      && r.value.token == config.token.value
      && r.value.password == config.password.value
      && r.value.rawTopic == TopicRoot + config.token.value + "/raw"
      && r.value.reqTopic == TopicRoot + config.token.value + "/req"
    ensures r.Success? ==>
      r.value.name == if Present(config.name) then config.name.value else DefaultName
    ensures r.Success? ==>
      && (config.showsHumidity.Some? ==> r.value.showsHumidity == config.showsHumidity.value)
      && (config.showsHumidity.None? ==> !r.value.showsHumidity)
      && (config.showsTemperature.Some? ==> r.value.showsTemperature == config.showsTemperature.value)
      && (config.showsTemperature.None? ==> !r.value.showsTemperature)
  {
    if !Present(config.password) then Failure(PasswordMissing)
    else if !Present(config.token) then Failure(TokenMissing)
    else
      var token := config.token.value;
      Success(Identity(
        config.password.value,
        token,
        if Present(config.name) then config.name.value else DefaultName,
        Topic(token, "raw"),
        Topic(token, "req"),
        config.showsHumidity.GetOr(false),
        config.showsTemperature.GetOr(false)))
  }

  /** The two topics of a device never coincide, and different tokens never
      share a topic, so a device reads only its own telemetry and commands
      reach only it. */
  lemma TopicsSeparate(token1: string, token2: string, leaf1: string, leaf2: string)
    requires leaf1 in {"raw", "req"} && leaf2 in {"raw", "req"}
    ensures Topic(token1, leaf1) == Topic(token2, leaf2) <==> token1 == token2 && leaf1 == leaf2
  {
    var t1, t2 := Topic(token1, leaf1), Topic(token2, leaf2);
    if t1 == t2 {
      assert |token1| == |token2|;
      var n := |TopicRoot|;
      assert token1 == t1[n..n + |token1|];
      assert token2 == t2[n..n + |token2|];
      assert leaf1 == t1[n + |token1| + 1..];
      assert leaf2 == t2[n + |token2| + 1..];
    }
  }

  /** The five telemetry fields of the accessory; `None` is `undefined`. */
  datatype Cache = Cache(
    currentHumidity: Option<Value>,
    currentTemperature: Option<Value>,
    fanSpeed: Option<Value>,
    isActive: Option<Value>,
    targetHumidity: Option<Value>)

  /** The state right after construction (index.js:46-50). */
  const Unknown := Cache(None, None, None, None, None)

  /** An inbound MQTT payload: text that `JSON.parse` rejects, or the value it yields. */
  datatype Message = Unparsable | Parsed(json: Value)

  /** The cache after the handler, and whether the handler threw. */
  datatype Handled = Handled(cache: Cache, threw: bool)

  /** The message handler of index.js:66-79. A parse error leaves `json`
      undefined; the `finally` block then assigns the five fields in order, and
      the first property read of `undefined` or `null` throws, keeping the
      assignments already made. */
  function Receive(c: Cache, m: Message): (r: Handled)
    ensures r.threw ==> r.cache.isActive == c.isActive && r.cache.targetHumidity == c.targetHumidity
    ensures m.Unparsable? ==> r == Handled(c, true)
  {
    var json := if m.Parsed? then Some(m.json) else None;
    var h := Path(json, [Field("H"), First]);
    if h.Failure? then Handled(c, true) else
    var c1 := c.(currentHumidity := h.value);
    var t := Path(json, [Field("T"), First]);
    if t.Failure? then Handled(c1, true) else
    var c2 := c1.(currentTemperature := t.value);
    var fan := Path(json, [Field("FAN")]);
    if fan.Failure? then Handled(c2, true) else
    var c3 := c2.(fanSpeed := fan.value);
    var power := Path(json, [Field("POWER"), First]);
    if power.Failure? then Handled(c3, true) else
    var c4 := c3.(isActive := power.value);
    var target := Path(json, [Field("HUMIDITY")]);
    if target.Failure? then Handled(c4, true) else
    Handled(c4.(targetHumidity := target.value), false)
  }

  /** Whether a message throws does not depend on the cache, and a message that
      does not throw overwrites all five fields: the last message wins. */
  lemma ReceiveOverwrites(c1: Cache, c2: Cache, m: Message)
    ensures Receive(c1, m).threw == Receive(c2, m).threw
    ensures !Receive(c1, m).threw ==> Receive(c1, m).cache == Receive(c2, m).cache
  {
  }

  /** Delivering the same message twice has the effect of delivering it once. */
  lemma ReceiveIdempotent(c: Cache, m: Message)
    ensures Receive(Receive(c, m).cache, m) == Receive(c, m)
  {
  }

  /** A well-formed telemetry object sets every field from its own entry
      (index.js:73-77). */
  lemma ReceiveWellFormed(c: Cache, fields: map<string, Value>, hs: seq<Value>, ts: seq<Value>, ps: seq<Value>)
    requires "H" in fields && fields["H"] == Arr(hs) && |hs| > 0
    requires "T" in fields && fields["T"] == Arr(ts) && |ts| > 0
    requires "POWER" in fields && fields["POWER"] == Arr(ps) && |ps| > 0
    ensures Receive(c, Parsed(Obj(fields))) == Handled(Cache(
      Some(hs[0]),
      Some(ts[0]),
      if "FAN" in fields then Some(fields["FAN"]) else None,
      Some(ps[0]),
      if "HUMIDITY" in fields then Some(fields["HUMIDITY"]) else None), false)
  {
  }

  /** A message without `T` throws after the humidity is stored; a message
      without `POWER` throws after humidity, temperature and fan speed are
      stored (index.js:73-76). */
  lemma ReceivePartial(c: Cache, fields: map<string, Value>, hs: seq<Value>, ts: seq<Value>)
    requires "H" in fields && fields["H"] == Arr(hs) && |hs| > 0
    ensures "T" !in fields ==>
      Receive(c, Parsed(Obj(fields))) == Handled(c.(currentHumidity := Some(hs[0])), true)
    ensures "T" in fields && fields["T"] == Arr(ts) && |ts| > 0 && "POWER" !in fields ==>
      Receive(c, Parsed(Obj(fields))) == Handled(c.(
        currentHumidity := Some(hs[0]),
        currentTemperature := Some(ts[0]),
        fanSpeed := if "FAN" in fields then Some(fields["FAN"]) else None), true)
  {
  }

  /** The payload `{"H":[55],"T":[21.5],"FAN":2,"POWER":[1],"HUMIDITY":60}`
      fills the whole cache. */
  lemma ReceiveExample(c: Cache)
    ensures Receive(c, Parsed(Obj(map[
      "H" := Arr([Num(55.0)]), "T" := Arr([Num(21.5)]), "FAN" := Num(2.0),
      "POWER" := Arr([Num(1.0)]), "HUMIDITY" := Num(60.0)])))
      == Handled(Cache(Some(Num(55.0)), Some(Num(21.5)), Some(Num(2.0)), Some(Num(1.0)), Some(Num(60.0))), false)
  {
    var fields := map[
      "H" := Arr([Num(55.0)]), "T" := Arr([Num(21.5)]), "FAN" := Num(2.0),
      "POWER" := Arr([Num(1.0)]), "HUMIDITY" := Num(60.0)];
    ReceiveWellFormed(c, fields, [Num(55.0)], [Num(21.5)], [Num(1.0)]);
  }

  /** The values the Active getter pushes to CurrentHumidifierDehumidifierState. */
  datatype DehumidifierState = Inactive | Dehumidifying

  /** A value pushed to another characteristic with `updateValue`. */
  datatype Notification = StateShown(state: DehumidifierState) | HumidityShown(humidity: Option<Value>)

  /** One `mqttClient.publish(topic, payload)`; a `None` payload is `undefined`. */
  datatype Publication = Publication(topic: string, payload: Option<string>)

  /** The error texts of the handlers, with their punctuation as written. */
  const NotYetConnected := "Medole MQTT Server Not Yet Connected"
  const NotYetConnectedDot := "Medole MQTT Server Not Yet Connected."
  const MqttNotConnected := "Mqtt Not Connected."

  class Dehumidifier {
    const identity: Identity
    var connectedMqtt: bool
    var currentHumidity: Option<Value>
    var currentTemperature: Option<Value>
    var fanSpeed: Option<Value>
    var isActive: Option<Value>
    var targetHumidity: Option<Value>
    /** Every publish so far, oldest first. */
    var outbox: seq<Publication>
    /** Every `updateValue` push so far, oldest first. */
    var notifications: seq<Notification>

    function Cached(): Cache
      reads this
    {
      Cache(currentHumidity, currentTemperature, fanSpeed, isActive, targetHumidity)
    }

    /** A publication this accessory may make: to its request topic, with a
        payload that is a well-formed frame or `undefined`. */
    predicate Allowed(p: Publication) {
      p.topic == identity.reqTopic && (p.payload.Some? ==> ValidCommand(p.payload.value))
    }

    /** Nothing is published and nothing is cached before the connection is
        up (the `message` listener only exists after `connect`), and
        everything published is an allowed publication. */
    ghost predicate Valid()
      reads this
    {
      && (outbox != [] ==> connectedMqtt)
      && (Cached() != Unknown ==> connectedMqtt)
      && forall i :: 0 <= i < |outbox| ==> Allowed(outbox[i])
    }

    /** The state after a successful construction (index.js:41-50). */
    constructor (identity: Identity)
      ensures Valid()
      ensures this.identity == identity
      ensures Cached() == Unknown && !connectedMqtt
      ensures outbox == [] && notifications == []
    {
      this.identity := identity;
      connectedMqtt := false;
      currentHumidity := None;
      currentTemperature := None;
      fanSpeed := None;
      isActive := None;
      targetHumidity := None;
      outbox := [];
      notifications := [];
    }

    /** The `connect` event (index.js:61-62): the only place the flag is set. */
    method OnConnect()
      requires Valid()
      modifies this`connectedMqtt
      ensures Valid()
      ensures connectedMqtt
      ensures Cached() == old(Cached()) && outbox == old(outbox)
    {
      connectedMqtt := true;
    }

    /** The `message` event (index.js:66-79), field by field as the source
        assigns them. The listener is installed by the connect handler, so
        a message only arrives once connected. */
    method OnMessage(m: Message) returns (threw: bool)
      requires Valid() && connectedMqtt
      modifies this`currentHumidity, this`currentTemperature, this`fanSpeed,
        this`isActive, this`targetHumidity
      ensures Valid()
      ensures Handled(Cached(), threw) == Receive(old(Cached()), m)
      ensures connectedMqtt == old(connectedMqtt) && outbox == old(outbox)
    {
      var json := if m.Parsed? then Some(m.json) else None;
      threw := true;
      var h := Path(json, [Field("H"), First]);
      if h.Failure? { return; }
      currentHumidity := h.value;
      var t := Path(json, [Field("T"), First]);
      if t.Failure? { return; }
      currentTemperature := t.value;
      var fan := Path(json, [Field("FAN")]);
      if fan.Failure? { return; }
      fanSpeed := fan.value;
      var power := Path(json, [Field("POWER"), First]);
      if power.Failure? { return; }
      isActive := power.value;
      var target := Path(json, [Field("HUMIDITY")]);
      if target.Failure? { return; }
      targetHumidity := target.value;
      threw := false;
    }

    /** The Active getter (index.js:154-173): fails while `isActive` is unknown;
        otherwise pushes DEHUMIDIFYING or INACTIVE by its truthiness and
        returns it unchanged. */
    method GetActive() returns (r: Result<Value, string>)
      requires Valid()
      modifies this`notifications
      ensures Valid()
      ensures r.Success? <==> Known(isActive)
      ensures r.Success? ==>
        && isActive == Some(r.value)
        && notifications == old(notifications) + [StateShown(if Truthy(r.value) then Dehumidifying else Inactive)]
      ensures r.Failure? ==> r == Failure(NotYetConnected) && notifications == old(notifications)
    {
      if !Known(isActive) {
        return Failure(NotYetConnected);
      }
      var v := isActive.value;
      if Truthy(v) {
        notifications := notifications + [StateShown(Dehumidifying)];
      } else {
        notifications := notifications + [StateShown(Inactive)];
      }
      r := Success(v);
    }

    /** The Active setter (index.js:174-184): refused while disconnected,
        otherwise one power command on the request topic. */
    method SetActive(value: int) returns (r: Outcome<string>)
      requires Valid()
      modifies this`outbox
      ensures Valid()
      ensures !connectedMqtt ==> r == Fail(NotYetConnectedDot) && outbox == old(outbox)
      ensures connectedMqtt ==>
        && r == Pass
        && outbox == old(outbox) + [Publication(identity.reqTopic, Some(PowerCode(value != 0)))]
    {
      if !connectedMqtt {
        return Fail(NotYetConnectedDot);
      }
      EmittedCodesValid(value != 0, 0, 0);
      outbox := outbox + [Publication(identity.reqTopic, Some(PowerCode(value != 0)))];
      r := Pass;
    }

    /** The RelativeHumidityDehumidifierThreshold getter (index.js:193-199): no
        check for an unknown value; it pushes the current humidity to the
        CurrentRelativeHumidity characteristic and returns the target. */
    method GetTargetHumidity() returns (r: Option<Value>)
      requires Valid()
      modifies this`notifications
      ensures Valid()
      ensures r == targetHumidity
      ensures notifications == old(notifications) + [HumidityShown(currentHumidity)]
    {
      notifications := notifications + [HumidityShown(currentHumidity)];
      r := targetHumidity;
    }

    /** The RelativeHumidityDehumidifierThreshold setter (index.js:200-212):
        refused while disconnected, otherwise one humidity command. The code
        is computed with the bounds of index.js:52-53; the source as written
        calls the function bound at index.js:113, whose code is
        `HumidityCodeUnbound` (see `UnboundCodeNeverValid`). */
    method SetTargetHumidity(value: int) returns (r: Outcome<string>)
      requires Valid()
      modifies this`outbox
      ensures Valid()
      ensures !connectedMqtt ==> r == Fail(MqttNotConnected) && outbox == old(outbox)
      ensures connectedMqtt ==>
        && r == Pass
        && outbox == old(outbox) + [Publication(identity.reqTopic, Some(HumidityCode(value)))]
    {
      if !connectedMqtt {
        return Fail(MqttNotConnected);
      }
      var code := GetHumidityCode(value);
      EmittedCodesValid(false, 0, value);
      outbox := outbox + [Publication(identity.reqTopic, Some(code))];
      r := Pass;
    }

    /** The RotationSpeed getter (index.js:215-224). */
    method GetRotationSpeed() returns (r: Result<Value, string>)
      ensures r.Success? <==> Known(fanSpeed)
      ensures r.Success? ==> fanSpeed == Some(r.value)
      ensures r.Failure? ==> r.error == NotYetConnectedDot
    {
      if !Known(fanSpeed) {
        r := Failure(NotYetConnectedDot);
      } else {
        r := Success(fanSpeed.value);
      }
    }

    /** The RotationSpeed setter (index.js:225-249): refused while
        disconnected; otherwise one publication, whose payload is `undefined`
        for a speed other than 1, 2 or 3. */
    method SetRotationSpeed(value: int) returns (r: Outcome<string>)
      requires Valid()
      modifies this`outbox
      ensures Valid()
      ensures !connectedMqtt ==> r == Fail(MqttNotConnected) && outbox == old(outbox)
      ensures connectedMqtt ==>
        && r == Pass
        && outbox == old(outbox) + [Publication(identity.reqTopic, FanCode(value))]
    {
      if !connectedMqtt {
        return Fail(MqttNotConnected);
      }
      EmittedCodesValid(false, value, 0);
      outbox := outbox + [Publication(identity.reqTopic, FanCode(value))];
      r := Pass;
    }

    /** The humidity sensor's CurrentRelativeHumidity getter (index.js:258-267). */
    method GetCurrentHumidity() returns (r: Result<Value, string>)
      ensures r.Success? <==> Known(currentHumidity)
      ensures r.Success? ==> currentHumidity == Some(r.value)
      ensures r.Failure? ==> r.error == NotYetConnected
    {
      if !Known(currentHumidity) {
        r := Failure(NotYetConnected);
      } else {
        r := Success(currentHumidity.value);
      }
    }

    /** The temperature sensor's CurrentTemperature getter (index.js:276-285). */
    method GetCurrentTemperature() returns (r: Result<Value, string>)
      ensures r.Success? <==> Known(currentTemperature)
      ensures r.Success? ==> currentTemperature == Some(r.value)
      ensures r.Failure? ==> r.error == NotYetConnected
    {
      if !Known(currentTemperature) {
        r := Failure(NotYetConnected);
      } else {
        r := Success(currentTemperature.value);
      }
    }
  }

  /** `new MedoleDehumidifier(log, config)` (index.js:14-53): throws on a missing
      password or token, otherwise an accessory with an empty cache that is not
      yet connected. */
  method Create(config: Config) returns (r: Result<Dehumidifier, string>)
    ensures r.Failure? <==> Configure(config).Failure?
    ensures r.Failure? ==> r.error == Configure(config).error
    ensures r.Success? ==>
      && fresh(r.value) && r.value.Valid()
      && r.value.identity == Configure(config).value
      && r.value.Cached() == Unknown && !r.value.connectedMqtt
      && r.value.outbox == [] && r.value.notifications == []
  {
    var id := Configure(config);
    if id.Failure? {
      return Failure(id.error);
    }
    var d := new Dehumidifier(id.value);
    r := Success(d);
  }
}
