/** The gateway's node configuration (config.rs): the pins of the one managed
    node, their MQTT topics, the 5-byte downlink encoding and the dirty flag
    that tells the radio side a push is due.

    Rust's `HashMap<String, Pin>` is modelled as a sequence of (name, pin)
    entries with distinct names; the order of the sequence stands for the
    map's iteration order, which Rust leaves unspecified, so every property
    below holds for every order. */
module GatewayConfig {
  import opened Base

  type U8 = n: int | 0 <= n < 256

  datatype DigitalPin =
    | Output(number: U8, state: bool, stateTopic: string, commandTopic: string)
    | Input(number: U8, stateTopic: string)

  datatype AnalogPin = AnalogPin(number: U8, enabled: bool, stateTopic: string)

  /** The retained announcement a pin is published under; the JSON shape is
      not modelled, only which kind of entity and which topics it names. */
  datatype Discovery =
    | Switch(name: string, stateTopic: string, commandTopic: string)
    | BinarySensor(name: string, stateTopic: string)
    | Sensor(name: string, stateTopic: string)
    | BatterySensor

  const BatteryConfigTopic: string := "homeassistant/sensor/node/analog_bat/config"

  // ---------------------------------------------------------------- topics

  function DigitChar(d: nat): char
    requires d < 10
  {
    "0123456789"[d]
  }

  /** Rust's `{}` formatting of an unsigned number. */
  function Decimal(n: nat): (s: string)
    ensures 0 < |s| && (n < 10 <==> |s| == 1)
    ensures forall i :: 0 <= i < |s| ==> '0' <= s[i] <= '9'
  {
    if n < 10 then [DigitChar(n)] else Decimal(n / 10) + [DigitChar(n % 10)]
  }

  lemma {:induction false} DecimalInjective(a: nat, b: nat)
    requires Decimal(a) == Decimal(b)
    ensures a == b
  {
    var s := Decimal(a);
    if a >= 10 && b >= 10 {
      var pa, pb := Decimal(a / 10), Decimal(b / 10);
      assert s == pa + [DigitChar(a % 10)] && s == pb + [DigitChar(b % 10)];
      assert pa == s[..|s| - 1] == pb;
      DecimalInjective(a / 10, b / 10);
      assert DigitChar(a % 10) == DigitChar(b % 10);
    }
  }

  function DigitalStateTopic(n: U8): string
  {
    "node/digital/" + Decimal(n) + "/state"
  }

  function DigitalCommandTopic(n: U8): string
  {
    "node/digital/" + Decimal(n) + "/set"
  }

  function AnalogStateTopic(n: U8): string
  {
    "node/analog/" + Decimal(n) + "/state"
  }

  /** Distinct pin numbers get distinct command topics, so a command topic
      names exactly one pin number. */
  lemma DigitalCommandTopicInjective(a: U8, b: U8)
    requires DigitalCommandTopic(a) == DigitalCommandTopic(b)
    ensures a == b
  {
    var prefix := "node/digital/";
    var ta, tb := DigitalCommandTopic(a), DigitalCommandTopic(b);
    assert |Decimal(a)| == |Decimal(b)|;
    assert Decimal(a) == ta[|prefix|..|ta| - 4];
    assert Decimal(b) == tb[|prefix|..|tb| - 4];
    DecimalInjective(a, b);
  }

  /** A command topic never collides with a state topic. */
  lemma CommandTopicIsNotStateTopic(a: U8, b: U8)
    ensures DigitalCommandTopic(a) != DigitalStateTopic(b)
  {
    var ta, tb := DigitalCommandTopic(a), DigitalStateTopic(b);
    assert ta[|ta| - 1] == 't';
    assert tb[|tb| - 1] == 'e';
  }

  /** The topics `init_mqtt_topic` derives for one digital pin. */
  function WithDigitalTopics(pin: DigitalPin): (p: DigitalPin)
    ensures p.number == pin.number && p.Output? == pin.Output?
    ensures p.Output? ==> p.state == pin.state
    ensures p.stateTopic == DigitalStateTopic(pin.number)
    ensures p.Output? ==> p.commandTopic == DigitalCommandTopic(pin.number)
  {
    match pin
    case Input(n, _) => Input(n, DigitalStateTopic(n))
    case Output(n, s, _, _) => Output(n, s, DigitalStateTopic(n), DigitalCommandTopic(n))
  }

  /** `Pin::discovery_topic` of a digital pin. */
  function DigitalDiscoveryTopic(pin: DigitalPin): string
  {
    match pin
    case Output(n, _, _, _) => "homeassistant/switch/node/digital_" + Decimal(n) + "/config"
    case Input(n, _) => "homeassistant/binary_sensor/node/digital_" + Decimal(n) + "/config"
  }

  /** `Pin::discovery_topic` of an analog pin. */
  function AnalogDiscoveryTopic(pin: AnalogPin): string
  {
    "homeassistant/sensor/node/analog_" + Decimal(pin.number) + "/config"
  }

  /** `Pin::as_discovery` of a digital pin. */
  function DigitalDiscovery(name: string, pin: DigitalPin): Discovery
  {
    match pin
    case Output(_, _, st, ct) => Switch(name, st, ct)
    case Input(_, st) => BinarySensor(name, st)
  }

  // ------------------------------------------------------- bitmask encoding

  /** Pin `pin` sets bit `k` of the direction mask. */
  predicate DrivesDirection(pin: DigitalPin, k: nat)
  {
    pin.Output? && pin.number == k
  }

  /** Pin `pin` sets bit `k` of the value mask. */
  predicate DrivesValue(pin: DigitalPin, k: nat)
  {
    pin.Output? && pin.number == k && pin.state
  }

  /** Pin `pin` sets bit `k` of the analog mask. */
  predicate EnablesChannel(pin: AnalogPin, k: nat)
  {
    pin.enabled && pin.number == k
  }

  /** `DigitalPin::as_tuple`: the pin's (direction, value) contribution.
      `1u8 << number` overflows for numbers from 8 on, hence the requirement. */
  function AsTuple(pin: DigitalPin): (r: (bv8, bv8))
    requires pin.number < 8
    ensures forall k :: 0 <= k < 8 ==> (Bit(r.0, k) <==> DrivesDirection(pin, k))
    ensures forall k :: 0 <= k < 8 ==> (Bit(r.1, k) <==> DrivesValue(pin, k))
  {
    match pin
    case Input(_, _) => (0, 0)
    case Output(n, s, _, _) => ((1 as bv8) << n, if s then (1 as bv8) << n else 0)
  }

  /** `AnalogPin::as_byte`. */
  function AsByte(pin: AnalogPin): (r: bv8)
    requires pin.number < 8
    ensures forall k :: 0 <= k < 8 ==> (Bit(r, k) <==> EnablesChannel(pin, k))
  {
    (if pin.enabled then 1 as bv8 else 0) << pin.number
  }

  predicate DigitalNumbersFit(digital: seq<(string, DigitalPin)>)
  {
    forall i :: 0 <= i < |digital| ==> digital[i].1.number < 8
  }

  predicate AnalogNumbersFit(analog: seq<(string, AnalogPin)>)
  {
    forall i :: 0 <= i < |analog| ==> analog[i].1.number < 8
  }

  /** The OR of the direction contributions of the pins, in iteration order. */
  function DirectionMask(digital: seq<(string, DigitalPin)>): (m: bv8)
    requires DigitalNumbersFit(digital)
    ensures forall k :: 0 <= k < 8 ==>
      (Bit(m, k) <==> exists i :: 0 <= i < |digital| && DrivesDirection(digital[i].1, k))
  {
    if digital == [] then 0
    else
      var last := |digital| - 1;
      var m := DirectionMask(digital[..last]) | AsTuple(digital[last].1).0;
      BitOfOrAll(DirectionMask(digital[..last]), AsTuple(digital[last].1).0);
      DrivesDirectionStep(digital, digital[..last], digital[last].1);
      assert forall k :: 0 <= k < 8 ==> (Bit(AsTuple(digital[last].1).0, k) <==> DrivesDirection(digital[last].1, k));
      assert forall k :: 0 <= k < 8 ==> (Bit(m, k) <==> Bit(DirectionMask(digital[..last]), k) || Bit(AsTuple(digital[last].1).0, k));
      m
  }

  /** The OR of the value contributions of the pins, in iteration order. */
  function ValueMask(digital: seq<(string, DigitalPin)>): (m: bv8)
    requires DigitalNumbersFit(digital)
    ensures forall k :: 0 <= k < 8 ==>
      (Bit(m, k) <==> exists i :: 0 <= i < |digital| && DrivesValue(digital[i].1, k))
  {
    if digital == [] then 0
    else
      var last := |digital| - 1;
      var m := ValueMask(digital[..last]) | AsTuple(digital[last].1).1;
      BitOfOrAll(ValueMask(digital[..last]), AsTuple(digital[last].1).1);
      DrivesValueStep(digital, digital[..last], digital[last].1);
      assert forall k :: 0 <= k < 8 ==> (Bit(AsTuple(digital[last].1).1, k) <==> DrivesValue(digital[last].1, k));
      assert forall k :: 0 <= k < 8 ==> (Bit(m, k) <==> Bit(ValueMask(digital[..last]), k) || Bit(AsTuple(digital[last].1).1, k));
      m
  }

  /** The OR of the analog contributions, in iteration order. */
  function AnalogMask(analog: seq<(string, AnalogPin)>): (m: bv8)
    requires AnalogNumbersFit(analog)
    ensures forall k :: 0 <= k < 8 ==>
      (Bit(m, k) <==> exists i :: 0 <= i < |analog| && EnablesChannel(analog[i].1, k))
  {
    if analog == [] then 0
    else
      var last := |analog| - 1;
      var m := AnalogMask(analog[..last]) | AsByte(analog[last].1);
      BitOfOrAll(AnalogMask(analog[..last]), AsByte(analog[last].1));
      EnablesChannelStep(analog, analog[..last], analog[last].1);
      assert forall k :: 0 <= k < 8 ==> (Bit(m, k) <==> Bit(AnalogMask(analog[..last]), k) || Bit(AsByte(analog[last].1), k));
      m
  }

  /** The value bitmask only has bits that the direction bitmask has: an
      Input pin or an Output pin that is off never drives a value bit. */
  lemma ValueBitsAreOutputs(digital: seq<(string, DigitalPin)>)
    requires DigitalNumbersFit(digital)
    ensures ValueMask(digital) & !DirectionMask(digital) == 0
  {
    var d, v := DirectionMask(digital), ValueMask(digital);
    forall k | 0 <= k < 8
      ensures !(Bit(v, k) && !Bit(d, k))
    {
    }
    BitwiseSubset(v, d);
  }

  lemma DrivesDirectionStep(digital: seq<(string, DigitalPin)>, prefix: seq<(string, DigitalPin)>, lastPin: DigitalPin)
    requires |digital| > 0 && prefix == digital[..|digital| - 1] && lastPin == digital[|digital| - 1].1
    ensures forall k :: 0 <= k < 8 ==>
      ((exists i :: 0 <= i < |digital| && DrivesDirection(digital[i].1, k)) <==>
       (exists i :: 0 <= i < |prefix| && DrivesDirection(prefix[i].1, k)) || DrivesDirection(lastPin, k))
  {
    forall k | 0 <= k < 8
      ensures (exists i :: 0 <= i < |digital| && DrivesDirection(digital[i].1, k)) <==>
              (exists i :: 0 <= i < |prefix| && DrivesDirection(prefix[i].1, k)) || DrivesDirection(lastPin, k)
    {
      if i :| 0 <= i < |digital| && DrivesDirection(digital[i].1, k) {
        if i < |prefix| {
          assert prefix[i] == digital[i];
        }
      }
      if i :| 0 <= i < |prefix| && DrivesDirection(prefix[i].1, k) {
        assert prefix[i] == digital[i];
      }
    }
  }

  lemma DrivesValueStep(digital: seq<(string, DigitalPin)>, prefix: seq<(string, DigitalPin)>, lastPin: DigitalPin)
    requires |digital| > 0 && prefix == digital[..|digital| - 1] && lastPin == digital[|digital| - 1].1
    ensures forall k :: 0 <= k < 8 ==>
      ((exists i :: 0 <= i < |digital| && DrivesValue(digital[i].1, k)) <==>
       (exists i :: 0 <= i < |prefix| && DrivesValue(prefix[i].1, k)) || DrivesValue(lastPin, k))
  {
    forall k | 0 <= k < 8
      ensures (exists i :: 0 <= i < |digital| && DrivesValue(digital[i].1, k)) <==>
              (exists i :: 0 <= i < |prefix| && DrivesValue(prefix[i].1, k)) || DrivesValue(lastPin, k)
    {
      if i :| 0 <= i < |digital| && DrivesValue(digital[i].1, k) {
        if i < |prefix| {
          assert prefix[i] == digital[i];
        }
      }
      if i :| 0 <= i < |prefix| && DrivesValue(prefix[i].1, k) {
        assert prefix[i] == digital[i];
      }
    }
  }

  lemma EnablesChannelStep(analog: seq<(string, AnalogPin)>, prefix: seq<(string, AnalogPin)>, lastPin: AnalogPin)
    requires |analog| > 0 && prefix == analog[..|analog| - 1] && lastPin == analog[|analog| - 1].1
    ensures forall k :: 0 <= k < 8 ==>
      ((exists i :: 0 <= i < |analog| && EnablesChannel(analog[i].1, k)) <==>
       (exists i :: 0 <= i < |prefix| && EnablesChannel(prefix[i].1, k)) || EnablesChannel(lastPin, k))
  {
    forall k | 0 <= k < 8
      ensures (exists i :: 0 <= i < |analog| && EnablesChannel(analog[i].1, k)) <==>
              (exists i :: 0 <= i < |prefix| && EnablesChannel(prefix[i].1, k)) || EnablesChannel(lastPin, k)
    {
      if i :| 0 <= i < |analog| && EnablesChannel(analog[i].1, k) {
        if i < |prefix| {
          assert prefix[i] == analog[i];
        }
      }
      if i :| 0 <= i < |prefix| && EnablesChannel(prefix[i].1, k) {
        assert prefix[i] == analog[i];
      }
    }
  }

  lemma BitOfOrAll(a: bv8, b: bv8)
    ensures forall k :: 0 <= k < 8 ==> (Bit(a | b, k) <==> Bit(a, k) || Bit(b, k))
  {
    forall k | 0 <= k < 8
      ensures Bit(a | b, k) <==> Bit(a, k) || Bit(b, k)
    {
      BitOfOr(a, b, k);
    }
  }

  lemma BitwiseSubset(v: bv8, d: bv8)
    requires forall k :: 0 <= k < 8 ==> !(Bit(v, k) && !Bit(d, k))
    ensures v & !d == 0
  {
    assert !(Bit(v, 0) && !Bit(d, 0));
    assert !(Bit(v, 1) && !Bit(d, 1));
    assert !(Bit(v, 2) && !Bit(d, 2));
    assert !(Bit(v, 3) && !Bit(d, 3));
    assert !(Bit(v, 4) && !Bit(d, 4));
    assert !(Bit(v, 5) && !Bit(d, 5));
    assert !(Bit(v, 6) && !Bit(d, 6));
    assert !(Bit(v, 7) && !Bit(d, 7));
  }

  /** The 5-byte downlink that `to_bytes` returns. */
  function Downlink(sleepTime: u16, digital: seq<(string, DigitalPin)>, analog: seq<(string, AnalogPin)>): (bytes: seq<byte>)
    requires DigitalNumbersFit(digital) && AnalogNumbersFit(analog)
    ensures |bytes| == 5
    ensures BigEndian16(bytes[0], bytes[1]) == sleepTime
    ensures bytes[2] == DirectionMask(digital) as int && bytes[3] == ValueMask(digital) as int
    ensures bytes[4] == AnalogMask(analog) as int
  {
    BigEndian16RoundTrip(sleepTime);
    [Hi(sleepTime), Lo(sleepTime), DirectionMask(digital) as int, ValueMask(digital) as int, AnalogMask(analog) as int]
  }

  // ------------------------------------------------------------ lookups

  predicate IsOutputFor(pin: DigitalPin, topic: string)
  {
    pin.Output? && pin.commandTopic == topic
  }

  /** The pin `update_output` finds: the first Output, in iteration order,
      whose command topic is `topic`. */
  function FindOutput(digital: seq<(string, DigitalPin)>, topic: string): (r: Option<nat>)
    ensures r.None? <==> forall i :: 0 <= i < |digital| ==> !IsOutputFor(digital[i].1, topic)
    ensures r.Some? ==> r.value < |digital| && IsOutputFor(digital[r.value].1, topic)
                        && forall j :: 0 <= j < r.value ==> !IsOutputFor(digital[j].1, topic)
  {
    if digital == [] then None
    else if IsOutputFor(digital[0].1, topic) then Some(0)
    else
      match FindOutput(digital[1..], topic)
      case None => None
      case Some(i) => Some(i + 1)
  }

  /** A pin with its state forgotten: what `update_output` may not change. */
  function Layout(pin: DigitalPin): DigitalPin
  {
    match pin
    case Output(n, _, st, ct) => Output(n, false, st, ct)
    case Input(_, _) => pin
  }

  /** Same names, numbers, kinds and topics, pin by pin. */
  predicate SameLayout(a: seq<(string, DigitalPin)>, b: seq<(string, DigitalPin)>)
  {
    |a| == |b| && forall j :: 0 <= j < |a| ==> a[j].0 == b[j].0 && Layout(a[j].1) == Layout(b[j].1)
  }

  /** The pins after `update_output(topic, newState)`, or None when it fails:
      the first Output pin listening on `topic` takes the new state and
      nothing else changes. */
  function SetOutputState(digital: seq<(string, DigitalPin)>, topic: string, newState: bool): (r: Option<seq<(string, DigitalPin)>>)
    ensures r.None? <==> forall i :: 0 <= i < |digital| ==> !IsOutputFor(digital[i].1, topic)
    ensures r.Some? ==> SameLayout(digital, r.value)
    ensures r.Some? ==>
      exists i :: 0 <= i < |digital| && IsOutputFor(digital[i].1, topic) && r.value[i].1.state == newState &&
        (forall j :: 0 <= j < |digital| && j != i ==> r.value[j] == digital[j])
  {
    match FindOutput(digital, topic)
    case None => None
    case Some(i) => Some(digital[i := (digital[i].0, digital[i].1.(state := newState))])
  }

  /** Two bytes with the same eight bits are equal. */
  lemma BitsDetermineByte(a: bv8, b: bv8)
    requires forall k :: 0 <= k < 8 ==> (Bit(a, k) <==> Bit(b, k))
    ensures a == b
  {
    assert Bit(a, 0) == Bit(b, 0) && Bit(a, 1) == Bit(b, 1) && Bit(a, 2) == Bit(b, 2) && Bit(a, 3) == Bit(b, 3);
    assert Bit(a, 4) == Bit(b, 4) && Bit(a, 5) == Bit(b, 5) && Bit(a, 6) == Bit(b, 6) && Bit(a, 7) == Bit(b, 7);
  }

  lemma SameLayoutPins(a: seq<(string, DigitalPin)>, b: seq<(string, DigitalPin)>)
    requires SameLayout(a, b)
    ensures forall j :: 0 <= j < |a| ==>
      a[j].1.number == b[j].1.number && a[j].1.Output? == b[j].1.Output? && a[j].1.stateTopic == b[j].1.stateTopic &&
      (a[j].1.Output? ==> a[j].1.commandTopic == b[j].1.commandTopic)
  {
    forall j | 0 <= j < |a|
      ensures a[j].1.number == b[j].1.number && a[j].1.Output? == b[j].1.Output? && a[j].1.stateTopic == b[j].1.stateTopic
      ensures a[j].1.Output? ==> a[j].1.commandTopic == b[j].1.commandTopic
    {
      assert Layout(a[j].1) == Layout(b[j].1);
    }
  }

  /** Pins with the same layout give the same direction byte: switching an
      output can only change the value byte of the downlink. */
  lemma SameLayoutSameDirection(a: seq<(string, DigitalPin)>, b: seq<(string, DigitalPin)>)
    requires DigitalNumbersFit(a) && SameLayout(a, b)
    ensures DigitalNumbersFit(b)
    ensures DirectionMask(a) == DirectionMask(b)
  {
    SameLayoutPins(a, b);
    forall k | 0 <= k < 8
      ensures Bit(DirectionMask(a), k) <==> Bit(DirectionMask(b), k)
    {
      assert forall i :: 0 <= i < |a| ==> (DrivesDirection(a[i].1, k) <==> DrivesDirection(b[i].1, k));
    }
    BitsDetermineByte(DirectionMask(a), DirectionMask(b));
  }

  /** Pins with the same layout keep a valid node valid and initialised
      topics initialised. */
  lemma SameLayoutKeepsTopics(a: seq<(string, DigitalPin)>, b: seq<(string, DigitalPin)>, analog: seq<(string, AnalogPin)>)
    requires SameLayout(a, b)
    ensures UniqueNames(a) ==> UniqueNames(b)
    ensures TopicsInitialised(a, analog) ==> TopicsInitialised(b, analog)
  {
    SameLayoutPins(a, b);
    if TopicsInitialised(a, analog) {
      forall j | 0 <= j < |b|
        ensures b[j].1 == WithDigitalTopics(b[j].1)
      {
        assert a[j].1 == WithDigitalTopics(a[j].1);
      }
    }
  }

  /** The positions of the Output pins. */
  function OutputPositions(digital: seq<(string, DigitalPin)>): set<nat>
  {
    set i: nat | i < |digital| && digital[i].1.Output?
  }

  /** The positions of the enabled analog pins. */
  function EnabledPositions(analog: seq<(string, AnalogPin)>): set<nat>
  {
    set i: nat | i < |analog| && analog[i].1.enabled
  }

  /** `subscribe_topics`: the command topics of the Output pins, in
      iteration order, one for each Output pin. */
  function SubscribeTopics(digital: seq<(string, DigitalPin)>): (topics: seq<string>)
    ensures |topics| == |OutputPositions(digital)|
    ensures forall t :: t in topics <==> exists i :: 0 <= i < |digital| && IsOutputFor(digital[i].1, t)
  {
    if digital == [] then
      assert OutputPositions(digital) == {};
      []
    else
      var last := |digital| - 1;
      var rest := SubscribeTopics(digital[..last]);
      assert forall i :: 0 <= i < last ==> digital[..last][i] == digital[i];
      assert OutputPositions(digital) ==
        OutputPositions(digital[..last]) + (if digital[last].1.Output? then {last} else {});
      match digital[last].1
      case Output(_, _, _, ct) => rest + [ct]
      case Input(_, _) => rest
  }

  /** The discovery entries of the analog pins: enabled pins only, in
      iteration order, one for each enabled pin. */
  function AnalogDiscoveries(analog: seq<(string, AnalogPin)>): (d: seq<(string, Discovery)>)
    ensures |d| == |EnabledPositions(analog)|
    ensures forall e :: e in d <==>
      exists i :: 0 <= i < |analog| && analog[i].1.enabled &&
        e == (AnalogDiscoveryTopic(analog[i].1), Sensor(analog[i].0, analog[i].1.stateTopic))
  {
    if analog == [] then
      assert EnabledPositions(analog) == {};
      []
    else
      var last := |analog| - 1;
      var rest := AnalogDiscoveries(analog[..last]);
      assert forall i :: 0 <= i < last ==> analog[..last][i] == analog[i];
      assert EnabledPositions(analog) ==
        EnabledPositions(analog[..last]) + (if analog[last].1.enabled then {last} else {});
      var pin := analog[last];
      if pin.1.enabled then rest + [(AnalogDiscoveryTopic(pin.1), Sensor(pin.0, pin.1.stateTopic))]
      else rest
  }

  /** With distinct pin names, no analog discovery entry appears twice. */
  lemma {:induction false} AnalogDiscoveriesDistinct(analog: seq<(string, AnalogPin)>)
    requires UniqueNames(analog)
    ensures Distinct(AnalogDiscoveries(analog))
  {
    if analog != [] {
      var last := |analog| - 1;
      var rest := AnalogDiscoveries(analog[..last]);
      assert UniqueNames(analog[..last]);
      AnalogDiscoveriesDistinct(analog[..last]);
      if analog[last].1.enabled {
        var e := (AnalogDiscoveryTopic(analog[last].1), Sensor(analog[last].0, analog[last].1.stateTopic));
        LastEntryNew(analog);
        AppendDistinct(rest, e);
      }
    }
  }

  /** The entry of the last pin is not among the entries of the pins before it. */
  lemma LastEntryNew(analog: seq<(string, AnalogPin)>)
    requires UniqueNames(analog) && analog != []
    ensures var last := |analog| - 1;
      (AnalogDiscoveryTopic(analog[last].1), Sensor(analog[last].0, analog[last].1.stateTopic))
        !in AnalogDiscoveries(analog[..last])
  {
    var last := |analog| - 1;
    forall i | 0 <= i < last
      ensures analog[..last][i].0 != analog[last].0
    {
      assert analog[..last][i] == analog[i];
    }
  }

  predicate Distinct<T(==)>(s: seq<T>)
  {
    forall i, j :: 0 <= i < j < |s| ==> s[i] != s[j]
  }

  lemma AppendDistinct<T>(s: seq<T>, e: T)
    requires Distinct(s) && e !in s
    ensures Distinct(s + [e])
  {
    var d := s + [e];
    forall i, j | 0 <= i < j < |d|
      ensures d[i] != d[j]
    {
      assert d[i] == s[i];
      if j < |s| {
        assert d[j] == s[j];
      }
    }
  }

  predicate UniqueNames<P>(entries: seq<(string, P)>)
  {
    forall i, j :: 0 <= i < j < |entries| ==> entries[i].0 != entries[j].0
  }

  /** Topics as `init_mqtt_topic` leaves them. */
  predicate TopicsInitialised(digital: seq<(string, DigitalPin)>, analog: seq<(string, AnalogPin)>)
  {
    (forall i :: 0 <= i < |digital| ==> digital[i].1 == WithDigitalTopics(digital[i].1)) &&
    (forall i :: 0 <= i < |analog| ==> analog[i].1.stateTopic == AnalogStateTopic(analog[i].1.number))
  }

  /** Once topics are initialised, the pin `update_output` selects for the
      command topic of pin number `n` is an Output pin numbered `n`. */
  lemma {:induction false} FindOutputByNumber(digital: seq<(string, DigitalPin)>, analog: seq<(string, AnalogPin)>, n: U8)
    requires TopicsInitialised(digital, analog)
    ensures var r := FindOutput(digital, DigitalCommandTopic(n));
      (r.Some? <==> exists i :: 0 <= i < |digital| && digital[i].1.Output? && digital[i].1.number == n) &&
      (r.Some? ==> digital[r.value].1.number == n)
  {
    var topic := DigitalCommandTopic(n);
    var r := FindOutput(digital, topic);
    forall i | 0 <= i < |digital| && digital[i].1.Output?
      ensures IsOutputFor(digital[i].1, topic) <==> digital[i].1.number == n
    {
      assert digital[i].1.commandTopic == DigitalCommandTopic(digital[i].1.number);
      if digital[i].1.commandTopic == topic {
        DigitalCommandTopicInjective(digital[i].1.number, n);
      }
    }
  }

  // ------------------------------------------------------------- the node

  /** `Node`: the managed node's configuration. */
  class Node {
    var sleepTime: u16
    var nodeAddr: byte
    var digital: seq<(string, DigitalPin)>
    var analog: seq<(string, AnalogPin)>
    var configDirty: bool

    /** Map keys are unique, and every pin number is a usable bit position. */
    ghost predicate Valid()
      reads this`digital, this`analog
    {
      UniqueNames(digital) && UniqueNames(analog) &&
      DigitalNumbersFit(digital) && AnalogNumbersFit(analog)
    }

    /** The node as `read_conf` hands it over: topics derived, and dirty, so
        that the node's first configuration request gets an answer. */
    constructor (sleepTime: u16, nodeAddr: byte, digital: seq<(string, DigitalPin)>, analog: seq<(string, AnalogPin)>)
      requires UniqueNames(digital) && UniqueNames(analog)
      requires DigitalNumbersFit(digital) && AnalogNumbersFit(analog)
      ensures Valid() && configDirty
      ensures this.sleepTime == sleepTime && this.nodeAddr == nodeAddr
      ensures |this.digital| == |digital| && |this.analog| == |analog|
      ensures forall i :: 0 <= i < |digital| ==>
        this.digital[i] == (digital[i].0, WithDigitalTopics(digital[i].1))
      ensures forall i :: 0 <= i < |analog| ==>
        this.analog[i] == (analog[i].0, analog[i].1.(stateTopic := AnalogStateTopic(analog[i].1.number)))
      ensures TopicsInitialised(this.digital, this.analog)
    {
      this.sleepTime := sleepTime;
      this.nodeAddr := nodeAddr;
      this.digital := digital;
      this.analog := analog;
      this.configDirty := false;
      new;
      UpdateConfigDirty(true);
      InitMqttTopic();
    }

    /** `update_config_dirty`. */
    method UpdateConfigDirty(dirty: bool)
      modifies this`configDirty
      ensures configDirty == dirty
    {
      configDirty := dirty;
    }

    /** `init_mqtt_topic`: rewrites every pin's topics from its number; names,
        numbers, directions and states stay as they were. */
    method InitMqttTopic()
      requires Valid()
      modifies this`digital, this`analog
      ensures Valid()
      ensures |digital| == |old(digital)| && |analog| == |old(analog)|
      ensures forall i :: 0 <= i < |digital| ==>
        digital[i] == (old(digital)[i].0, WithDigitalTopics(old(digital)[i].1))
      ensures forall i :: 0 <= i < |analog| ==>
        analog[i] == (old(analog)[i].0, old(analog)[i].1.(stateTopic := AnalogStateTopic(old(analog)[i].1.number)))
      ensures TopicsInitialised(digital, analog)
    {
      for i := 0 to |digital|
        invariant Valid()
        invariant |digital| == |old(digital)| && analog == old(analog)
        invariant forall j :: 0 <= j < i ==> digital[j] == (old(digital)[j].0, WithDigitalTopics(old(digital)[j].1))
        invariant forall j :: i <= j < |digital| ==> digital[j] == old(digital)[j]
      {
        digital := digital[i := (digital[i].0, WithDigitalTopics(digital[i].1))];
      }
      for i := 0 to |analog|
        invariant Valid()
        invariant |digital| == |old(digital)| && |analog| == |old(analog)|
        invariant forall j :: 0 <= j < |digital| ==> digital[j] == (old(digital)[j].0, WithDigitalTopics(old(digital)[j].1))
        invariant forall j :: 0 <= j < i ==>
          analog[j] == (old(analog)[j].0, old(analog)[j].1.(stateTopic := AnalogStateTopic(old(analog)[j].1.number)))
        invariant forall j :: i <= j < |analog| ==> analog[j] == old(analog)[j]
      {
        var pin := analog[i].1;
        analog := analog[i := (analog[i].0, pin.(stateTopic := AnalogStateTopic(pin.number)))];
      }
    }

    /** `update_output`: sets the state of the Output pin whose command topic
        is `topic` and marks the node dirty; when no Output pin has that
        topic it fails with an option error and changes nothing. */
    method UpdateOutput(topic: string, newState: bool) returns (r: Result<()>)
      requires Valid()
      modifies this`digital, this`configDirty
      ensures Valid()
      ensures match SetOutputState(old(digital), topic, newState)
        case None => r == Err(OptionError) && digital == old(digital) && configDirty == old(configDirty)
        case Some(d) => r == Ok(()) && digital == d && configDirty
    {
      match FindOutput(digital, topic)
      case None =>
        return Err(OptionError);
      case Some(i) =>
        var pin := digital[i].1;
        digital := digital[i := (digital[i].0, pin.(state := newState))];
        UpdateConfigDirty(true);
        return Ok(());
    }

    /** `to_bytes`: the node's 5-byte downlink, accumulated pin by pin. */
    method ToBytes() returns (bytes: seq<byte>)
      requires Valid()
      ensures bytes == Downlink(sleepTime, digital, analog)
    {
      bytes := [Hi(sleepTime), Lo(sleepTime)];
      var direction: bv8 := 0;
      var value: bv8 := 0;
      for i := 0 to |digital|
        invariant direction == DirectionMask(digital[..i])
        invariant value == ValueMask(digital[..i])
      {
        assert digital[..i + 1][..i] == digital[..i];
        var (d, v) := AsTuple(digital[i].1);
        direction := direction | d;
        value := value | v;
      }
      assert digital[..|digital|] == digital;
      bytes := bytes + [direction as int, value as int];
      var mask: bv8 := 0;
      for i := 0 to |analog|
        invariant mask == AnalogMask(analog[..i])
      {
        assert analog[..i + 1][..i] == analog[..i];
        mask := mask | AsByte(analog[i].1);
      }
      assert analog[..|analog|] == analog;
      bytes := bytes + [mask as int];
    }

    /** `discovery`: one entry per digital pin, one per enabled analog pin,
        and the battery sensor last. */
    method Discover() returns (result: seq<(string, Discovery)>)
      ensures |result| == |digital| + |AnalogDiscoveries(analog)| + 1
      ensures forall i :: 0 <= i < |digital| ==>
        result[i] == (DigitalDiscoveryTopic(digital[i].1), DigitalDiscovery(digital[i].0, digital[i].1))
      ensures result[|digital|..|result| - 1] == AnalogDiscoveries(analog)
      ensures result[|result| - 1] == (BatteryConfigTopic, BatterySensor)
    {
      result := [];
      for i := 0 to |digital|
        invariant |result| == i
        invariant forall j :: 0 <= j < i ==>
          result[j] == (DigitalDiscoveryTopic(digital[j].1), DigitalDiscovery(digital[j].0, digital[j].1))
      {
        result := result + [(DigitalDiscoveryTopic(digital[i].1), DigitalDiscovery(digital[i].0, digital[i].1))];
      }
      ghost var digitalPart := result;
      for i := 0 to |analog|
        invariant result == digitalPart + AnalogDiscoveries(analog[..i])
      {
        assert analog[..i + 1][..i] == analog[..i];
        var pin := analog[i];
        if pin.1.enabled {
          result := result + [(AnalogDiscoveryTopic(pin.1), Sensor(pin.0, pin.1.stateTopic))];
        }
      }
      assert analog[..|analog|] == analog;
      result := result + [(BatteryConfigTopic, BatterySensor)];
    }
  }
}
