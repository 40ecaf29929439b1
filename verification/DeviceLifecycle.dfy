/**
  The function device's bus events and setup packets (function/device.cpp), as a function of the
  device's state, and what every sequence of events keeps.
 */
module DeviceLifecycle {

  import opened Common

  datatype BusState = Minimum | Attached | Default | Configured | Detached

  /** What an adapter was created with. */
  datatype Adapter = Adapter(use32BitNtb: bool, maxNtbSize: nat)

  /** How far CreateAdapter gets: the first three fail, the third with a handle already stored. */
  datatype Creation = NoClassInformation | NotCreated | NotStarted | Created

  datatype Request =
    | GetNtbParameters
    | GetNtbFormat
    | SetNtbFormat
    | GetNtbInputSize
    | SetNtbInputSize
    | Unsupported

  /**
    A setup packet. transferred says whether the data stage or handshake goes through, data is the
    32-bit number the host sends, and creation is how re-creating the adapter would end.
   */
  datatype SetupPacket = SetupPacket(
    forCommunicationInterface: bool,
    request: Request,
    value: nat,
    length: nat,
    transferred: bool,
    data: nat,
    creation: Creation)

  datatype Event =
    | AttachEvent
    | SuspendEvent
    | ResumeEvent
    | ConfiguredEvent
    | UnConfiguredEvent
    | DetachEvent
    | ResetEvent
    | SetupEvent(packet: SetupPacket)
    | SetInterfaceEvent(alternate: nat, creation: Creation)

  /** How endpoint zero is answered. */
  datatype Answer = Stall | Handshake | Parameters | Number(n: nat)

  const DEFAULT_NTB_SIZE: nat := 0x1_0000
  const MIN_NTB_SIZE: nat := 2048
  const NTB_PARAMETERS_SIZE: nat := 0x1C

  /**
    The device. notices are the connection notifications sent to the host, true for connect; halted
    is set when one of the driver's assertions fails.
   */
  datatype Device = Device(
    bus: BusState,
    alternate: nat,
    adapter: Option<Adapter>,
    use32BitNtb: bool,
    selectedSize: nat,
    maxSize: nat,
    notices: seq<bool>,
    halted: bool)

  /** SetParameters */
  function Reset(d: Device): Device {
    d.(use32BitNtb := false, selectedSize := DEFAULT_NTB_SIZE, maxSize := DEFAULT_NTB_SIZE)
  }

  /** After InitializeDevice. */
  function Initial(): Device {
    Reset(Device(Minimum, 0, None, false, 0, 0, [], false))
  }

  function CreateAdapter(d: Device, creation: Creation): Device {
    if d.adapter.Some? then
      d.(halted := true)
    else if creation.NoClassInformation? || creation.NotCreated? then
      d
    else
      var live := d.(adapter := Some(Adapter(d.use32BitNtb, d.selectedSize)));
      if creation.NotStarted? then live else live.(notices := d.notices + [true])
  }

  function DestroyAdapter(d: Device): Device {
    if d.adapter.None? then d
    else Reset(d).(adapter := None, notices := d.notices + [false], alternate := 0)
  }

  /** The request changes the input size to a number in range. */
  predicate SelectsSize(d: Device, p: SetupPacket) {
    && p.forCommunicationInterface && p.request.SetNtbInputSize? && p.value == 0 && p.length == 4
    && p.transferred && MIN_NTB_SIZE <= p.data <= d.maxSize
  }

  function SelectSize(d: Device, p: SetupPacket): Device {
    var chosen := d.(selectedSize := p.data);
    if chosen.adapter.None? then chosen
    else CreateAdapter(DestroyAdapter(chosen), p.creation)
  }

  /** The request changes the block format. */
  predicate SelectsFormat(d: Device, p: SetupPacket) {
    && p.forCommunicationInterface && p.request.SetNtbFormat? && p.value <= 1 && p.length == 0
    && d.alternate == 0
  }

  function AfterSetup(d: Device, p: SetupPacket): Device {
    if !d.bus.Configured? then d.(halted := true)
    else if SelectsSize(d, p) then SelectSize(d, p)
    else if SelectsFormat(d, p) then d.(use32BitNtb := p.value == 1)
    else d
  }

  function AnswerTo(d: Device, p: SetupPacket): Answer {
    if !p.forCommunicationInterface || !p.transferred then Stall
    else
      match p.request
      case GetNtbParameters => if p.value == 0 && p.length >= NTB_PARAMETERS_SIZE then Parameters else Stall
      case GetNtbFormat =>
        if p.value == 0 && p.length >= 2 then Number(if d.use32BitNtb then 1 else 0) else Stall
      case SetNtbFormat => if SelectsFormat(d, p) then Handshake else Stall
      case GetNtbInputSize => if p.value == 0 && p.length >= 4 then Number(d.selectedSize) else Stall
      case SetNtbInputSize => if p.value == 0 && p.length == 4 then Handshake else Stall
      case Unsupported => Stall
  }

  /** One bus event. A halted machine stays as it is. */
  function Apply(d: Device, e: Event): Device {
    if d.halted then d
    else
      match e
      case AttachEvent => d.(bus := Attached)
      case SuspendEvent => d
      case ResumeEvent => d
      case ConfiguredEvent => d.(bus := Configured)
      case UnConfiguredEvent => DestroyAdapter(d.(bus := Attached))
      case DetachEvent => DestroyAdapter(d.(bus := Detached))
      case ResetEvent => DestroyAdapter(d.(bus := Default))
      case SetupEvent(p) => AfterSetup(d, p)
      case SetInterfaceEvent(n, creation) =>
        if !d.bus.Configured? then d.(halted := true)
        else if n == d.alternate then d
        else
          var switched := d.(alternate := n);
          if n == 0 then DestroyAdapter(switched)
          else if n == 1 then CreateAdapter(switched, creation)
          else switched
  }

  /** The device that lost its adapter: all negotiated parameters are the defaults again, and the host is told. */
  predicate LostAdapter(before: Device, after: Device) {
    && after.adapter == None && after.alternate == 0 && !after.use32BitNtb
    && after.selectedSize == 0x1_0000 && after.maxSize == 0x1_0000
    && after.notices == before.notices + [false] && !after.halted
  }

  /** What each bus event does to a device that has not halted, field by field; what is not named stays. */
  lemma EventEffects(d: Device, e: Event)
    requires !d.halted
    ensures var after := Apply(d, e);
            && (e.AttachEvent? ==> after == d.(bus := Attached))
            && (e.SuspendEvent? || e.ResumeEvent? ==> after == d)
            && (e.ConfiguredEvent? ==> after == d.(bus := Configured))
            && (e.UnConfiguredEvent? ==> after.bus == Attached)
            && (e.DetachEvent? ==> after.bus == Detached)
            && (e.ResetEvent? ==> after.bus == Default)
            && (e.UnConfiguredEvent? || e.DetachEvent? || e.ResetEvent? ==>
                  if d.adapter.Some? then LostAdapter(d, after) else after == d.(bus := after.bus))
            && (e.SetupEvent? || e.SetInterfaceEvent? ==> after.bus == d.bus)
            && (!d.bus.Configured? && (e.SetupEvent? || e.SetInterfaceEvent?) ==> after == d.(halted := true))
  {
  }

  /** What selecting an alternate setting does to a configured device. */
  lemma SettingEffects(d: Device, n: nat, creation: Creation)
    requires !d.halted && d.bus.Configured?
    ensures var after := Apply(d, SetInterfaceEvent(n, creation));
            && (n == d.alternate ==> after == d)
            && (n == 0 && d.alternate != 0 ==>
                  if d.adapter.Some? then LostAdapter(d, after) else after == d.(alternate := 0))
            && (n == 1 && d.alternate != 1 ==>
                  && after.halted == d.adapter.Some? && after.alternate == 1
                  && after.use32BitNtb == d.use32BitNtb && after.selectedSize == d.selectedSize
                  && (d.adapter.None? && (creation.Created? || creation.NotStarted?) ==>
                        after.adapter == Some(Adapter(d.use32BitNtb, d.selectedSize)))
                  && (d.adapter.Some? || creation.NotCreated? || creation.NoClassInformation? ==>
                        after.adapter == d.adapter)
                  && after.notices
                     == if d.adapter.None? && creation.Created? then d.notices + [true] else d.notices)
            && (n > 1 ==> after == d.(alternate := n))
  {
  }

  // ---------- The invariant ----------

  /** Connect and disconnect alternate, beginning with connect, and the last one says how things are. */
  predicate Alternating(notices: seq<bool>, connected: bool) {
    && (forall i :: 0 <= i < |notices| ==> notices[i] == (i % 2 == 0))
    && |notices| % 2 == if connected then 1 else 0
  }

  /** The adapter works with the parameters the device reports. */
  predicate Agrees(d: Device) {
    d.adapter.Some? ==> d.adapter.value == Adapter(d.use32BitNtb, d.selectedSize)
  }

  /** The chosen input size is one the device offers. */
  predicate SizeInRange(d: Device) {
    MIN_NTB_SIZE <= d.selectedSize <= d.maxSize == DEFAULT_NTB_SIZE
  }

  predicate Inv(d: Device) {
    && !d.halted
    && (d.adapter.Some? <==> d.alternate == 1)
    && (d.adapter.Some? ==> d.bus.Configured?)
    && SizeInRange(d)
    && Agrees(d)
    && Alternating(d.notices, d.adapter.Some?)
  }

  lemma InitialHolds()
    ensures Inv(Initial())
  {
  }

  /**
    What the environment has to keep to: attach only without an adapter; setup and set-interface only
    when configured; an adapter, when one has to be created, is created; an alternate setting above 1
    only without an adapter; and no change of the input size while an adapter is live, unless
    creating the adapter anew stores nothing.
   */
  predicate Permitted(d: Device, e: Event) {
    match e
    case AttachEvent => d.adapter.None?
    case SetupEvent(p) =>
      && d.bus.Configured?
      && (SelectsSize(d, p) && d.adapter.Some? ==> p.creation.NoClassInformation? || p.creation.NotCreated?)
    case SetInterfaceEvent(n, creation) =>
      && d.bus.Configured?
      && (n == 1 && d.alternate != 1 ==> creation.Created?)
      && (n > 1 ==> d.adapter.None?)
    case _ => true
  }

  lemma AlternatingAppend(notices: seq<bool>, connected: bool)
    requires Alternating(notices, !connected)
    ensures Alternating(notices + [connected], connected)
  {
  }

  /** The two notices of the same kind in a row that a failed start leads to. */
  lemma NotAlternating(notices: seq<bool>, connected: bool)
    requires Alternating(notices, connected)
    ensures !Alternating(notices, !connected)
  {
  }

  /**
    The invariant survives an event if and only if the event is permitted: the conditions on the
    environment are exactly those the code needs.
   */
  lemma InvariantKeptIff(d: Device, e: Event)
    requires Inv(d)
    ensures Inv(Apply(d, e)) <==> Permitted(d, e)
  {
    AlternatingFacts(d);
    match e
    case SetupEvent(p) => SetupKeepsIff(d, p);
    case SetInterfaceEvent(n, creation) => SetInterfaceKeepsIff(d, n, creation);
    case _ =>
  }

  lemma AlternatingFacts(d: Device)
    requires Inv(d)
    ensures d.adapter.Some? ==> Alternating(d.notices + [false], false)
    ensures d.adapter.None? ==> Alternating(d.notices + [true], true) && !Alternating(d.notices, true)
    ensures d.adapter.Some? ==> Inv(DestroyAdapter(d))
  {
    if d.adapter.Some? {
      AlternatingAppend(d.notices, false);
    } else {
      AlternatingAppend(d.notices, true);
      NotAlternating(d.notices, false);
    }
  }

  lemma SetupKeepsIff(d: Device, p: SetupPacket)
    requires Inv(d)
    ensures Inv(Apply(d, SetupEvent(p))) <==> Permitted(d, SetupEvent(p))
  {
    hide Alternating;
    AlternatingFacts(d);
  }

  lemma SetInterfaceKeepsIff(d: Device, n: nat, creation: Creation)
    requires Inv(d)
    ensures Inv(Apply(d, SetInterfaceEvent(n, creation))) <==> Permitted(d, SetInterfaceEvent(n, creation))
  {
    hide Alternating;
    AlternatingFacts(d);
  }

  function Run(d: Device, events: seq<Event>): Device
    decreases |events|
  {
    if events == [] then d else Run(Apply(d, events[0]), events[1..])
  }

  predicate RunPermitted(d: Device, events: seq<Event>)
    decreases |events|
  {
    events == [] || (Permitted(d, events[0]) && RunPermitted(Apply(d, events[0]), events[1..]))
  }

  /**
    Over every permitted sequence of events from power-up: no assertion fails, the adapter is live
    exactly while the alternate setting is 1 and then the device is configured, connect and disconnect
    alternate, and the adapter's format and size are the device's.
   */
  lemma {:induction false} RunKeeps(d: Device, events: seq<Event>)
    requires Inv(d) && RunPermitted(d, events)
    ensures Inv(Run(d, events))
    decreases |events|
  {
    hide Inv;
    hide Apply;
    hide Permitted;
    if events != [] {
      InvariantKeptIff(d, events[0]);
      RunKeeps(Apply(d, events[0]), events[1..]);
    }
  }

  /** The invariant holds all along a run if and only if every event of the run is permitted. */
  lemma {:induction false} RunKeepsIff(d: Device, events: seq<Event>)
    requires Inv(d)
    ensures (forall k :: 0 <= k <= |events| ==> Inv(Run(d, events[..k]))) <==> RunPermitted(d, events)
    decreases |events|
  {
    hide Inv;
    hide Apply;
    hide Permitted;
    if events != [] {
      var next, rest := Apply(d, events[0]), events[1..];
      InvariantKeptIff(d, events[0]);
      forall k | 1 <= k <= |events|
        ensures Run(d, events[..k]) == Run(next, rest[..k - 1])
      {
        assert events[..k][1..] == rest[..k - 1];
      }
      if Inv(next) {
        RunKeepsIff(next, rest);
        forall k | 0 <= k <= |rest|
          ensures Run(next, rest[..k]) == Run(d, events[..k + 1])
        {
        }
      } else {
        assert Run(d, events[..1]) == Run(next, rest[..0]) == next;
      }
    }
  }

  /** The chosen input size stays in range over every sequence of events, permitted or not. */
  lemma {:induction false} SizeStaysInRange(d: Device, events: seq<Event>)
    requires SizeInRange(d)
    ensures SizeInRange(Run(d, events))
    decreases |events|
  {
    if events != [] {
      SizeStaysInRange(Apply(d, events[0]), events[1..]);
    }
  }

  // ---------- What a host can rely on ----------

  /**
    After a request for an input size in range the device works with that size if and only if no
    adapter was live or the size is the default: re-creating the adapter resets the choice.
   */
  lemma SizeHonouredIff(d: Device, p: SetupPacket)
    requires Inv(d) && d.bus.Configured? && SelectsSize(d, p)
    ensures Apply(d, SetupEvent(p)).selectedSize == p.data
            <==> d.adapter.None? || p.data == DEFAULT_NTB_SIZE
  {
    hide Alternating;
  }

  /** The block format survives such a request if and only if no adapter was live or it was 16-bit. */
  lemma FormatSurvivesIff(d: Device, p: SetupPacket)
    requires Inv(d) && d.bus.Configured? && SelectsSize(d, p)
    ensures Apply(d, SetupEvent(p)).use32BitNtb == d.use32BitNtb
            <==> d.adapter.None? || !d.use32BitNtb
  {
    hide Alternating;
  }

  function FormatRequest(n: nat): Event {
    SetupEvent(SetupPacket(true, SetNtbFormat, n, 0, true, 0, Created))
  }

  function SizeRequest(n: nat): Event {
    SetupEvent(SetupPacket(true, SetNtbInputSize, 0, 4, true, n, Created))
  }

  /**
    The fallback at an input: three permitted events lead to a running 32-bit adapter, and a request
    for a smaller input size then turns the device and its adapter back to 16-bit blocks.
   */
  lemma SizeChangeLosesFormat()
    ensures var events := [ConfiguredEvent, FormatRequest(1), SetInterfaceEvent(1, Created)];
            var d := Run(Initial(), events);
            && RunPermitted(Initial(), events)
            && d.use32BitNtb && d.adapter == Some(Adapter(true, DEFAULT_NTB_SIZE))
            && SelectsSize(d, SizeRequest(4096).packet)
            && var after := Apply(d, SizeRequest(4096));
               !after.use32BitNtb && after.adapter == Some(Adapter(false, DEFAULT_NTB_SIZE))
  {
    var e1, e2, e3 := ConfiguredEvent, FormatRequest(1), SetInterfaceEvent(1, Created);
    var d1 := Apply(Initial(), e1);
    var d2 := Apply(d1, e2);
    var d3 := Apply(d2, e3);
    assert Run(d3, []) == d3 && RunPermitted(d3, []);
    assert [e3][1..] == [] && Run(d2, [e3]) == d3 && RunPermitted(d2, [e3]);
    assert [e2, e3][1..] == [e3] && Run(d1, [e2, e3]) == d3 && RunPermitted(d1, [e2, e3]);
    assert [e1, e2, e3][1..] == [e2, e3] && Run(Initial(), [e1, e2, e3]) == d3;
  }

  /**
    Four legal-looking events that halt the machine: configured, alternate setting 1, a new input size,
    alternate setting 1 again. The re-created adapter is live while the setting has gone back to 0.
   */
  lemma SizeChangeThenSelectHalts()
    ensures var events := [ConfiguredEvent, SetInterfaceEvent(1, Created), SizeRequest(4096)];
            var d := Run(Initial(), events);
            && d.adapter.Some? && d.alternate == 0 && d.selectedSize == DEFAULT_NTB_SIZE
            && Apply(d, SetInterfaceEvent(1, Created)).halted
  {
    var e1, e2, e3 := ConfiguredEvent, SetInterfaceEvent(1, Created), SizeRequest(4096);
    var d1 := Apply(Initial(), e1);
    var d2 := Apply(d1, e2);
    var d3 := Apply(d2, e3);
    assert Run(d3, []) == d3;
    assert [e3][1..] == [] && Run(d2, [e3]) == d3;
    assert [e2, e3][1..] == [e3] && Run(d1, [e2, e3]) == d3;
    assert [e1, e2, e3][1..] == [e2, e3] && Run(Initial(), [e1, e2, e3]) == d3;
  }

  /**
    The second consequence: with the setting at 0 the device accepts a change of the block format
    while its adapter runs on, and they agree afterwards if and only if the format asked for is the
    adapter's.
   */
  lemma FormatAgreesIff(d: Device, n: nat)
    requires !d.halted && d.bus.Configured? && d.adapter.Some? && d.alternate == 0 && Agrees(d) && n <= 1
    ensures SelectsFormat(d, FormatRequest(n).packet) && AnswerTo(d, FormatRequest(n).packet) == Handshake
    ensures Agrees(Apply(d, FormatRequest(n))) <==> d.adapter.value.use32BitNtb == (n == 1)
  {
  }

  /** At the same input: after the size change a request for 32-bit blocks leaves a 16-bit adapter behind. */
  lemma SizeChangeThenFormatDisagrees()
    ensures var events := [ConfiguredEvent, SetInterfaceEvent(1, Created), SizeRequest(4096), FormatRequest(1)];
            var d := Run(Initial(), events);
            !d.halted && d.use32BitNtb && d.adapter == Some(Adapter(false, DEFAULT_NTB_SIZE))
  {
    var e1, e2, e3, e4 := ConfiguredEvent, SetInterfaceEvent(1, Created), SizeRequest(4096), FormatRequest(1);
    var d1 := Apply(Initial(), e1);
    var d2 := Apply(d1, e2);
    var d3 := Apply(d2, e3);
    var d4 := Apply(d3, e4);
    assert Run(d4, []) == d4;
    assert [e4][1..] == [] && Run(d3, [e4]) == d4;
    assert [e3, e4][1..] == [e4] && Run(d2, [e3, e4]) == d4;
    assert [e2, e3, e4][1..] == [e3, e4] && Run(d1, [e2, e3, e4]) == d4;
    assert [e1, e2, e3, e4][1..] == [e2, e3, e4] && Run(Initial(), [e1, e2, e3, e4]) == d4;
  }

  /**
    Requests that read the parameters report what the running adapter uses, over every permitted
    sequence of events.
   */
  lemma ReportsRunningAdapter(events: seq<Event>, p: SetupPacket)
    requires RunPermitted(Initial(), events)
    requires Run(Initial(), events).adapter.Some?
    requires p.forCommunicationInterface && p.transferred && p.value == 0 && p.length >= 4
    ensures var d := Run(Initial(), events);
            && (p.request.GetNtbInputSize? ==> AnswerTo(d, p) == Number(d.adapter.value.maxNtbSize))
            && (p.request.GetNtbFormat? ==> AnswerTo(d, p) == Number(if d.adapter.value.use32BitNtb then 1 else 0))
  {
    InitialHolds();
    RunKeeps(Initial(), events);
  }
}
