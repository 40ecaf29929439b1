/** The function device object (function/device.cpp), whose handlers update it field by field. */
module FunctionDevices {

  import opened Common
  import opened DeviceLifecycle

  class FunctionDevice {
    var state: BusState
    var alternateInterfaceNumber: nat
    var netAdapter: Option<Adapter>
    var use32BitNtb: bool
    var hostSelectedNtbInMaxSize: nat
    var ntbInMaxSize: nat
    var notifications: seq<bool>
    var halted: bool

    function View(): Device
      reads this
    {
      Device(state, alternateInterfaceNumber, netAdapter, use32BitNtb, hostSelectedNtbInMaxSize,
             ntbInMaxSize, notifications, halted)
    }

    /** InitializeDevice */
    constructor ()
      ensures View() == Initial()
    {
      state, alternateInterfaceNumber, netAdapter, notifications, halted := Minimum, 0, None, [], false;
      use32BitNtb, hostSelectedNtbInMaxSize, ntbInMaxSize := false, 0, 0;
      new;
      SetParameters();
    }

    method SetParameters()
      modifies this
      ensures View() == DeviceLifecycle.Reset(old(View()))
    {
      ntbInMaxSize := DEFAULT_NTB_SIZE;
      hostSelectedNtbInMaxSize := ntbInMaxSize;
      use32BitNtb := false;
    }

    method CreateNetAdapter(creation: Creation)
      modifies this
      ensures View() == CreateAdapter(old(View()), creation)
      ensures halted <==> old(halted) || old(netAdapter).Some?
      ensures netAdapter.Some? && old(netAdapter).None? ==> Agrees(View())
      ensures !halted && old(Alternating(notifications, netAdapter.Some?)) ==>
                (Alternating(notifications, netAdapter.Some?) <==> !creation.NotStarted?)
    {
      Notices(notifications);
      if netAdapter.Some? {
        halted := true;
        return;
      }
      if creation.NoClassInformation? {
        return;
      }
      if creation.NotCreated? {
        return;
      }
      netAdapter := Some(Adapter(use32BitNtb, hostSelectedNtbInMaxSize));
      if creation.NotStarted? {
        return;
      }
      notifications := notifications + [true];
    }

    method DestroyNetAdapter()
      modifies this
      ensures View() == DestroyAdapter(old(View()))
      ensures netAdapter.None?
      ensures old(Alternating(notifications, netAdapter.Some?)) ==> Alternating(notifications, false)
      ensures old(netAdapter).Some? ==>
                alternateInterfaceNumber == 0 && notifications != old(notifications)
                && View() == Initial().(bus := state, notices := notifications, halted := halted)
    {
      Notices(notifications);
      if netAdapter.Some? {
        netAdapter := None;
        SetParameters();
        notifications := notifications + [false];
        alternateInterfaceNumber := 0;
      }
    }

    method ProcessSetupPacket(p: SetupPacket) returns (answer: Answer)
      modifies this
      ensures View() == AfterSetup(old(View()), p)
      ensures old(state).Configured? ==> answer == AnswerTo(old(View()), p)
      ensures old(state) != Configured ==> View() == old(View()).(halted := true) && answer == Stall
      ensures old(state) == Configured ==>
                (answer.Parameters? <==>
                   && p.forCommunicationInterface && p.transferred && p.request == GetNtbParameters
                   && p.value == 0 && p.length >= 0x1C)
      ensures old(state) == Configured ==>
                (answer.Number? <==>
                   && p.forCommunicationInterface && p.transferred && p.value == 0
                   && ((p.request == GetNtbFormat && p.length >= 2) || (p.request == GetNtbInputSize && p.length >= 4)))
      ensures answer.Number? ==>
                answer.n == if p.request == GetNtbInputSize then old(hostSelectedNtbInMaxSize)
                            else if old(use32BitNtb) then 1 else 0
      ensures old(state) == Configured ==>
                (answer.Handshake? <==>
                   && p.forCommunicationInterface && p.transferred
                   && ((&& p.request == SetNtbFormat && p.value <= 1 && p.length == 0
                        && old(alternateInterfaceNumber) == 0)
                       || (p.request == SetNtbInputSize && p.value == 0 && p.length == 4)))
      ensures old(state) == Configured ==>
                var before := old(View());
                if && p.forCommunicationInterface && p.request == SetNtbFormat && p.value <= 1 && p.length == 0
                   && before.alternate == 0 then
                  View() == before.(use32BitNtb := p.value == 1)
                else if && p.forCommunicationInterface && p.request == SetNtbInputSize && p.value == 0 && p.length == 4
                        && p.transferred && 2048 <= p.data <= before.maxSize then
                  if before.adapter == None then View() == before.(selectedSize := p.data)
                  else
                    && View().bus == before.bus && View().alternate == 0 && View().halted == before.halted
                    && !View().use32BitNtb && View().selectedSize == 0x1_0000 && View().maxSize == 0x1_0000
                    && View().adapter == (if p.creation == Created || p.creation == NotStarted
                                          then Some(Adapter(false, 0x1_0000)) else None)
                    && View().notices == before.notices + if p.creation == Created then [false, true] else [false]
                else View() == before
    {
      answer := Stall;
      if state != Configured {
        halted := true;
        return;
      }
      if !p.forCommunicationInterface {
        return;
      }
      match p.request {
        case Unsupported =>
        case GetNtbParameters =>
          if p.value == 0 && p.length >= NTB_PARAMETERS_SIZE && p.transferred {
            answer := Parameters;
          }
        case GetNtbFormat =>
          if p.value == 0 && p.length >= 2 && p.transferred {
            answer := Number(if use32BitNtb then 1 else 0);
          }
        case SetNtbFormat =>
          if p.value > 1 || p.length != 0 || alternateInterfaceNumber != 0 {
            return;
          }
          use32BitNtb := p.value == 1;
          if p.transferred {
            answer := Handshake;
          }
        case GetNtbInputSize =>
          if p.value == 0 && p.length >= 4 && p.transferred {
            answer := Number(hostSelectedNtbInMaxSize);
          }
        case SetNtbInputSize =>
          if p.value != 0 || p.length != 4 {
            return;
          }
          if p.transferred {
            if p.data >= MIN_NTB_SIZE && p.data <= ntbInMaxSize {
              hostSelectedNtbInMaxSize := p.data;
              if netAdapter.Some? {
                DestroyNetAdapter();
                CreateNetAdapter(p.creation);
              }
            }
            answer := Handshake;
          }
      }
    }

    /** BusEventNotificationRead, for a notification that arrived. A halted machine does nothing. */
    method BusEventNotificationRead(e: Event)
      modifies this
      ensures View() == Apply(old(View()), e)
      ensures old(Inv(View())) ==> (Inv(View()) <==> old(Permitted(View(), e)))
    {
      if Inv(View()) {
        InvariantKeptIff(View(), e);
      }
      if halted {
        return;
      }
      match e {
        case AttachEvent =>
          state := Attached;
        case SuspendEvent =>
        case ResumeEvent =>
        case ConfiguredEvent =>
          state := Configured;
        case UnConfiguredEvent =>
          state := Attached;
          DestroyNetAdapter();
        case DetachEvent =>
          state := Detached;
          DestroyNetAdapter();
        case ResetEvent =>
          state := Default;
          DestroyNetAdapter();
        case SetupEvent(p) =>
          var _ := ProcessSetupPacket(p);
        case SetInterfaceEvent(n, creation) =>
          if state != Configured {
            halted := true;
            return;
          }
          if alternateInterfaceNumber != n {
            alternateInterfaceNumber := n;
            if n == 0 {
              DestroyNetAdapter();
            } else if n == 1 {
              CreateNetAdapter(creation);
            }
          }
      }
    }

    /**
      Any sequence of notifications: the invariant holds all along if and only if each one is permitted
      when it comes. violated says whether the invariant failed after some notification.
     */
    method HandleAll(events: seq<Event>) returns (ghost violated: bool)
      requires Inv(View())
      modifies this
      ensures View() == Run(old(View()), events)
      ensures !violated <==> old(RunPermitted(View(), events))
      ensures !violated ==> Inv(View())
    {
      hide Inv;
      hide Apply;
      hide Permitted;
      ghost var start := View();
      violated := false;
      for i := 0 to |events|
        invariant Run(start, events) == Run(View(), events[i..])
        invariant violated ==> !RunPermitted(start, events)
        invariant !violated ==> Inv(View()) && (RunPermitted(start, events) <==> RunPermitted(View(), events[i..]))
      {
        assert events[i..][0] == events[i] && events[i..][1..] == events[i + 1..];
        BusEventNotificationRead(events[i]);
        violated := violated || !Inv(View());
      }
    }
  }

  /** The notices after one more of either kind. */
  lemma Notices(notices: seq<bool>)
    ensures Alternating(notices, true) ==> Alternating(notices + [false], false) && !Alternating(notices, false)
    ensures Alternating(notices, false) ==> Alternating(notices + [true], true) && !Alternating(notices, true)
  {
  }
}
