/**
 * `URakNetUDPClient`: the Unreal object that owns one RakNet peer.  The pure
 * decisions it takes (how `Connect` proceeds and translates the library's
 * code, how an incoming packet is classified) are functions with lemmas; the
 * object itself is a class whose methods follow those functions.
 */
module RakNetUDPClient {

  import opened UDPClientTypes
  import RakNet
  import Wrappers

  // ---------------------------------------------------------------------------
  // Constants

  /** `CustomMessageIDTypes::IDRakNetCustomData`, one past `ID_USER_PACKET_ENUM`. */
  function CustomData(t: RakNet.MessageTable): (id: int) {
    t.userPacketEnum + 1
  }

  /** `CustomMessageIDTypes::IDRakNetCustomCompressFlag`, two past `ID_USER_PACKET_ENUM`. */
  function CustomCompressFlag(t: RakNet.MessageTable): (id: int) {
    t.userPacketEnum + 2
  }

  /** The unreliable-message timeout set after a successful startup. */
  const UnreliableTimeoutMS: RakNet.UInt32 := 1000

  /** The default linger of the shutdown at teardown. */
  const DefaultShutdownDelayMS: int := 500

  // ---------------------------------------------------------------------------
  // Connect

  /** A startup result that lets `Connect` go on. */
  predicate StartupSucceeded(r: RakNet.StartupResult) {
    r == RakNet.RaknetStarted || r == RakNet.RaknetAlreadyStarted
  }

  /** The switch on the library's connection-attempt code. */
  function TranslateAttempt(code: RakNet.ConnectionAttemptResult): (r: UDPConnectionAttemptResult)
    ensures r != None && r != ConnectionStartupFailed && r != InvalidInterfaceInstance
    ensures r == UnknownError <==> code.OtherAttemptResult?
  {
    match code
    case ConnectionAttemptStarted => ConnectionAttemptStarted
    case InvalidParameter => InvalidParameter
    case CannotResolveDomainName => CannotResolveDomainName
    case AlreadyConnectedToEndpoint => AlreadyConnectedToEndpoint
    case ConnectionAttemptAlreadyInProgress => ConnectionAttemptAlreadyInProgress
    case SecurityInitializationFailed => SecurityInitializationFailed
    case OtherAttemptResult(_) => UnknownError
  }

  /** The library code behind a facade result, for the six results that have one. */
  function AttemptCodeOf(r: UDPConnectionAttemptResult): (c: Wrappers.Option<RakNet.ConnectionAttemptResult>)
  {
    match r
    case ConnectionAttemptStarted => Wrappers.Some(RakNet.ConnectionAttemptStarted)
    case InvalidParameter => Wrappers.Some(RakNet.InvalidParameter)
    case CannotResolveDomainName => Wrappers.Some(RakNet.CannotResolveDomainName)
    case AlreadyConnectedToEndpoint => Wrappers.Some(RakNet.AlreadyConnectedToEndpoint)
    case ConnectionAttemptAlreadyInProgress => Wrappers.Some(RakNet.ConnectionAttemptAlreadyInProgress)
    case SecurityInitializationFailed => Wrappers.Some(RakNet.SecurityInitializationFailed)
    case _ => Wrappers.None
  }

  /** The six named codes correspond one to one to the six same-named results. */
  lemma TranslateAttemptInverse(code: RakNet.ConnectionAttemptResult, r: UDPConnectionAttemptResult)
    ensures AttemptCodeOf(r) == Wrappers.Some(code) <==> (TranslateAttempt(code) == r && !code.OtherAttemptResult?)
  {
  }

  /** The calls `Connect` makes on a non-null peer, and the result it returns. */
  datatype ConnectStep = ConnectStep(calls: seq<RakNet.PeerCall>, result: UDPConnectionAttemptResult)

  /**
   * The decision procedure of `Connect(Host, Port)`: `hasPeer` is whether the
   * handle is non-null, `active` what the peer reports, `startup` and
   * `attempt` the library's replies to `Startup` and `Connect`.
   */
  function ConnectOutcome(hasPeer: bool, active: bool, threadPriority: int, host: string,
                          port: RakNet.Int32, startup: RakNet.StartupResult,
                          attempt: RakNet.ConnectionAttemptResult): (o: ConnectStep)
    ensures o.result != None
    ensures o.result == InvalidInterfaceInstance <==> !hasPeer
    ensures o.result == ConnectionStartupFailed <==> hasPeer && !active && !StartupSucceeded(startup)
  {
    if !hasPeer then
      ConnectStep([], InvalidInterfaceInstance)
    else
      var setup := if active then [] else [RakNet.Startup(1, 1, threadPriority)];
      if !active && !StartupSucceeded(startup) then
        ConnectStep(setup, ConnectionStartupFailed)
      else
        var configure := if active then [] else
          [RakNet.SetOccasionalPing(true), RakNet.SetUnreliableTimeout(UnreliableTimeoutMS)];
        ConnectStep(setup + configure + [RakNet.Connect(host, RakNet.ToUInt16(port), 0)],
                    TranslateAttempt(attempt))
  }

  /** Whether a call list contains a connection attempt. */
  predicate IssuesConnect(calls: seq<RakNet.PeerCall>) {
    exists i :: 0 <= i < |calls| && calls[i].Connect?
  }

  /** With a null handle nothing is called on the library. */
  lemma ConnectWithoutPeer(active: bool, threadPriority: int, host: string, port: RakNet.Int32,
                           startup: RakNet.StartupResult, attempt: RakNet.ConnectionAttemptResult)
    ensures ConnectOutcome(false, active, threadPriority, host, port, startup, attempt)
         == ConnectStep([], InvalidInterfaceInstance)
  {
  }

  /** A failed startup is the only call; no configuration and no attempt follow. */
  lemma ConnectStartupFailure(threadPriority: int, host: string, port: RakNet.Int32,
                              startup: RakNet.StartupResult, attempt: RakNet.ConnectionAttemptResult)
    requires !StartupSucceeded(startup)
    ensures ConnectOutcome(true, false, threadPriority, host, port, startup, attempt)
         == ConnectStep([RakNet.Startup(1, 1, threadPriority)], ConnectionStartupFailed)
  {
  }

  /**
   * After a successful startup the peer is configured (occasional ping, a
   * 1000 ms unreliable timeout) before the attempt; an active peer is sent
   * the attempt alone.  The port reaches the library as an `unsigned short`.
   */
  lemma ConnectCallSequence(active: bool, threadPriority: int, host: string, port: RakNet.Int32,
                            startup: RakNet.StartupResult, attempt: RakNet.ConnectionAttemptResult)
    requires active || StartupSucceeded(startup)
    ensures var o := ConnectOutcome(true, active, threadPriority, host, port, startup, attempt);
      && o.result == TranslateAttempt(attempt)
      && o.calls == (if active then [] else
                      [RakNet.Startup(1, 1, threadPriority), RakNet.SetOccasionalPing(true),
                       RakNet.SetUnreliableTimeout(1000)])
                    + [RakNet.Connect(host, RakNet.ToUInt16(port), 0)]
  {
  }

  /** A connection attempt is issued exactly when there is a peer that is, or becomes, started. */
  lemma ConnectIssuedIff(hasPeer: bool, active: bool, threadPriority: int, host: string,
                         port: RakNet.Int32, startup: RakNet.StartupResult,
                         attempt: RakNet.ConnectionAttemptResult)
    ensures IssuesConnect(ConnectOutcome(hasPeer, active, threadPriority, host, port, startup, attempt).calls)
        <==> hasPeer && (active || StartupSucceeded(startup))
  {
    var o := ConnectOutcome(hasPeer, active, threadPriority, host, port, startup, attempt);
    if hasPeer && (active || StartupSucceeded(startup)) {
      assert o.calls[|o.calls| - 1].Connect?;
    }
  }

  /** Ping and timeout configuration happen exactly on a startup that succeeded. */
  lemma ConnectConfiguresIff(hasPeer: bool, active: bool, threadPriority: int, host: string,
                             port: RakNet.Int32, startup: RakNet.StartupResult,
                             attempt: RakNet.ConnectionAttemptResult)
    ensures var calls := ConnectOutcome(hasPeer, active, threadPriority, host, port, startup, attempt).calls;
      && (RakNet.SetOccasionalPing(true) in calls <==> hasPeer && !active && StartupSucceeded(startup))
      && (RakNet.SetUnreliableTimeout(UnreliableTimeoutMS) in calls <==> hasPeer && !active && StartupSucceeded(startup))
      && (RakNet.Startup(1, 1, threadPriority) in calls <==> hasPeer && !active)
  {
  }

  // ---------------------------------------------------------------------------
  // Incoming packets

  /** What the switch of `OnIncomingPacket` does with one message type. */
  datatype TagOutcome =
    | Notify(kind: NotificationKind)   // handled, one notification queued
    | Ignored                          // handled, nothing queued
    | Unknown                          // unhandled, nothing queued

  /** The switch on the packet's first byte, case by case. */
  function Classify(t: RakNet.MessageTable, messageType: int): (o: TagOutcome)
    ensures o != Notify(Closed(ClosedByUser))
    ensures o != Notify(AttemptFailed(SecurityPublicKeyMismatch))
  {
    if messageType == t.value(RakNet.DisconnectionNotification) then Notify(Closed(ClosedByRemote))
    else if messageType == t.value(RakNet.ConnectionLost) then Notify(Closed(ConnectionLost))
    else if messageType == t.value(RakNet.ConnectionRequestAccepted) then Notify(Opened)
    else if messageType == t.value(RakNet.ConnectionAttemptFailed) then Notify(AttemptFailed(ConnectionAttemptFailed))
    else if messageType == t.value(RakNet.RemoteSystemRequiresPublicKey) then Notify(AttemptFailed(RemoteSystemRequiresPublicKey))
    else if messageType == t.value(RakNet.OurSystemRequiresSecurity) then Notify(AttemptFailed(OurSystemRequiresSecurity))
    else if messageType == t.value(RakNet.PublicKeyMismatch) then Notify(AttemptFailed(PublicKeyMismatch))
    else if messageType == t.value(RakNet.AlreadyConnected) then Notify(AttemptFailed(AlreadyConnected))
    else if messageType == t.value(RakNet.NoFreeIncomingConnections) then Notify(AttemptFailed(NoFreeIncomingConnections))
    else if messageType == t.value(RakNet.ConnectionBanned) then Notify(AttemptFailed(ConnectionBanned))
    else if messageType == t.value(RakNet.InvalidPassword) then Notify(AttemptFailed(InvalidPassword))
    else if messageType == t.value(RakNet.IncompatibleProtocolVersion) then Notify(AttemptFailed(IncompatibleProtocol))
    else if messageType == t.value(RakNet.IpRecentlyConnected) then Notify(AttemptFailed(IpRecentlyConnected))
    else if messageType == CustomData(t) then Ignored
    else if messageType == CustomCompressFlag(t) then Ignored
    else Unknown
  }

  /** The notification each named library message stands for, by name. */
  function KindOf(m: RakNet.NamedMessage): (k: NotificationKind) {
    match m
    case DisconnectionNotification => Closed(ClosedByRemote)
    case ConnectionLost => Closed(ConnectionLost)
    case ConnectionRequestAccepted => Opened
    case ConnectionAttemptFailed => AttemptFailed(ConnectionAttemptFailed)
    case RemoteSystemRequiresPublicKey => AttemptFailed(RemoteSystemRequiresPublicKey)
    case OurSystemRequiresSecurity => AttemptFailed(OurSystemRequiresSecurity)
    case PublicKeyMismatch => AttemptFailed(PublicKeyMismatch)
    case AlreadyConnected => AttemptFailed(AlreadyConnected)
    case NoFreeIncomingConnections => AttemptFailed(NoFreeIncomingConnections)
    case ConnectionBanned => AttemptFailed(ConnectionBanned)
    case InvalidPassword => AttemptFailed(InvalidPassword)
    case IncompatibleProtocolVersion => AttemptFailed(IncompatibleProtocol)
    case IpRecentlyConnected => AttemptFailed(IpRecentlyConnected)
  }

  /** The library message behind a notification, when one exists. */
  function MessageFor(k: NotificationKind): (m: Wrappers.Option<RakNet.NamedMessage>) {
    match k
    case Opened => Wrappers.Some(RakNet.ConnectionRequestAccepted)
    case Closed(ClosedByRemote) => Wrappers.Some(RakNet.DisconnectionNotification)
    case Closed(ConnectionLost) => Wrappers.Some(RakNet.ConnectionLost)
    case Closed(ClosedByUser) => Wrappers.None
    case AttemptFailed(ConnectionAttemptFailed) => Wrappers.Some(RakNet.ConnectionAttemptFailed)
    case AttemptFailed(AlreadyConnected) => Wrappers.Some(RakNet.AlreadyConnected)
    case AttemptFailed(NoFreeIncomingConnections) => Wrappers.Some(RakNet.NoFreeIncomingConnections)
    case AttemptFailed(SecurityPublicKeyMismatch) => Wrappers.None
    case AttemptFailed(ConnectionBanned) => Wrappers.Some(RakNet.ConnectionBanned)
    case AttemptFailed(InvalidPassword) => Wrappers.Some(RakNet.InvalidPassword)
    case AttemptFailed(IncompatibleProtocol) => Wrappers.Some(RakNet.IncompatibleProtocolVersion)
    case AttemptFailed(IpRecentlyConnected) => Wrappers.Some(RakNet.IpRecentlyConnected)
    case AttemptFailed(RemoteSystemRequiresPublicKey) => Wrappers.Some(RakNet.RemoteSystemRequiresPublicKey)
    case AttemptFailed(OurSystemRequiresSecurity) => Wrappers.Some(RakNet.OurSystemRequiresSecurity)
    case AttemptFailed(PublicKeyMismatch) => Wrappers.Some(RakNet.PublicKeyMismatch)
  }

  /**
   * The thirteen named messages and the thirteen notifications the facade can
   * send are in one-to-one correspondence; `ClosedByUser` and
   * `SecurityPublicKeyMismatch` have no message.
   */
  lemma KindOfInverse(m: RakNet.NamedMessage, k: NotificationKind)
    ensures MessageFor(k) == Wrappers.Some(m) <==> KindOf(m) == k
    ensures MessageFor(k) == Wrappers.None <==> k == Closed(ClosedByUser) || k == AttemptFailed(SecurityPublicKeyMismatch)
  {
  }

  /** The switch sends each named message to its notification. */
  lemma ClassifyNamed(t: RakNet.MessageTable, m: RakNet.NamedMessage)
    requires t.Valid()
    ensures Classify(t, t.value(m)) == Notify(KindOf(m))
  {
  }

  /** A byte that is no named message is a custom marker (handled silently) or unknown. */
  lemma ClassifyUnnamed(t: RakNet.MessageTable, messageType: int)
    requires forall m: RakNet.NamedMessage :: t.value(m) != messageType
    ensures Classify(t, messageType)
         == if messageType == CustomData(t) || messageType == CustomCompressFlag(t) then Ignored else Unknown
  {
  }

  /** The custom markers are never mistaken for a library message. */
  lemma ClassifyCustom(t: RakNet.MessageTable, messageType: int)
    requires t.Valid()
    requires messageType == CustomData(t) || messageType == CustomCompressFlag(t)
    ensures Classify(t, messageType) == Ignored
  {
    forall m: RakNet.NamedMessage ensures t.value(m) != messageType {
      assert t.value(m) < t.userPacketEnum;
    }
    ClassifyUnnamed(t, messageType);
  }

  /** A byte produces notification `k` exactly when it is the identifier of `k`'s message. */
  lemma ClassifyNotifyIff(t: RakNet.MessageTable, messageType: int, k: NotificationKind)
    requires t.Valid()
    ensures Classify(t, messageType) == Notify(k)
        <==> MessageFor(k).Some? && t.value(MessageFor(k).value) == messageType
  {
    if Classify(t, messageType) == Notify(k) {
      if forall m: RakNet.NamedMessage :: t.value(m) != messageType {
        ClassifyUnnamed(t, messageType);
        assert false;
      }
      var m: RakNet.NamedMessage :| t.value(m) == messageType;
      ClassifyNamed(t, m);
      KindOfInverse(m, k);
    }
    if MessageFor(k).Some? && t.value(MessageFor(k).value) == messageType {
      ClassifyNamed(t, MessageFor(k).value);
      KindOfInverse(MessageFor(k).value, k);
    }
  }

  /**
   * Ten distinct failure reasons can be reported: every reason except
   * `SecurityPublicKeyMismatch`.
   */
  lemma FailureReasonsReported(t: RakNet.MessageTable, reason: UDPConnectionAttemptFailedReason)
    requires t.Valid()
    ensures (exists messageType :: Classify(t, messageType) == Notify(AttemptFailed(reason)))
        <==> reason != SecurityPublicKeyMismatch
  {
    var k := AttemptFailed(reason);
    if reason != SecurityPublicKeyMismatch {
      KindOfInverse(MessageFor(k).value, k);
      ClassifyNamed(t, MessageFor(k).value);
      assert Classify(t, t.value(MessageFor(k).value)) == Notify(k);
    }
  }

  /** The closed reasons reported are `ClosedByRemote` and `ConnectionLost`. */
  lemma ClosedReasonsReported(t: RakNet.MessageTable, reason: UDPConnectionLostReason)
    requires t.Valid()
    ensures (exists messageType :: Classify(t, messageType) == Notify(Closed(reason)))
        <==> reason != ClosedByUser
  {
    if reason == ClosedByRemote {
      ClassifyNamed(t, RakNet.DisconnectionNotification);
      assert Classify(t, t.value(RakNet.DisconnectionNotification)) == Notify(Closed(reason));
    } else if reason == ConnectionLost {
      ClassifyNamed(t, RakNet.ConnectionLost);
      assert Classify(t, t.value(RakNet.ConnectionLost)) == Notify(Closed(reason));
    }
  }

  /** A packet pointer the library may pass: null, or a packet holding its bits. */
  predicate Deliverable(p: RakNet.Packet?) {
    p != null ==> p.WellFormed()
  }

  /** The handled flag and the game-thread tasks queued for one packet. */
  datatype PacketResult = PacketResult(handled: bool, queued: seq<Notification>)

  /** `OnIncomingPacket` as a function of the packet. */
  function HandlePacket(t: RakNet.MessageTable, p: RakNet.Packet?): (r: PacketResult)
    requires Deliverable(p)
    ensures |r.queued| <= 1
    ensures r.queued != [] ==> r.handled
    ensures (p == null || p.bitSize == 0) ==> r == PacketResult(false, [])
    ensures forall n :: n in r.queued ==> p != null && n.host == p.host && n.port == p.port && n.guid == p.guid
  {
    if p == null || p.bitSize <= 0 then
      PacketResult(false, [])
    else
      var messageType := p.data[0];
      match Classify(t, messageType)
      case Notify(kind) => PacketResult(true, [Notification(kind, p.host, p.port, p.guid)])
      case Ignored => PacketResult(true, [])
      case Unknown => PacketResult(false, [])
  }

  /**
   * On a packet whose first byte is a named message, exactly one notification
   * is queued, of that message's kind and carrying the sender's identity.
   */
  lemma HandleNamedPacket(t: RakNet.MessageTable, p: RakNet.Packet, m: RakNet.NamedMessage)
    requires t.Valid() && p.WellFormed() && p.bitSize > 0
    requires p.data[0] == t.value(m)
    ensures HandlePacket(t, p) == PacketResult(true, [Notification(KindOf(m), p.host, p.port, p.guid)])
  {
    ClassifyNamed(t, m);
  }

  /** A valid packet is handled exactly when its first byte is a named message or a custom marker. */
  lemma HandledIff(t: RakNet.MessageTable, p: RakNet.Packet)
    requires t.Valid() && p.WellFormed() && p.bitSize > 0
    ensures HandlePacket(t, p).handled
        <==> (exists m: RakNet.NamedMessage :: t.value(m) == p.data[0])
             || p.data[0] == CustomData(t) || p.data[0] == CustomCompressFlag(t)
    ensures HandlePacket(t, p).queued != [] <==> exists m: RakNet.NamedMessage :: t.value(m) == p.data[0]
  {
    var messageType := p.data[0];
    if exists m: RakNet.NamedMessage :: t.value(m) == messageType {
      var m: RakNet.NamedMessage :| t.value(m) == messageType;
      HandleNamedPacket(t, p, m);
    } else {
      ClassifyUnnamed(t, messageType);
      assert HandlePacket(t, p).queued == [];
      assert HandlePacket(t, p).handled <==> messageType == CustomData(t) || messageType == CustomCompressFlag(t);
    }
  }

  /** The example of a connection accepted by 10.0.0.5:7777 with guid 42. */
  lemma AcceptedConnectionExample(t: RakNet.MessageTable, p: RakNet.Packet)
    requires t.Valid() && p.WellFormed() && p.bitSize > 0
    requires p.data[0] == t.value(RakNet.ConnectionRequestAccepted)
    requires p.host == "10.0.0.5" && p.port == 7777 && p.guid == 42
    ensures HandlePacket(t, p) == PacketResult(true, [Notification(Opened, "10.0.0.5", 7777, 42)])
  {
    HandleNamedPacket(t, p, RakNet.ConnectionRequestAccepted);
  }

  /** Every packet of a sequence is one the library may pass. */
  predicate AllDeliverable(ps: seq<RakNet.Packet?>) {
    forall i :: 0 <= i < |ps| ==> Deliverable(ps[i])
  }

  /**
   * The game-thread queue that the packets `ps`, handled one after another,
   * append: first the tasks of the earlier packets, then those of the last.
   */
  function Deliveries(t: RakNet.MessageTable, ps: seq<RakNet.Packet?>): (q: seq<Notification>)
    requires AllDeliverable(ps)
    ensures |q| <= |ps|
    ensures forall n :: n in q ==> exists i :: 0 <= i < |ps| && ps[i] != null && n.host == ps[i].host
                                            && n.port == ps[i].port && n.guid == ps[i].guid
    decreases |ps|
  {
    if ps == [] then []
    else
      var front := ps[..|ps| - 1];
      assert forall i :: 0 <= i < |front| ==> front[i] == ps[i];
      var q0 := Deliveries(t, front);
      var last := HandlePacket(t, ps[|ps| - 1]).queued;
      assert forall n :: n in q0 + last ==> n in q0 || n in last;
      q0 + last
  }

  /** Handling one batch of packets after another queues their tasks in order. */
  lemma {:induction false} DeliveriesAppend(t: RakNet.MessageTable, ps: seq<RakNet.Packet?>,
                                            qs: seq<RakNet.Packet?>)
    requires AllDeliverable(ps) && AllDeliverable(qs)
    ensures AllDeliverable(ps + qs)
    ensures Deliveries(t, ps + qs) == Deliveries(t, ps) + Deliveries(t, qs)
    decreases |qs|
  {
    if qs == [] {
      assert ps + qs == ps;
    } else {
      var front := qs[..|qs| - 1];
      DeliveriesAppend(t, ps, front);
      assert (ps + qs)[..|ps + qs| - 1] == ps + front;
    }
  }

  /** The number of packets of `ps` whose first byte is a named message. */
  function CountNamed(t: RakNet.MessageTable, ps: seq<RakNet.Packet?>): (n: nat)
    requires AllDeliverable(ps)
    ensures n <= |ps|
    decreases |ps|
  {
    if ps == [] then 0
    else
      var p := ps[|ps| - 1];
      var named := p != null && p.bitSize > 0 && exists m: RakNet.NamedMessage :: t.value(m) == p.data[0];
      CountNamed(t, ps[..|ps| - 1]) + if named then 1 else 0
  }

  /** Exactly one notification is queued per packet that carries a named message. */
  lemma {:induction false} DeliveriesCount(t: RakNet.MessageTable, ps: seq<RakNet.Packet?>)
    requires t.Valid() && AllDeliverable(ps)
    ensures |Deliveries(t, ps)| == CountNamed(t, ps)
    decreases |ps|
  {
    if ps != [] {
      var p := ps[|ps| - 1];
      DeliveriesCount(t, ps[..|ps| - 1]);
      if p != null && p.bitSize > 0 {
        HandledIff(t, p);
      }
    }
  }

  // ---------------------------------------------------------------------------
  // The client object

  class URakNetUDPClient {
    /** `UDPConnection`: the owned peer, null when creation failed or after teardown. */
    var connection: RakNet.Peer?
    var netThreadPriority: RakNet.Int32
    var shutdownDelayMS: RakNet.Int32
    var defaultPriority: UDPPacketPriority
    var defaultReliability: UDPPacketReliability
    /** The notifications scheduled onto the game thread, oldest first. */
    var gameThreadTasks: seq<Notification>

    /**
     * `instance` is what `RakPeerInterface::GetInstance` returned; the client
     * registers itself as the packet handler of a non-null peer.
     */
    constructor (instance: RakNet.Peer?)
      requires instance != null ==> !instance.active && !instance.handlerAttached && instance.calls == []
      modifies instance
      ensures connection == instance
      ensures instance != null ==>
        && instance.calls == old(instance.calls) + [RakNet.SetIncomingPacketEventHandler(true)]
        && instance.handlerAttached && instance.active == old(instance.active)
      ensures netThreadPriority == 0 && shutdownDelayMS == DefaultShutdownDelayMS
      ensures defaultPriority == ImmediatePriority && defaultReliability == ReliableOrdered
      ensures gameThreadTasks == []
    {
      connection := instance;
      netThreadPriority := 0;
      shutdownDelayMS := DefaultShutdownDelayMS;
      defaultPriority := ImmediatePriority;
      defaultReliability := ReliableOrdered;
      gameThreadTasks := [];
      new;
      if instance != null {
        instance.SetIncomingPacketEventHandler(true);
      }
    }

    /**
     * `Connect(Host, Port)`; `startupReply` and `attemptReply` are the
     * library's answers to the startup and to the attempt.
     */
    method Connect(host: string, port: RakNet.Int32, startupReply: RakNet.StartupResult,
                   attemptReply: RakNet.ConnectionAttemptResult)
      returns (r: UDPConnectionAttemptResult)
      modifies connection
      ensures connection == null ==> r == InvalidInterfaceInstance
      ensures connection != null ==>
        var o := ConnectOutcome(true, old(connection.active), netThreadPriority, host, port,
                                startupReply, attemptReply);
        && r == o.result
        && connection.calls == old(connection.calls) + o.calls
        && connection.active == (old(connection.active) || StartupSucceeded(startupReply))
        && connection.handlerAttached == old(connection.handlerAttached)
    {
      if connection != null {
        if !connection.active {
          var result := connection.Startup(1, 1, netThreadPriority, startupReply);
          if !StartupSucceeded(result) {
            return ConnectionStartupFailed;
          }
          connection.SetOccasionalPing(true);
          connection.SetUnreliableTimeout(UnreliableTimeoutMS);
        }
        var attempt := connection.Connect(host, RakNet.ToUInt16(port), 0, attemptReply);
        r := TranslateAttempt(attempt);
      } else {
        r := InvalidInterfaceInstance;
      }
    }

    /** The send path with explicit options: a stub that accepts nothing. */
    function SendWithOption(message: seq<RakNet.Byte>, priority: UDPPacketPriority,
                            reliability: UDPPacketReliability): (sent: int)
      ensures 0 <= sent <= |message|
      ensures sent == 0
    {
      0
    }

    /** Sends with the configured default priority and reliability. */
    function Send(message: seq<RakNet.Byte>): (sent: int)
      reads this
      ensures 0 <= sent <= |message|
      ensures sent == SendWithOption(message, defaultPriority, defaultReliability)
    {
      SendWithOption(message, defaultPriority, defaultReliability)
    }

    /** The peer exists and reports itself started. */
    function IsActive(): (b: bool)
      reads this, connection
      ensures b ==> connection != null
      ensures connection == null ==> !b
      ensures b == (connection != null && connection.active)
    {
      if connection != null then connection.active else false
    }

    /**
     * Teardown: a non-null peer is shut down with the configured linger, loses
     * its handler and is destroyed; the handle is null afterwards.
     */
    method BeginDestroy()
      modifies this, connection
      ensures connection == null && !IsActive()
      ensures old(connection) != null ==>
        && old(connection).calls == old(connection.calls)
             + [RakNet.Shutdown(RakNet.ToUInt32(shutdownDelayMS)),
                RakNet.SetIncomingPacketEventHandler(false),
                RakNet.DestroyInstance]
        && !old(connection).active && !old(connection).handlerAttached
      ensures netThreadPriority == old(netThreadPriority) && shutdownDelayMS == old(shutdownDelayMS)
      ensures defaultPriority == old(defaultPriority) && defaultReliability == old(defaultReliability)
      ensures gameThreadTasks == old(gameThreadTasks)
    {
      if connection != null {
        connection.Shutdown(RakNet.ToUInt32(shutdownDelayMS));
        connection.SetIncomingPacketEventHandler(false);
        RakNet.Peer.DestroyInstance(connection);
      }
      connection := null;
    }

    /**
     * The packet handler, run by the library for each packet `packet` (null
     * allowed); `t` holds the library's message identifiers.  Notifications
     * are queued for the game thread rather than broadcast here.
     */
    method OnIncomingPacket(t: RakNet.MessageTable, packet: RakNet.Packet?) returns (handled: bool)
      requires Deliverable(packet)
      modifies this`gameThreadTasks
      ensures handled == HandlePacket(t, packet).handled
      ensures gameThreadTasks == old(gameThreadTasks) + HandlePacket(t, packet).queued
    {
      if packet == null || packet.bitSize <= 0 {
        return false;
      }
      var messageType := packet.data[0];
      handled := true;
      match Classify(t, messageType)
      case Notify(kind) =>
        gameThreadTasks := gameThreadTasks + [Notification(kind, packet.host, packet.port, packet.guid)];
      case Ignored =>
      case Unknown =>
        handled := false;
    }
  }

  /**
   * The transport hands the client `p` and then `q`: the game-thread queue
   * grows by the tasks of both, in that order.
   */
  method HandleInTurn(client: URakNetUDPClient, t: RakNet.MessageTable, p: RakNet.Packet?, q: RakNet.Packet?)
    returns (handledP: bool, handledQ: bool)
    requires Deliverable(p) && Deliverable(q)
    modifies client
    ensures handledP == HandlePacket(t, p).handled && handledQ == HandlePacket(t, q).handled
    ensures client.gameThreadTasks == old(client.gameThreadTasks) + Deliveries(t, [p, q])
    ensures client.connection == old(client.connection)
  {
    handledP := client.OnIncomingPacket(t, p);
    handledQ := client.OnIncomingPacket(t, q);
    assert [p, q][..1] == [p];
    assert [p][..0] == [];
  }

  /**
   * A client's life: a connection opened, the client torn down; afterwards it
   * is inactive and refuses to connect without touching the library.
   */
  method TeardownThenConnect(t: RakNet.MessageTable, p: RakNet.Packet)
    requires t.Valid() && p.WellFormed() && p.bitSize > 0
    requires p.data[0] == t.value(RakNet.ConnectionRequestAccepted)
  {
    var peer := new RakNet.Peer.GetInstance();
    var client := new URakNetUDPClient(peer);
    var r := client.Connect("10.0.0.5", 7777, RakNet.RaknetStarted, RakNet.ConnectionAttemptStarted);
    assert r == ConnectionAttemptStarted && client.IsActive();
    HandleNamedPacket(t, p, RakNet.ConnectionRequestAccepted);
    var handled := client.OnIncomingPacket(t, p);
    assert handled && client.gameThreadTasks == [Notification(Opened, p.host, p.port, p.guid)];
    client.BeginDestroy();
    assert !client.IsActive();
    r := client.Connect("10.0.0.5", 7777, RakNet.RaknetStarted, RakNet.ConnectionAttemptStarted);
    assert r == InvalidInterfaceInstance;
  }
}
