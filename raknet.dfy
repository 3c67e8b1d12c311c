/**
 * The part of the RakNet library that the Unreal facade talks to, reduced to
 * what the facade can observe: the result codes of Startup and Connect, the
 * message identifiers it switches on, the packet envelope it receives and a
 * peer that records every call made on it.  The library's own behaviour
 * (sockets, handshake, reliability) is not modelled: its answers to Startup
 * and Connect are supplied by the caller as replies.
 */
module RakNet {

  /** One byte of packet data (`unsigned char`). */
  type Byte = b: int | 0 <= b < 0x100

  /** The library's `unsigned short` (ports). */
  type UInt16 = n: int | 0 <= n < 0x1_0000

  /** The library's `unsigned int` (millisecond durations, the 32-bit guid view). */
  type UInt32 = n: int | 0 <= n < 0x1_0000_0000

  /** Unreal's `int32`. */
  type Int32 = n: int | -0x8000_0000 <= n < 0x8000_0000

  /** C++ conversion of an integer to `unsigned short`: reduction modulo 2^16. */
  function ToUInt16(x: int): (r: UInt16)
    ensures (r - x) % 0x1_0000 == 0
    ensures 0 <= x < 0x1_0000 ==> r == x
  {
    x % 0x1_0000
  }

  /** C++ conversion of an integer to `unsigned int`: reduction modulo 2^32. */
  function ToUInt32(x: int): (r: UInt32)
    ensures (r - x) % 0x1_0000_0000 == 0
    ensures 0 <= x < 0x1_0000_0000 ==> r == x
  {
    x % 0x1_0000_0000
  }

  /** `StartupResult`: the two codes the facade accepts, and every other code. */
  datatype StartupResult =
    | RaknetStarted
    | RaknetAlreadyStarted
    | OtherStartupResult(code: int)

  /** `ConnectionAttemptResult`: the six codes the facade names, and every other code. */
  datatype ConnectionAttemptResult =
    | ConnectionAttemptStarted
    | InvalidParameter
    | CannotResolveDomainName
    | AlreadyConnectedToEndpoint
    | ConnectionAttemptAlreadyInProgress
    | SecurityInitializationFailed
    | OtherAttemptResult(code: int)

  /** The thirteen library message identifiers the facade recognises by name. */
  datatype NamedMessage =
    | DisconnectionNotification
    | ConnectionLost
    | ConnectionRequestAccepted
    | ConnectionAttemptFailed
    | RemoteSystemRequiresPublicKey
    | OurSystemRequiresSecurity
    | PublicKeyMismatch
    | AlreadyConnected
    | NoFreeIncomingConnections
    | ConnectionBanned
    | InvalidPassword
    | IncompatibleProtocolVersion
    | IpRecentlyConnected

  /**
   * The numeric values of the message identifiers, left abstract: `value` gives
   * the byte of each named identifier and `userPacketEnum` is
   * `ID_USER_PACKET_ENUM`, the first identifier left to applications.
   */
  datatype MessageTable = MessageTable(value: NamedMessage -> Byte, userPacketEnum: Byte)
  {
    /**
     * What the library's enumeration guarantees: the named identifiers are
     * pairwise distinct, and all of them precede `ID_USER_PACKET_ENUM`.
     */
    predicate Valid() {
      && (forall m: NamedMessage, n: NamedMessage :: value(m) == value(n) ==> m == n)
      && (forall m: NamedMessage :: value(m) < userPacketEnum)
    }
  }

  /**
   * `RakNet::Packet` as the facade reads it.  `host` is the text of the
   * sender's address without the port, `guid` the 32-bit view of the sender's
   * guid; both conversions belong to the library and are taken as given.
   */
  class Packet {
    const host: string
    const port: UInt16
    const guid: UInt32
    const bitSize: nat
    const data: seq<Byte>

    /** The library's guarantee that `data` holds the `bitSize` bits it announces. */
    predicate WellFormed() {
      bitSize <= 8 * |data|
    }

    constructor (host: string, port: UInt16, guid: UInt32, bitSize: nat, data: seq<Byte>)
      ensures this.host == host && this.port == port && this.guid == guid
      ensures this.bitSize == bitSize && this.data == data
    {
      this.host := host;
      this.port := port;
      this.guid := guid;
      this.bitSize := bitSize;
      this.data := data;
    }
  }

  /** One call made on a peer, with the arguments that the facade chooses. */
  datatype PeerCall =
    | Startup(maxConnections: int, socketDescriptorCount: int, threadPriority: int)
    | SetOccasionalPing(doPing: bool)
    | SetUnreliableTimeout(timeoutMS: UInt32)
    | Connect(host: string, remotePort: UInt16, passwordDataLength: int)
    | Shutdown(blockDurationMS: UInt32)
    | SetIncomingPacketEventHandler(attached: bool)
    | DestroyInstance

  /**
   * `RakPeerInterface`.  `active` is what `IsActive()` reports,
   * `handlerAttached` whether an incoming-packet handler is registered, and
   * `calls` every call made on the peer, in order.
   */
  class Peer {
    var active: bool
    var handlerAttached: bool
    var calls: seq<PeerCall>

    /** `RakPeerInterface::GetInstance`: a fresh, inactive peer. */
    constructor GetInstance()
      ensures !active && !handlerAttached && calls == []
    {
      active := false;
      handlerAttached := false;
      calls := [];
    }

    /** The peer is running after a startup that it reports as started. */
    method Startup(maxConnections: int, socketDescriptorCount: int, threadPriority: int,
                   reply: StartupResult)
      returns (r: StartupResult)
      modifies this
      ensures r == reply
      ensures calls == old(calls) + [PeerCall.Startup(maxConnections, socketDescriptorCount, threadPriority)]
      ensures active == (old(active) || reply == RaknetStarted || reply == RaknetAlreadyStarted)
      ensures handlerAttached == old(handlerAttached)
    {
      r := reply;
      calls := calls + [PeerCall.Startup(maxConnections, socketDescriptorCount, threadPriority)];
      active := active || reply == RaknetStarted || reply == RaknetAlreadyStarted;
    }

    method SetOccasionalPing(doPing: bool)
      modifies this
      ensures calls == old(calls) + [PeerCall.SetOccasionalPing(doPing)]
      ensures active == old(active) && handlerAttached == old(handlerAttached)
    {
      calls := calls + [PeerCall.SetOccasionalPing(doPing)];
    }

    method SetUnreliableTimeout(timeoutMS: UInt32)
      modifies this
      ensures calls == old(calls) + [PeerCall.SetUnreliableTimeout(timeoutMS)]
      ensures active == old(active) && handlerAttached == old(handlerAttached)
    {
      calls := calls + [PeerCall.SetUnreliableTimeout(timeoutMS)];
    }

    /** A connection attempt; its outcome is the library's `reply`. */
    method Connect(host: string, remotePort: UInt16, passwordDataLength: int,
                   reply: ConnectionAttemptResult)
      returns (r: ConnectionAttemptResult)
      modifies this
      ensures r == reply
      ensures calls == old(calls) + [PeerCall.Connect(host, remotePort, passwordDataLength)]
      ensures active == old(active) && handlerAttached == old(handlerAttached)
    {
      r := reply;
      calls := calls + [PeerCall.Connect(host, remotePort, passwordDataLength)];
    }

    /** Stops the peer after lingering `blockDurationMS` milliseconds. */
    method Shutdown(blockDurationMS: UInt32)
      modifies this
      ensures calls == old(calls) + [PeerCall.Shutdown(blockDurationMS)]
      ensures !active && handlerAttached == old(handlerAttached)
    {
      calls := calls + [PeerCall.Shutdown(blockDurationMS)];
      active := false;
    }

    method SetIncomingPacketEventHandler(attached: bool)
      modifies this
      ensures calls == old(calls) + [PeerCall.SetIncomingPacketEventHandler(attached)]
      ensures handlerAttached == attached && active == old(active)
    {
      calls := calls + [PeerCall.SetIncomingPacketEventHandler(attached)];
      handlerAttached := attached;
    }

    /** `RakPeerInterface::DestroyInstance`: the last call a peer receives. */
    static method DestroyInstance(peer: Peer)
      modifies peer
      ensures peer.calls == old(peer.calls) + [PeerCall.DestroyInstance]
      ensures peer.active == old(peer.active) && peer.handlerAttached == old(peer.handlerAttached)
    {
      peer.calls := peer.calls + [PeerCall.DestroyInstance];
    }
  }
}
