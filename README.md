# RakNet UDP client facade, modelled in Dafny

`URakNetUDPClient` is an Unreal Engine object that owns one RakNet peer. It
exposes `Connect`, `Send`, `SendWithOption` and `IsActive` to scripts. It
translates the peer's incoming packets into three notifications: connection
opened, connection closed and connection attempt failed. This project models
what the facade decides by itself:

- how `Connect` proceeds on a null, inactive or active peer, and how it
  translates the library's connection-attempt code;
- how `OnIncomingPacket` checks a packet, classifies its first byte and queues
  at most one notification for the game thread;
- how the object builds and tears down its peer handle.

Files:

- `raknet.dfy`, module `RakNet`: the library as the facade sees it. It holds
  the startup and connection-attempt codes, the message identifiers, the
  `Packet` envelope and a `Peer` class. The peer records every call made on it
  in `calls`. The library's replies to `Startup` and `Connect` are parameters,
  so every possible reply is covered.
- `udp_client_types.dfy`, module `UDPClientTypes`: the enumerations of
  `RakNetUDPClient.h` and the `Notification` record.
- `raknet_udp_client.dfy`, module `RakNetUDPClient`: `RakNetUDPClient.cpp`.
  The decisions are functions: `ConnectOutcome`, `TranslateAttempt`,
  `Classify` and `HandlePacket`. Lemmas about them state the properties. The
  class `URakNetUDPClient` has methods proved to follow those functions.
- `wrappers.dfy`: an `Option` type.

Modelling choices:

- Message identifiers are abstract. A `MessageTable` gives a byte to each of
  the thirteen named library messages, plus `ID_USER_PACKET_ENUM`. Its
  `Valid()` says what the library's enumeration guarantees: the named
  identifiers are distinct and all come before `ID_USER_PACKET_ENUM`. The two
  custom identifiers are `ID_USER_PACKET_ENUM + 1` and `+ 2`. The lemmas hold
  for every such table.
- Each task the handler schedules with `AsyncTask` onto the game thread
  becomes one `Notification` appended to the FIFO sequence `gameThreadTasks`.
  `Deliveries` is the queue that a sequence of packets, handled one after
  another, produces.
- Integer widths are explicit. The `int32` port reaches RakNet's `Connect` as
  an `unsigned short` (`ToUInt16`, reduction modulo 2^16). The `int32` shutdown
  delay reaches `Shutdown` as an `unsigned int` (`ToUInt32`). The RakNet header
  that declares these parameter types is not part of this model.
- The peer's own state is reduced to what the facade observes. A startup that
  reports started (or already started) makes the peer active. `Shutdown` makes
  it inactive.
- The facade's `DefaultReliablitity` is spelled `defaultReliability` here.

Four facts about the code that the model follows:

- The handler reports ten attempt-failed reasons; `SecurityPublicKeyMismatch`
  is never sent.
- An already-active peer is not sent the ping and timeout configuration again.
- A packet is rejected when its `bitSize` is zero or less; its byte length is
  not checked.
- The client owns its peer alone: the handle comes from `GetInstance`, is
  private, and is written only by the constructor and `BeginDestroy`. The
  constructor therefore takes a fresh peer (inactive, no handler, no calls).

## Model

| member | source | states |
|---|---|---|
| `RakNet.ToUInt16` | Plugins/RakNet/Source/RakNet/Private/RakNetUDPClient.cpp:60 | the port handed to the library is congruent to the given port modulo 2^16, and is unchanged when it is already in range |
| `RakNet.ToUInt32` | Plugins/RakNet/Source/RakNet/Private/RakNetUDPClient.cpp:122 | the linger handed to `Shutdown` is congruent to the configured delay modulo 2^32, and is unchanged when it is in range |
| `RakNetUDPClient.TranslateAttempt` | Plugins/RakNet/Source/RakNet/Private/RakNetUDPClient.cpp:61-90 | the translation never yields `None`, `ConnectionStartupFailed` or `InvalidInterfaceInstance`; it yields `UnknownError` exactly for the codes the switch does not name |
| `RakNetUDPClient.TranslateAttemptInverse` | Plugins/RakNet/Source/RakNet/Private/RakNetUDPClient.cpp:61-86 | the six named library codes and the six same-named facade results correspond one to one |
| `RakNetUDPClient.ConnectOutcome` | Plugins/RakNet/Source/RakNet/Private/RakNetUDPClient.cpp:32-99 | `Connect` never returns `None`; it returns `InvalidInterfaceInstance` exactly when the handle is null, and `ConnectionStartupFailed` exactly when an inactive peer's startup reports neither started nor already started |
| `RakNetUDPClient.ConnectWithoutPeer` | Plugins/RakNet/Source/RakNet/Private/RakNetUDPClient.cpp:92-98 | with a null handle no library call is made and the result is `InvalidInterfaceInstance` |
| `RakNetUDPClient.ConnectStartupFailure` | Plugins/RakNet/Source/RakNet/Private/RakNetUDPClient.cpp:38-52 | after a failed startup, the startup (one connection, one socket, the configured thread priority) is the only call: no ping, no timeout, no attempt |
| `RakNetUDPClient.ConnectCallSequence` | Plugins/RakNet/Source/RakNet/Private/RakNetUDPClient.cpp:38-60 | a successful startup is followed by occasional ping on, a 1000 ms unreliable timeout and the attempt without a password; an active peer gets the attempt alone; the result is the translated code |
| `RakNetUDPClient.ConnectIssuedIff` | Plugins/RakNet/Source/RakNet/Private/RakNetUDPClient.cpp:36-60 | a connection attempt is issued if and only if the handle is non-null and the peer is active or its startup succeeded |
| `RakNetUDPClient.ConnectConfiguresIff` | Plugins/RakNet/Source/RakNet/Private/RakNetUDPClient.cpp:38-55 | ping and timeout are configured if and only if an inactive peer started successfully; startup is called if and only if the peer is inactive |
| `RakNetUDPClient.Classify` | Plugins/RakNet/Source/RakNet/Private/RakNetUDPClient.cpp:149-275 | no message type ever yields a `ClosedByUser` or `SecurityPublicKeyMismatch` notification |
| `RakNetUDPClient.KindOfInverse` | Plugins/RakNet/Source/RakNet/Private/RakNetUDPClient.cpp:151-261 | the thirteen named messages correspond one to one to the notifications the facade sends; only `ClosedByUser` and `SecurityPublicKeyMismatch` have no message |
| `RakNetUDPClient.ClassifyNamed` | Plugins/RakNet/Source/RakNet/Private/RakNetUDPClient.cpp:151-261 | for distinct identifiers, each named message's byte yields exactly its own notification |
| `RakNetUDPClient.ClassifyUnnamed` | Plugins/RakNet/Source/RakNet/Private/RakNetUDPClient.cpp:263-274 | a byte that is no named message is handled silently if it is a custom marker, and is unknown otherwise |
| `RakNetUDPClient.ClassifyCustom` | Plugins/RakNet/Source/RakNet/Private/RakNetUDPClient.cpp:9-14 | the two custom identifiers after `ID_USER_PACKET_ENUM` never collide with a library message and are handled without a notification |
| `RakNetUDPClient.ClassifyNotifyIff` | Plugins/RakNet/Source/RakNet/Private/RakNetUDPClient.cpp:149-262 | a byte yields notification `k` if and only if it is the identifier of `k`'s library message |
| `RakNetUDPClient.FailureReasonsReported` | Plugins/RakNet/Source/RakNet/Private/RakNetUDPClient.cpp:175-261 | an attempt-failed reason is reported for some byte if and only if it is not `SecurityPublicKeyMismatch`: ten reasons in all |
| `RakNetUDPClient.ClosedReasonsReported` | Plugins/RakNet/Source/RakNet/Private/RakNetUDPClient.cpp:151-165 | a closed reason is reported for some byte if and only if it is `ClosedByRemote` or `ConnectionLost` |
| `RakNetUDPClient.HandlePacket` | Plugins/RakNet/Source/RakNet/Private/RakNetUDPClient.cpp:135-278 | a null or empty packet is unhandled and queues nothing; at most one notification is queued, only when handled, and it carries the packet's host, port and guid |
| `RakNetUDPClient.HandleNamedPacket` | Plugins/RakNet/Source/RakNet/Private/RakNetUDPClient.cpp:143-261 | a valid packet whose first byte is a named message is handled and queues exactly that message's notification with the sender's identity |
| `RakNetUDPClient.HandledIff` | Plugins/RakNet/Source/RakNet/Private/RakNetUDPClient.cpp:146-277 | a valid packet is handled if and only if its first byte is a named message or a custom marker, and queues a notification if and only if it is a named message |
| `RakNetUDPClient.AcceptedConnectionExample` | Plugins/RakNet/Source/RakNet/Private/RakNetUDPClient.cpp:167-173 | an accepted connection from 10.0.0.5:7777 with guid 42 queues one connection-opened notification with those values |
| `RakNetUDPClient.Deliveries` | Plugins/RakNet/Source/RakNet/Private/RakNetUDPClient.cpp:149-275 | a sequence of packets queues no more notifications than packets, each carrying the identity of one of the packets |
| `RakNetUDPClient.DeliveriesAppend` | Plugins/RakNet/Source/RakNet/Private/RakNetUDPClient.cpp:149-275 | the game-thread queue is FIFO across packets: two batches handled in turn queue the first batch's tasks, then the second's |
| `RakNetUDPClient.DeliveriesCount` | Plugins/RakNet/Source/RakNet/Private/RakNetUDPClient.cpp:149-275 | exactly one notification is queued per valid packet that carries a named message, and none for any other packet |
| `RakNetUDPClient.HandleInTurn` | Plugins/RakNet/Source/RakNet/Private/RakNetUDPClient.cpp:153-156 | two packets handed to the handler in turn grow the game-thread queue by exactly `Deliveries` of the two, first packet's task first |
| `RakNetUDPClient.URakNetUDPClient.constructor` | Plugins/RakNet/Source/RakNet/Private/RakNetUDPClient.cpp:16-30 | given a fresh peer from `GetInstance` (or null), the handler is registered only on a non-null peer; thread priority 0, shutdown delay 500 ms, immediate priority, reliable-ordered, empty task queue |
| `RakNetUDPClient.URakNetUDPClient.Connect` | Plugins/RakNet/Source/RakNet/Private/RakNetUDPClient.cpp:32-99 | returns `InvalidInterfaceInstance` on a null handle; otherwise makes exactly the calls of `ConnectOutcome` on the peer, returns its result, and leaves the peer active if and only if it was active or started |
| `RakNetUDPClient.URakNetUDPClient.SendWithOption` | Plugins/RakNet/Source/RakNet/Private/RakNetUDPClient.cpp:101-104 | reports zero bytes accepted, whatever the message and options |
| `RakNetUDPClient.URakNetUDPClient.Send` | Plugins/RakNet/Source/RakNet/Private/RakNetUDPClient.cpp:106-109 | returns what `SendWithOption` returns for the default priority and reliability, never more than the message length |
| `RakNetUDPClient.URakNetUDPClient.IsActive` | Plugins/RakNet/Source/RakNet/Private/RakNetUDPClient.cpp:111-114 | true if and only if the handle is non-null and the peer reports itself active |
| `RakNetUDPClient.URakNetUDPClient.BeginDestroy` | Plugins/RakNet/Source/RakNet/Private/RakNetUDPClient.cpp:116-133 | a non-null peer is shut down with the configured linger, loses its handler and is destroyed, in that order; the handle is null and the client inactive afterwards; nothing else changes |
| `RakNetUDPClient.URakNetUDPClient.OnIncomingPacket` | Plugins/RakNet/Source/RakNet/Private/RakNetUDPClient.cpp:135-278 | returns `HandlePacket`'s flag and appends exactly `HandlePacket`'s notifications to the game-thread queue |

## Left out

- The RakNet transport: startup, the connection handshake, reliability, ordering, priority scheduling and shutdown internals. Its replies to `Startup` and `Connect` are parameters.
- Threading: the worker thread that runs the handler, `AsyncTask` and the game thread's delegate `Broadcast`. Scheduling is an append to a FIFO sequence; listener invocation is not modelled.
- Logging (`UE_LOG`) and `PacketLogger::BaseIDTOString`: diagnostics with no effect on results.
- Address and string conversions (`TCHAR_TO_ANSI`, `ANSI_TO_TCHAR`, `SystemAddress::ToString`, `RakNetGUID::ToUint32`): the packet's host, port and 32-bit guid are opaque fields.
- `IRakNet.h` and `RakNet.h`: module-manager access and module lifecycle, with no logic.
- The transport policies described by the priority and reliability enumerations: the facade neither enforces nor forwards them.
- The socket descriptor passed to `Startup` is the library's default and is not modelled; only the counts (one connection, one descriptor) and the thread priority are recorded.
- `URakNetUDPClient.SendWithOption`: the stub always reports zero bytes sent, and the model keeps that; a real send path is not modelled.
- `Super::BeginDestroy()`: the engine's own teardown, outside the facade.
