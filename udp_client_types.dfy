/**
 * The enumerations that the Unreal client exposes to scripts, and the record
 * of one notification scheduled onto the game thread.
 */
module UDPClientTypes {

  /** What `Connect` reports. */
  datatype UDPConnectionAttemptResult =
    | None
    | ConnectionAttemptStarted
    | InvalidParameter
    | CannotResolveDomainName
    | AlreadyConnectedToEndpoint
    | ConnectionAttemptAlreadyInProgress
    | SecurityInitializationFailed
    | ConnectionStartupFailed
    | InvalidInterfaceInstance
    | UnknownError

  datatype UDPPacketPriority =
    | ImmediatePriority
    | HighPriority
    | MediumPriority
    | LowPriority

  datatype UDPPacketReliability =
    | Unreliable
    | UnreliableSequenced
    | Reliable
    | ReliableOrdered
    | ReliableSequenced

  /** Why a connection closed. */
  datatype UDPConnectionLostReason =
    | ClosedByUser
    | ClosedByRemote
    | ConnectionLost

  /** Why a connection attempt failed. */
  datatype UDPConnectionAttemptFailedReason =
    | ConnectionAttemptFailed
    | AlreadyConnected
    | NoFreeIncomingConnections
    | SecurityPublicKeyMismatch
    | ConnectionBanned
    | InvalidPassword
    | IncompatibleProtocol
    | IpRecentlyConnected
    | RemoteSystemRequiresPublicKey
    | OurSystemRequiresSecurity
    | PublicKeyMismatch

  /** Which delegate a notification is broadcast on, with its reason. */
  datatype NotificationKind =
    | Opened
    | Closed(lostReason: UDPConnectionLostReason)
    | AttemptFailed(failedReason: UDPConnectionAttemptFailedReason)

  /**
   * One task queued for the game thread: broadcasting `kind` with the
   * sender's host, port and guid.
   */
  datatype Notification = Notification(kind: NotificationKind, host: string, port: int, guid: int)
}
