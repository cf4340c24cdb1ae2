/**
 The audit event model (`src/audit/event.rs`). An entry has a time, perhaps a
 target and a client, and an event. The events that other modules build or
 inspect have a constructor; the rest are `Other`, which carries the stable kind
 and the JSON of its fields.
 */
module Event {
  import opened Prelude

  /** A UTC instant in nanoseconds. */
  type Time = int

  const MICROSECOND: int := 1_000
  const SECOND: int := 1_000_000_000

  datatype UserIdentity =
    | Anonymous
    | UserName(name: string)
    | Certificate(subject: string, thumbprint: string)
    | IssuedToken
  {
    /** How a user is named in the column of that name. */
    function Label(): string {
      match this
      case Anonymous => "anonymous"
      case UserName(name) => name
      case Certificate(subject, _) => subject
      case IssuedToken => "issued-token"
    }
  }

  /** Who is connected, as far as it is known. */
  datatype ClientContext = ClientContext(
    remoteAddr: string,
    applicationUri: Option<string>,
    applicationName: Option<string>,
    certificateThumbprint: Option<string>,
    user: Option<UserIdentity>,
    sessionId: Option<string>)

  /** A recorded value: the name of its OPC UA type, and JSON. */
  datatype AuditValue = AuditValue(dataType: string, json: string)

  /** What an intent says of a write, besides its node. */
  datatype IntentDetail = IntentDetail(attribute: string, newValue: AuditValue)

  datatype AuditEvent =
    | RetentionPruned(deleted: nat, lastSeq: int, lastHash: string)
    | EventsLost(count: nat)
    | TrailTruncated(expectedSeq: int, foundSeq: int)
    | ExportGap(destination: string, afterSeq: int, nextSeq: int, reason: string)
    | ChangeIntent(requestHandle: nat, service: string, nodeIds: seq<string>, details: seq<IntentDetail>)
    | Write(requestHandle: nat, nodeId: string, displayName: Option<string>, attribute: string,
            indexRange: Option<string>, oldValue: Option<AuditValue>, newValue: AuditValue,
            writtenStatus: Option<string>, sourceTimestamp: Option<string>,
            serverTimestamp: Option<string>, status: string)
    | Other(otherKind: string, node: Option<string>, json: string)
  {
    /** What kind of event it is, in a name that does not change. */
    function Kind(): string {
      match this
      case RetentionPruned(_, _, _) => "retention_pruned"
      case EventsLost(_) => "events_lost"
      case TrailTruncated(_, _) => "trail_truncated"
      case ExportGap(_, _, _, _) => "export_gap"
      case ChangeIntent(_, _, _, _) => "change_intent"
      case Write(_, _, _, _, _, _, _, _, _, _, _) => "write"
      case Other(kind, _, _) => kind
    }

    /** The node that was written, or that the event otherwise concerns. */
    function NodeOf(): Option<string> {
      match this
      case Write(_, nodeId, _, _, _, _, _, _, _, _, _) => Some(nodeId)
      case Other(_, node, _) => node
      case _ => None
    }
  }

  datatype AuditEntry = AuditEntry(
    ts: Time,
    target: Option<string>,
    client: Option<ClientContext>,
    event: AuditEvent)

  /** An entry of the gateway itself, without target and client. */
  function GatewayEntry(now: Time, event: AuditEvent): AuditEntry {
    AuditEntry(now, None, None, event)
  }
}
