/**
  The `AmplitudeID` record carried, base64-encoded, inside a cookie, and
  `json.Unmarshal` into it. JSON parsing itself is not modelled: it is a
  parameter of type `Parser` that says which of the record's members the
  text sets and whether any member had the wrong JSON type.
 */
module Identity {
  import opened Wrappers
  import Base64

  /** One analytics identity; a value with no identity beyond its fields. */
  datatype AmplitudeID = AmplitudeID(
    deviceId: string,
    userId: string,
    optOut: bool,
    sessionId: int,
    lastEventTime: int,
    eventId: int,
    identifyId: int,
    sequenceNumber: int)

  /** Go's zero value `AmplitudeID{}`. */
  const Zero: AmplitudeID := AmplitudeID("", "", false, 0, 0, 0, 0, 0)

  /** The members a JSON object supplies for the record's fields; `None` when absent (or `null`). */
  datatype Members = Members(
    deviceId: Option<string>,
    userId: Option<string>,
    optOut: Option<bool>,
    sessionId: Option<int>,
    lastEventTime: Option<int>,
    eventId: Option<int>,
    identifyId: Option<int>,
    sequenceNumber: Option<int>)

  /**
    What the JSON decoder makes of a byte string: not JSON at all (Go checks
    the whole text before touching the target), or the members it could
    store together with whether some member had a type the field cannot
    hold (Go stores the other members and then reports the type error).
   */
  datatype JsonOutcome = SyntaxError | Parsed(members: Members, typeMismatch: bool)

  type Parser = seq<Base64.byte> -> JsonOutcome

  function Pick<T>(m: Option<T>, old_: T): T
  {
    match m
    case Some(v) => v
    case None => old_
  }

  /** Stores the supplied members into the record; fields with no member keep their value. */
  function Apply(m: Members, into: AmplitudeID): (r: AmplitudeID)
    // a supplied member is stored, an absent one leaves the field as it was
    ensures m.deviceId.Some? ==> r.deviceId == m.deviceId.value
    ensures m.deviceId.None? ==> r.deviceId == into.deviceId
    ensures m.userId.Some? ==> r.userId == m.userId.value
    ensures m.userId.None? ==> r.userId == into.userId
    ensures m.optOut.Some? ==> r.optOut == m.optOut.value
    ensures m.optOut.None? ==> r.optOut == into.optOut
    ensures m.sessionId.Some? ==> r.sessionId == m.sessionId.value
    ensures m.sessionId.None? ==> r.sessionId == into.sessionId
    ensures m.lastEventTime.Some? ==> r.lastEventTime == m.lastEventTime.value
    ensures m.lastEventTime.None? ==> r.lastEventTime == into.lastEventTime
    ensures m.eventId.Some? ==> r.eventId == m.eventId.value
    ensures m.eventId.None? ==> r.eventId == into.eventId
    ensures m.identifyId.Some? ==> r.identifyId == m.identifyId.value
    ensures m.identifyId.None? ==> r.identifyId == into.identifyId
    ensures m.sequenceNumber.Some? ==> r.sequenceNumber == m.sequenceNumber.value
    ensures m.sequenceNumber.None? ==> r.sequenceNumber == into.sequenceNumber
    ensures m == Members(None, None, None, None, None, None, None, None) ==> r == into
  {
    AmplitudeID(
      Pick(m.deviceId, into.deviceId),
      Pick(m.userId, into.userId),
      Pick(m.optOut, into.optOut),
      Pick(m.sessionId, into.sessionId),
      Pick(m.lastEventTime, into.lastEventTime),
      Pick(m.eventId, into.eventId),
      Pick(m.identifyId, into.identifyId),
      Pick(m.sequenceNumber, into.sequenceNumber))
  }

  /** The record after `json.Unmarshal(data, &into)` and whether it returned an error. */
  datatype Unmarshalled = Unmarshalled(id: AmplitudeID, failed: bool)

  /**
    `json.Unmarshal(data, &into)`: a syntax error leaves the record as it was;
    otherwise every supplied member is stored, and a type mismatch is still
    reported as an error.
   */
  function Unmarshal(parse: Parser, data: seq<Base64.byte>, into: AmplitudeID): (r: Unmarshalled)
    ensures !r.failed <==> parse(data).Parsed? && !parse(data).typeMismatch
    ensures parse(data).SyntaxError? ==> r.id == into
  {
    match parse(data)
    case SyntaxError => Unmarshalled(into, true)
    case Parsed(m, bad) => Unmarshalled(Apply(m, into), bad)
  }
}
