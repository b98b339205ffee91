/** Control frames and the body of a close (FrameControl.go; validateClosePayload in ListenerRouter.go). */
module FrameControl {
  import opened Bytes
  import opened Frames
  import opened Sending

  type uint16 = n: nat | n < 0x1_0000

  /** A body that is there: a status code and whatever follows it. No body is None. */
  datatype ClosePayload = ClosePayload(statusCode: uint16, reason: seq<byte>)

  const CLOSE_PROTOCOL_ERROR: uint16 := 1002

  datatype CloseError = NotCloseFrameOpcode | ClosePayloadTooShort

  datatype CloseBody = Body(payload: Option<ClosePayload>) | BadBody(error: CloseError)

  datatype NewFrameResult = Built(frame: Frame) | NotBuilt(error: SendError)

  function NewControlFrame(opcode: byte, payload: seq<byte>): NewFrameResult {
    if !IsControl(opcode) then NotBuilt(NotControlFrameOpcode)
    else if |payload| > MAX_CONTROL_PAYLOAD then NotBuilt(ControlFramePayloadTooLong)
    else Built(NewFrame(opcode, true, payload))
  }

  function PayloadBytes(p: Option<ClosePayload>): seq<byte> {
    match p
    case None => []
    case Some(body) => BigEndian(body.statusCode, 2) + body.reason
  }

  function StatusCodeOf(payload: seq<byte>): uint16
    requires |payload| >= 2
  {
    FromBigEndianRoundTrip(payload[..2]);
    Widths();
    FromBigEndian(payload[..2])
  }

  function GetClosePayload(f: Frame): CloseBody {
    if f.opcode != OPCODE_CLOSE then BadBody(NotCloseFrameOpcode)
    else if |f.payload| == 0 then Body(None)
    else if |f.payload| == 1 then BadBody(ClosePayloadTooShort)
    else Body(Some(ClosePayload(StatusCodeOf(f.payload), f.payload[2..])))
  }

  /** Whatever body a close is built with, decoding it gives that body back. */
  lemma CloseBodyRoundTrip(p: Option<ClosePayload>, f: Frame)
    requires f.opcode == OPCODE_CLOSE && f.payload == PayloadBytes(p)
    ensures GetClosePayload(f) == Body(p)
  {
    if p.Some? {
      Widths();
      BigEndianRoundTrip(p.value.statusCode, 2);
      assert f.payload[..2] == BigEndian(p.value.statusCode, 2);
      assert f.payload[2..] == p.value.reason;
    }
  }

  /** Whatever bytes a close arrives with, it can be echoed byte for byte unless it carries half a status code. */
  lemma EchoIsExact(f: Frame)
    ensures GetClosePayload(f) == BadBody(NotCloseFrameOpcode) <==> f.opcode != 0x8
    ensures GetClosePayload(f) == BadBody(ClosePayloadTooShort) <==> f.opcode == 0x8 && |f.payload| == 1
    ensures GetClosePayload(f).Body? ==> PayloadBytes(GetClosePayload(f).payload) == f.payload
  {
    if |f.payload| >= 2 {
      FromBigEndianRoundTrip(f.payload[..2]);
      assert f.payload == f.payload[..2] + f.payload[2..];
    }
  }

  /** RFC 6455 section 7.4: the codes that may appear on the wire. */
  predicate ValidStatusCode(code: uint16) {
    if 3000 <= code <= 4999 then true
    else if 1000 <= code <= 1015 then code != 1004 && code != 1005 && code != 1006 && code != 1015
    else false
  }

  datatype CloseFault = NoFault | TooShort | InvalidStatusCode | ReasonNotUTF8

  /** What is wrong with a close body on the wire, if anything. `utf8` says which byte strings are valid UTF-8. */
  function CloseFaultOf(payload: seq<byte>, utf8: seq<byte> -> bool): CloseFault {
    if |payload| == 1 then TooShort
    else if |payload| >= 2 && !ValidStatusCode(StatusCodeOf(payload)) then InvalidStatusCode
    else if |payload| > 2 && !utf8(payload[2..]) then ReasonNotUTF8
    else NoFault
  }

  /**
   A receiver accepts a close exactly when some sender could have built it from a UTF-8 reason and one of the codes that
   RFC 6455 section 7.4 and the registry it set up let on the wire.
   */
  lemma AcceptedIffBuildable(payload: seq<byte>, utf8: seq<byte> -> bool)
    ensures CloseFaultOf(payload, utf8) == NoFault
            <==> exists p: Option<ClosePayload> ::
                   && payload == PayloadBytes(p)
                   && (p.Some? ==>
                         && (1000 <= p.value.statusCode <= 1003 || 1007 <= p.value.statusCode <= 1014
                             || 3000 <= p.value.statusCode <= 4999)
                         && (p.value.reason == [] || utf8(p.value.reason)))
  {
    var f := NewFrame(OPCODE_CLOSE, true, payload);
    if CloseFaultOf(payload, utf8) == NoFault {
      EchoIsExact(f);
      var p := GetClosePayload(f).payload;
      assert payload == PayloadBytes(p);
    }
    forall p: Option<ClosePayload> | payload == PayloadBytes(p) ensures GetClosePayload(f) == Body(p) {
      CloseBodyRoundTrip(p, f);
    }
  }
}
