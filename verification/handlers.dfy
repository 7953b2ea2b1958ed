/**
 * The per-connection side: the client's message envelope, the dispatch of
 * one incoming frame, and the receive loop of one connection. Decoding the
 * JSON text of a frame is a parameter (`decode`), and relaying a decoded
 * message is an action whose body is not part of this model: it is recorded
 * as a call, never applied to the registry.
 */
module Handlers {
  import opened Wrappers
  import Participants
  import Service

  /** The payload of a client message: the relay forwards it by recipient only. */
  datatype MessagePayload =
    | Offer(sender: string, payload: string)
    | Answer(sender: string, payload: string)
    | Candidate(sender: string, payload: string)
    | Peers(names: seq<string>)

  /** A client message, addressed to one participant of the connection's room. */
  datatype WebSocketMessage = WebSocketMessage(recipient: string, payload: MessagePayload)

  /** The body of a close frame: a 16-bit status code and a reason. */
  datatype CloseFrame = CloseFrame(code: bv16, reason: string)

  /** One frame read from the connection. */
  datatype Frame =
    | Text(text: string)
    | Binary(data: seq<bv8>)
    | Ping(data: seq<bv8>)
    | Pong(data: seq<bv8>)
    | Close(body: Option<CloseFrame>)

  /** One item of the connection's inbound stream: a frame, or a read error. */
  datatype Read = Received(frame: Frame) | ReadError

  datatype ControlFlow = Continue | Break

  /** A call the connection makes into the room service. */
  datatype ServiceCall =
    | Join(room: string, name: string)
    | Relay(room: string, message: WebSocketMessage)

  /** What handling one frame did: whether to go on, and the relay call it made, if any. */
  datatype Dispatch = Dispatch(flow: ControlFlow, relay: Option<ServiceCall>)

  /**
   * Handles one frame of the connection for participant `name` in `room`.
   * A close frame, with or without a body, stops the loop. A text frame that
   * decodes is relayed once, to the connection's room, and the relay's result
   * is ignored; a text frame that does not decode is dropped. Every other
   * frame is ignored. Only a close frame stops the loop.
   */
  function ProcessMessage(msg: Frame, room: string, name: string, decode: string -> Option<WebSocketMessage>): (d: Dispatch)
    ensures d.flow == Break <==> msg.Close?
    ensures d.relay.Some? <==> msg.Text? && decode(msg.text).Some?
    ensures d.relay.Some? ==> d.relay.value == Relay(room, decode(msg.text).value)
  {
    match msg
    case Text(s) =>
      (match decode(s)
       case Some(message) => Dispatch(Continue, Some(Relay(room, message)))
       case None => Dispatch(Continue, None))
    case Close(_) => Dispatch(Break, None)
    case _ => Dispatch(Continue, None)
  }

  /** The relay calls a run of frames makes: one per text frame that decodes, in order. */
  function Relays(room: string, frames: seq<Frame>, decode: string -> Option<WebSocketMessage>): seq<ServiceCall>
  {
    if frames == [] then []
    else
      var rest := Relays(room, frames[1..], decode);
      if frames[0].Text? && decode(frames[0].text).Some?
      then [Relay(room, decode(frames[0].text).value)] + rest
      else rest
  }

  /** The frames of the first `n` items, all of which are frames. */
  function FramesOf(inbound: seq<Read>, n: nat): (frames: seq<Frame>)
    requires n <= |inbound|
    requires forall i :: 0 <= i < n ==> inbound[i].Received?
    ensures |frames| == n
    ensures forall i :: 0 <= i < n ==> frames[i] == inbound[i].frame
  {
    seq(n, i requires 0 <= i < n => inbound[i].frame)
  }

  /**
   * The receive loop of a connection. Frames are handled in order; the loop
   * stops right after the first frame that asks to stop, at a read error, or
   * when the stream ends. `count` is the number of frames handed to
   * `ProcessMessage`, the stopping frame included; `relays` are the relay
   * calls those frames made, in order.
   */
  method ReceiveLoop(inbound: seq<Read>, room: string, name: string, decode: string -> Option<WebSocketMessage>)
    returns (count: nat, relays: seq<ServiceCall>)
    ensures count <= |inbound|
    ensures forall i :: 0 <= i < count ==> inbound[i].Received?
    ensures forall i :: 0 <= i < count - 1 ==> !inbound[i].frame.Close?
    ensures count == |inbound| || inbound[count].ReadError? || (count > 0 && inbound[count - 1].frame.Close?)
    ensures relays == Relays(room, FramesOf(inbound, count), decode)
  {
    count := 0;
    relays := [];
    var stop := false;
    while !stop && count < |inbound| && inbound[count].Received?
      invariant count <= |inbound|
      invariant forall i :: 0 <= i < count ==> inbound[i].Received?
      invariant forall i :: 0 <= i < count - 1 ==> !inbound[i].frame.Close?
      invariant stop <==> count > 0 && inbound[count - 1].frame.Close?
      invariant relays == Relays(room, FramesOf(inbound, count), decode)
      decreases |inbound| - count
    {
      var d := ProcessMessage(inbound[count].frame, room, name, decode);
      RelaysSnoc(room, FramesOf(inbound, count), inbound[count].frame, decode);
      assert FramesOf(inbound, count + 1) == FramesOf(inbound, count) + [inbound[count].frame];
      count := count + 1;
      if d.relay.Some? {
        relays := relays + [d.relay.value];
      }
      if d.flow == Break {
        stop := true;
      }
    }
  }

  /** Handling one more frame adds its relay call, if any, at the end. */
  lemma {:induction false} RelaysSnoc(room: string, frames: seq<Frame>, f: Frame, decode: string -> Option<WebSocketMessage>)
    ensures Relays(room, frames + [f], decode)
         == Relays(room, frames, decode) + (if f.Text? && decode(f.text).Some? then [Relay(room, decode(f.text).value)] else [])
    decreases |frames|
  {
    if frames != [] {
      assert (frames + [f])[1..] == frames[1..] + [f];
      RelaysSnoc(room, frames[1..], f, decode);
    }
  }

  /**
   * One connection from start to end: it joins its room exactly once,
   * as a participant without an SDP and ignoring the join's result, before
   * any frame is read; then it runs the receive loop. Nothing removes the
   * participant when the loop ends. If the name was already taken in the
   * room, the join changes nothing and this connection is never registered.
   * `s'` is the registry as the join left it.
   */
  method HandleSocket(s: Service.RoomService, room: string, name: string, inbound: seq<Read>,
                      decode: string -> Option<WebSocketMessage>)
    returns (s': Service.RoomService, calls: seq<ServiceCall>, count: nat)
    ensures s' == Service.JoinRoom(s, room, Participants.NewParticipant(name, None)).service
    ensures room in s.rooms && name in s.rooms[room].participants ==> s' == s
    ensures room in s'.rooms && name in s'.rooms[room].participants
    ensures room !in s.rooms || name !in s.rooms[room].participants ==>
      s'.rooms[room].participants[name] == Participants.NewParticipant(name, None)
    ensures |calls| >= 1 && calls[0] == Join(room, name)
    ensures forall i :: 1 <= i < |calls| ==> calls[i].Relay? && calls[i].room == room
    ensures count <= |inbound|
    ensures count == |inbound| || inbound[count].ReadError? || (count > 0 && inbound[count - 1].Received? && inbound[count - 1].frame.Close?)
    ensures forall i :: 0 <= i < count ==> inbound[i].Received?
    ensures forall i :: 0 <= i < count - 1 ==> !inbound[i].frame.Close?
    ensures calls[1..] == Relays(room, FramesOf(inbound, count), decode)
  {
    var reply := Service.JoinRoom(s, room, Participants.NewParticipant(name, None));
    s' := reply.service;
    Service.JoinRoomEffect(s, room, Participants.NewParticipant(name, None));
    var relays;
    count, relays := ReceiveLoop(inbound, room, name, decode);
    RelaysTargetRoom(room, FramesOf(inbound, count), decode);
    calls := [Join(room, name)] + relays;
  }

  /** Every relay call of a connection goes to the connection's own room. */
  lemma {:induction false} RelaysTargetRoom(room: string, frames: seq<Frame>, decode: string -> Option<WebSocketMessage>)
    ensures forall i :: 0 <= i < |Relays(room, frames, decode)| ==>
      Relays(room, frames, decode)[i].Relay? && Relays(room, frames, decode)[i].room == room
    decreases |frames|
  {
    if frames != [] {
      RelaysTargetRoom(room, frames[1..], decode);
    }
  }
}
