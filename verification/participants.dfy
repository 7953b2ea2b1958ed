/**
 * One connected client of a room: its name, the session description it
 * offered (if any), the network-path candidates it reported, and the
 * messages written to its connection so far.
 */
module Participants {
  import opened Wrappers
  import opened Messages

  /** The connection's sink is modelled by `outbox`, every message written to it in order. */
  datatype Participant = Participant(
    name: string,
    sdp: Option<string>,
    candidates: seq<string>,
    outbox: seq<WsMessage>)

  /** A fresh participant: no candidates reported, nothing written to its connection. */
  function NewParticipant(name: string, sdp: Option<string>): (p: Participant)
    ensures p.name == name && p.sdp == sdp
    ensures |p.candidates| == 0 && |p.outbox| == 0
  {
    Participant(name, sdp, [], [])
  }

  /** `after` is `before` with messages written to its connection and nothing else changed. */
  predicate Extends(before: Participant, after: Participant)
  {
    && after.name == before.name
    && after.sdp == before.sdp
    && after.candidates == before.candidates
    && before.outbox <= after.outbox
  }

  /** The messages written to the connection between `before` and `after`. */
  function Received(before: Participant, after: Participant): seq<WsMessage>
    requires before.outbox <= after.outbox
  {
    after.outbox[|before.outbox|..]
  }

  /**
   * Writes one message to the participant's connection. A failed write is
   * swallowed, so from the caller's side every send appends exactly one
   * message and changes nothing else.
   */
  function SendMessage(p: Participant, m: WsMessage): (q: Participant)
    ensures Extends(p, q)
    ensures Received(p, q) == [m]
  {
    p.(outbox := p.outbox + [m])
  }

  /** Messages received over two consecutive steps arrive in step order. */
  lemma ReceivedConcat(a: Participant, b: Participant, c: Participant)
    requires a.outbox <= b.outbox && b.outbox <= c.outbox
    ensures a.outbox <= c.outbox
    ensures Received(a, c) == Received(a, b) + Received(b, c)
  {
  }
}
