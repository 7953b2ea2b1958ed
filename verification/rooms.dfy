/**
 * A room: the participants of one room code, keyed by participant name.
 * The room helpers here are the only ways the service touches a room's
 * participant map apart from the candidate bookkeeping of the service itself.
 */
module Rooms {
  import opened Wrappers
  import opened Messages
  import opened Participants

  datatype Room = Room(code: string, participants: map<string, Participant>)

  /** A room as created on first join: it knows its code and has nobody in it. */
  function NewRoom(code: string): (r: Room)
    ensures r.code == code
    ensures |r.participants| == 0
  {
    Room(code, map[])
  }

  /** Every participant is stored under its own name. */
  predicate KeyedByName(r: Room)
  {
    forall n :: n in r.participants ==> r.participants[n].name == n
  }

  /** Same participant names, and everybody except `name` exactly as before. */
  predicate SameExcept(before: map<string, Participant>, after: map<string, Participant>, name: string)
  {
    && after.Keys == before.Keys
    && forall n :: n in before && n != name ==> after[n] == before[n]
  }

  /**
   * Inserts `p` under its name unless that name is already taken; a second
   * participant with a taken name is dropped and the first one is kept as it was.
   */
  function AddParticipant(r: Room, p: Participant): (r': Room)
    ensures r'.code == r.code
    ensures r'.participants.Keys == r.participants.Keys + {p.name}
    ensures forall n :: n in r.participants ==> r'.participants[n] == r.participants[n]
    ensures p.name !in r.participants ==> r'.participants[p.name] == p
    ensures KeyedByName(r) ==> KeyedByName(r')
  {
    if p.name in r.participants then r
    else r.(participants := r.participants[p.name := p])
  }

  /** Records `sdp` as the named participant's offer; nobody else changes, an unknown name changes nothing. */
  function SetSdpOffer(r: Room, name: string, sdp: string): (r': Room)
    ensures r'.code == r.code
    ensures SameExcept(r.participants, r'.participants, name)
    ensures name in r.participants ==>
      r'.participants[name] == r.participants[name].(sdp := Some(sdp))
    ensures name !in r.participants ==> r' == r
    ensures KeyedByName(r) ==> KeyedByName(r')
  {
    if name in r.participants then
      r.(participants := r.participants[name := r.participants[name].(sdp := Some(sdp))])
    else r
  }

  /** Writes `m` to the named participant's connection, or drops it if nobody has that name. */
  function MessageParticipant(r: Room, name: string, m: WsMessage): (r': Room)
    ensures r'.code == r.code
    ensures SameExcept(r.participants, r'.participants, name)
    ensures name in r.participants ==>
      && Extends(r.participants[name], r'.participants[name])
      && Received(r.participants[name], r'.participants[name]) == [m]
    ensures name !in r.participants ==> r' == r
    ensures KeyedByName(r) ==> KeyedByName(r')
  {
    if name in r.participants then
      r.(participants := r.participants[name := SendMessage(r.participants[name], m)])
    else r
  }
}
