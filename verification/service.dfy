/**
 * The room registry and its signalling operations. Every operation holds the
 * registry's write lock for its whole body, so each is modelled as one atomic
 * transition from the registry before the call to the registry after it.
 * Where the source walks a hash map, whose iteration order is unspecified,
 * the model is a method that visits the keys in an arbitrary order and its
 * contract does not depend on that order.
 */
module Service {
  import opened Wrappers
  import opened Messages
  import opened Participants
  import opened Rooms

  datatype RoomService = RoomService(rooms: map<string, Room>)

  /** The registry after an operation, with the `Result` the operation returned. */
  datatype Reply = Reply(service: RoomService, outcome: Outcome)

  /** Every room is stored under its own code and keys its participants by name. */
  predicate Valid(s: RoomService)
  {
    forall c :: c in s.rooms ==> s.rooms[c].code == c && KeyedByName(s.rooms[c])
  }

  /** The participant names of room `code`, empty if there is no such room. */
  function Roster(s: RoomService, code: string): set<string>
  {
    if code in s.rooms then s.rooms[code].participants.Keys else {}
  }

  function NewService(): (s: RoomService)
    ensures |s.rooms| == 0
    ensures Valid(s)
  {
    RoomService(map[])
  }

  // ---------------------------------------------------------------- join_room

  /**
   * Creates the room if its code is unseen, then adds the participant to it;
   * the call always succeeds and the joiner's name is in the room afterwards
   * (`JoinRoomEffect` states the full effect).
   */
  function JoinRoom(s: RoomService, code: string, p: Participant): (r: Reply)
    ensures r.outcome == Ok
    ensures code in r.service.rooms
    ensures p.name in r.service.rooms[code].participants
  {
    Reply(RoomService(s.rooms[code := AddParticipant(RoomFor(s, code), p)]), Ok)
  }

  /**
   * The effect of a join: the only room that can change is the joined one,
   * and no room is removed. An unseen code gets exactly one new room holding
   * just the joiner. A known code keeps its room and every occupant in it
   * unchanged, and gains the joiner only if the name is free; a second
   * participant with a taken name is dropped.
   */
  lemma JoinRoomEffect(s: RoomService, code: string, p: Participant)
    ensures JoinRoom(s, code, p).service.rooms.Keys == s.rooms.Keys + {code}
    ensures forall c :: c in s.rooms && c != code ==> JoinRoom(s, code, p).service.rooms[c] == s.rooms[c]
    ensures code !in s.rooms ==>
      JoinRoom(s, code, p).service.rooms[code] == Room(code, map[p.name := p])
    ensures code in s.rooms ==>
      var before, after := s.rooms[code], JoinRoom(s, code, p).service.rooms[code];
      && after.code == before.code
      && after.participants.Keys == before.participants.Keys + {p.name}
      && (forall n :: n in before.participants ==> after.participants[n] == before.participants[n])
      && (p.name in before.participants ==> after == before)
      && (p.name !in before.participants ==> after.participants[p.name] == p)
  {
  }

  /** A join keeps every room under its own code and every participant under its own name. */
  lemma JoinPreservesValid(s: RoomService, code: string, p: Participant)
    requires Valid(s)
    ensures Valid(JoinRoom(s, code, p).service)
  {
  }

  /** The room a join to `code` adds to: the existing one, or a new empty one. */
  function RoomFor(s: RoomService, code: string): Room
  {
    if code in s.rooms then s.rooms[code] else NewRoom(code)
  }

  /** A second join under a name the room already holds changes nothing. */
  lemma JoinTakenNameIsNoOp(s: RoomService, code: string, p: Participant, q: Participant)
    requires q.name == p.name
    ensures JoinRoom(JoinRoom(s, code, p).service, code, q).service == JoinRoom(s, code, p).service
  {
  }

  /** Adding participants with different names in either order gives the same room. */
  lemma AddsCommute(r: Room, p1: Participant, p2: Participant)
    requires p1.name != p2.name
    ensures AddParticipant(AddParticipant(r, p1), p2) == AddParticipant(AddParticipant(r, p2), p1)
  {
  }

  /** The registry after a join: the joined code mapped to its room with the joiner added. */
  lemma JoinRooms(s: RoomService, code: string, p: Participant)
    ensures JoinRoom(s, code, p).service.rooms == s.rooms[code := AddParticipant(RoomFor(s, code), p)]
  {
  }

  /** Joins to two different rooms commute. */
  lemma JoinsCommuteAcrossRooms(s: RoomService, c1: string, p1: Participant, c2: string, p2: Participant)
    requires c1 != c2
    ensures JoinRoom(JoinRoom(s, c1, p1).service, c2, p2).service
         == JoinRoom(JoinRoom(s, c2, p2).service, c1, p1).service
  {
    var s1 := JoinRoom(s, c1, p1).service;
    var s2 := JoinRoom(s, c2, p2).service;
    var a1 := AddParticipant(RoomFor(s, c1), p1);
    var a2 := AddParticipant(RoomFor(s, c2), p2);
    assert JoinRoom(s1, c2, p2).service.rooms == s.rooms[c1 := a1][c2 := a2] by {
      JoinRooms(s, c1, p1);
      JoinRooms(s1, c2, p2);
      assert RoomFor(s1, c2) == RoomFor(s, c2);
    }
    assert JoinRoom(s2, c1, p1).service.rooms == s.rooms[c2 := a2][c1 := a1] by {
      JoinRooms(s, c2, p2);
      JoinRooms(s2, c1, p1);
      assert RoomFor(s2, c1) == RoomFor(s, c1);
    }
    assert s.rooms[c1 := a1][c2 := a2] == s.rooms[c2 := a2][c1 := a1];
  }

  /** The registry after two joins to one room: that room with both joiners added, in order. */
  lemma JoinTwiceRooms(s: RoomService, c: string, p1: Participant, p2: Participant)
    ensures JoinRoom(JoinRoom(s, c, p1).service, c, p2).service.rooms
         == s.rooms[c := AddParticipant(AddParticipant(RoomFor(s, c), p1), p2)]
  {
    var s1 := JoinRoom(s, c, p1).service;
    JoinRooms(s, c, p1);
    JoinRooms(s1, c, p2);
    assert RoomFor(s1, c) == AddParticipant(RoomFor(s, c), p1);
  }

  /** Joins to one room under two different names commute. */
  lemma JoinsCommuteWithinRoom(s: RoomService, c: string, p1: Participant, p2: Participant)
    requires p1.name != p2.name
    ensures JoinRoom(JoinRoom(s, c, p1).service, c, p2).service
         == JoinRoom(JoinRoom(s, c, p2).service, c, p1).service
  {
    JoinTwiceRooms(s, c, p1, p2);
    JoinTwiceRooms(s, c, p2, p1);
    AddsCommute(RoomFor(s, c), p1, p2);
  }

  /** Joins under different names, or to different rooms, commute. */
  lemma JoinsCommute(s: RoomService, c1: string, p1: Participant, c2: string, p2: Participant)
    requires c1 != c2 || p1.name != p2.name
    ensures JoinRoom(JoinRoom(s, c1, p1).service, c2, p2).service
         == JoinRoom(JoinRoom(s, c2, p2).service, c1, p1).service
  {
    if c1 == c2 {
      JoinsCommuteWithinRoom(s, c1, p1, p2);
    } else {
      JoinsCommuteAcrossRooms(s, c1, p1, c2, p2);
    }
  }

  /** The registry after the participants in `ps` join room `code` one after another. */
  function JoinAll(s: RoomService, code: string, ps: seq<Participant>): RoomService
    decreases |ps|
  {
    if ps == [] then s else JoinAll(JoinRoom(s, code, ps[0]).service, code, ps[1..])
  }

  /** Joining a non-empty list: the first joiner joins, then the rest. */
  lemma JoinAllCons(s: RoomService, code: string, ps: seq<Participant>)
    requires ps != []
    ensures JoinAll(s, code, ps) == JoinAll(JoinRoom(s, code, ps[0]).service, code, ps[1..])
  {
  }

  /** The names of the participants in `ps`. */
  function Names(ps: seq<Participant>): set<string>
  {
    set i | 0 <= i < |ps| :: ps[i].name
  }

  /** The names of a non-empty list: the first one and those of the rest. */
  lemma NamesCons(ps: seq<Participant>)
    requires |ps| > 0
    ensures Names(ps) == {ps[0].name} + Names(ps[1..])
  {
  }

  /** A join adds exactly the joiner's name to the room's roster. */
  lemma RosterAfterJoin(s: RoomService, code: string, p: Participant)
    ensures Roster(JoinRoom(s, code, p).service, code) == Roster(s, code) + {p.name}
  {
  }

  /** A join keeps every occupant of the room as it was, and a joiner with a free name is stored as given. */
  lemma OccupantsAfterJoin(s: RoomService, code: string, p: Participant)
    ensures forall n :: n in Roster(s, code) ==>
      JoinRoom(s, code, p).service.rooms[code].participants[n] == s.rooms[code].participants[n]
    ensures p.name !in Roster(s, code) ==> JoinRoom(s, code, p).service.rooms[code].participants[p.name] == p
  {
  }

  /** A name free in the room stays free when somebody under another name joins. */
  lemma StillFreeAfterJoin(s: RoomService, code: string, p: Participant, n: string)
    requires n !in Roster(s, code) && n != p.name
    ensures n !in Roster(JoinRoom(s, code, p).service, code)
  {
    RosterAfterJoin(s, code, p);
  }

  /**
   * Joining a list of participants to one room, one after another, leaves
   * the old roster plus every joiner's name: no join is lost.
   */
  lemma {:induction false} JoinAllRoster(s: RoomService, code: string, ps: seq<Participant>)
    ensures Roster(JoinAll(s, code, ps), code) == Roster(s, code) + Names(ps)
    decreases |ps|
  {
    if ps == [] {
      assert Names(ps) == {};
    } else {
      JoinAllCons(s, code, ps);
      JoinAllRoster(JoinRoom(s, code, ps[0]).service, code, ps[1..]);
      RosterAfterJoin(s, code, ps[0]);
      NamesCons(ps);
    }
  }

  /** The first participant in `ps` that carries the name of `ps[i]` is `ps[i]` itself. */
  predicate FirstOfName(ps: seq<Participant>, i: int)
    requires 0 <= i < |ps|
  {
    forall j :: 0 <= j < i ==> ps[j].name != ps[i].name
  }

  /** Joining a list of participants never disturbs the room's earlier occupants. */
  lemma {:induction false} JoinAllKeepsOccupants(s: RoomService, code: string, ps: seq<Participant>)
    ensures Roster(s, code) <= Roster(JoinAll(s, code, ps), code)
    ensures forall n :: n in Roster(s, code) ==>
      JoinAll(s, code, ps).rooms[code].participants[n] == s.rooms[code].participants[n]
    decreases |ps|
  {
    JoinAllRoster(s, code, ps);
    if ps != [] {
      var s1 := JoinRoom(s, code, ps[0]).service;
      JoinAllCons(s, code, ps);
      JoinAllKeepsOccupants(s1, code, ps[1..]);
      RosterAfterJoin(s, code, ps[0]);
      OccupantsAfterJoin(s, code, ps[0]);
    }
  }

  /** A name first held at position `i > 0` is not the first joiner's, and is first in the rest of the list. */
  lemma FirstOfNameTail(ps: seq<Participant>, i: int)
    requires 0 < i < |ps| && FirstOfName(ps, i)
    ensures ps[0].name != ps[i].name
    ensures FirstOfName(ps[1..], i - 1)
  {
    assert ps[1..][i - 1] == ps[i];
  }

  /** For each name new to the room, the first joiner in `ps` holding it is the one kept. */
  lemma {:induction false} JoinAllFirstWins(s: RoomService, code: string, ps: seq<Participant>, i: nat)
    requires i < |ps|
    requires ps[i].name !in Roster(s, code)
    requires FirstOfName(ps, i)
    ensures code in JoinAll(s, code, ps).rooms
    ensures ps[i].name in JoinAll(s, code, ps).rooms[code].participants
    ensures JoinAll(s, code, ps).rooms[code].participants[ps[i].name] == ps[i]
    decreases |ps|
  {
    var s1 := JoinRoom(s, code, ps[0]).service;
    var rest := ps[1..];
    if i == 0 {
      assert ps[0].name in Roster(s1, code) && s1.rooms[code].participants[ps[0].name] == ps[0] by {
        RosterAfterJoin(s, code, ps[0]);
        OccupantsAfterJoin(s, code, ps[0]);
      }
      JoinAllKeepsOccupants(s1, code, rest);
    } else {
      var k: nat := i - 1;
      FirstOfNameTail(ps, i);
      StillFreeAfterJoin(s, code, ps[0], ps[i].name);
      assert rest[k] == ps[i];
      JoinAllFirstWins(s1, code, rest, k);
    }
    JoinAllCons(s, code, ps);
  }

  // ---------------------------------------------------------- handle_sdp_offer

  /** The offer participant `p` hands to its peers: its own name and stored SDP, if it has one. */
  function OfferOf(p: Participant): Option<WsMessage>
  {
    if p.sdp.Some? then Some(Offer(p.name, p.sdp.value)) else None
  }

  /** The participants among `among`, other than `name`, whose stored SDP yields offer `m`. */
  ghost function OfferSenders(ps: map<string, Participant>, among: set<string>, name: string, m: WsMessage): set<string>
  {
    set n | n in among && n in ps && n != name && OfferOf(ps[n]) == Some(m)
  }

  /**
   * Records `sdp` as `name`'s offer, then hands `name` the offer of every
   * other participant of the room that has one. The room's participants are
   * visited in an unspecified order, so the delivered offers are described as
   * a multiset: each message arrives once per other participant whose offer
   * it is, so in a valid registry exactly once per other participant with an
   * SDP. Nobody else changes; an unknown room or name changes nothing.
   */
  method HandleSdpOffer(s: RoomService, room: string, name: string, sdp: string)
    returns (reply: Reply)
    ensures reply.outcome == Ok
    ensures room !in s.rooms ==> reply.service == s
    ensures reply.service.rooms.Keys == s.rooms.Keys
    ensures forall c :: c in s.rooms && c != room ==> reply.service.rooms[c] == s.rooms[c]
    ensures room in s.rooms ==>
      && reply.service.rooms[room].code == s.rooms[room].code
      && SameExcept(s.rooms[room].participants, reply.service.rooms[room].participants, name)
    ensures room in s.rooms && name !in s.rooms[room].participants ==> reply.service == s
    ensures room in s.rooms && name in s.rooms[room].participants ==>
      var ps, p, p' := s.rooms[room].participants, s.rooms[room].participants[name], reply.service.rooms[room].participants[name];
      && p'.name == p.name && p'.sdp == Some(sdp) && p'.candidates == p.candidates
      && p.outbox <= p'.outbox
      && forall m :: multiset(Received(p, p'))[m] == |OfferSenders(ps, ps.Keys, name, m)|
    ensures Valid(s) && room in s.rooms && name in s.rooms[room].participants ==>
      var ps, p, p' := s.rooms[room].participants, s.rooms[room].participants[name], reply.service.rooms[room].participants[name];
      forall m :: multiset(Received(p, p'))[m] ==
        if m.Offer? && m.name in ps && m.name != name && ps[m.name].sdp == Some(m.sdp) then 1 else 0
    ensures Valid(s) ==> Valid(reply.service)
  {
    if room !in s.rooms {
      return Reply(s, Ok);
    }
    var r := SetSdpOffer(s.rooms[room], name, sdp);
    r := OfferPeers(r, name);
    SameSenders(s.rooms[room].participants, SetSdpOffer(s.rooms[room], name, sdp).participants, name);
    if Valid(s) {
      forall m {
        OfferSendersUnique(s.rooms[room].participants, name, m);
      }
    }
    reply := Reply(RoomService(s.rooms[room := r]), Ok);
  }

  /**
   * The loop of `HandleSdpOffer`: visits the participants in an arbitrary
   * order and writes to `name` the offer of each other participant that has
   * an SDP. Only `name`'s connection is written to.
   */
  method OfferPeers(r: Room, name: string) returns (r': Room)
    ensures r'.code == r.code
    ensures SameExcept(r.participants, r'.participants, name)
    ensures name !in r.participants ==> r' == r
    ensures name in r.participants ==>
      && Extends(r.participants[name], r'.participants[name])
      && forall m :: multiset(Received(r.participants[name], r'.participants[name]))[m]
                  == |OfferSenders(r.participants, r.participants.Keys, name, m)|
    ensures KeyedByName(r) ==> KeyedByName(r')
  {
    var ps := r.participants;
    var remaining := ps.Keys;
    ghost var visited: set<string> := {};
    r' := r;
    while remaining != {}
      invariant remaining !! visited && remaining + visited == ps.Keys
      invariant r'.code == r.code
      invariant SameExcept(ps, r'.participants, name)
      invariant name !in ps ==> r' == r
      invariant name in ps ==>
        && Extends(ps[name], r'.participants[name])
        && forall m :: multiset(Received(ps[name], r'.participants[name]))[m] == |OfferSenders(ps, visited, name, m)|
      invariant KeyedByName(r) ==> KeyedByName(r')
      decreases remaining
    {
      var other :| other in remaining;
      ghost var before := r';
      if other != name && ps[other].sdp.Some? {
        r' := MessageParticipant(r', name, Offer(ps[other].name, ps[other].sdp.value));
      }
      if name in ps {
        OfferStep(ps, visited, name, other, before.participants[name], r'.participants[name]);
      }
      remaining := remaining - {other};
      visited := visited + {other};
    }
  }

  /** One step of `OfferPeers`: visiting `other` delivers its offer, if any, and counts it. */
  lemma OfferStep(ps: map<string, Participant>, visited: set<string>, name: string, other: string,
                  before: Participant, after: Participant)
    requires name in ps && other in ps && other !in visited
    requires Extends(ps[name], before)
    requires forall m :: multiset(Received(ps[name], before))[m] == |OfferSenders(ps, visited, name, m)|
    requires other != name && ps[other].sdp.Some? ==>
      Extends(before, after) && Received(before, after) == [Offer(ps[other].name, ps[other].sdp.value)]
    requires !(other != name && ps[other].sdp.Some?) ==> after == before
    ensures Extends(ps[name], after)
    ensures forall m :: multiset(Received(ps[name], after))[m] == |OfferSenders(ps, visited + {other}, name, m)|
  {
    ReceivedConcat(ps[name], before, after);
    forall m
      ensures multiset(Received(ps[name], after))[m] == |OfferSenders(ps, visited + {other}, name, m)|
    {
      var senders := OfferSenders(ps, visited, name, m);
      if other != name && OfferOf(ps[other]) == Some(m) {
        assert OfferSenders(ps, visited + {other}, name, m) == senders + {other};
      } else {
        assert OfferSenders(ps, visited + {other}, name, m) == senders;
      }
    }
  }

  /** Offer senders do not depend on the participant the offers are for. */
  lemma SameSenders(ps: map<string, Participant>, qs: map<string, Participant>, name: string)
    requires SameExcept(ps, qs, name)
    ensures forall m :: OfferSenders(ps, ps.Keys, name, m) == OfferSenders(qs, qs.Keys, name, m)
  {
  }

  /**
   * In a room whose participants are keyed by name, each offer comes from at
   * most one participant, and it comes from exactly one precisely when it
   * carries the name and stored SDP of a participant other than `name`.
   */
  lemma OfferSendersUnique(ps: map<string, Participant>, name: string, m: WsMessage)
    requires forall n :: n in ps ==> ps[n].name == n
    ensures |OfferSenders(ps, ps.Keys, name, m)| <= 1
    ensures |OfferSenders(ps, ps.Keys, name, m)| == 1 <==>
      m.Offer? && m.name in ps && m.name != name && ps[m.name].sdp == Some(m.sdp)
  {
    var senders := OfferSenders(ps, ps.Keys, name, m);
    if m.Offer? && m.name in ps && m.name != name && ps[m.name].sdp == Some(m.sdp) {
      assert senders == {m.name};
    } else {
      assert senders == {};
    }
  }

  // --------------------------------------------------------- handle_sdp_answer

  /** One `Candidate` message per entry of `candidates`, in order, each labelled `sender`. */
  function CandidateMessages(sender: string, candidates: seq<string>): (ms: seq<WsMessage>)
    ensures |ms| == |candidates|
    ensures forall i :: 0 <= i < |candidates| ==> ms[i] == Candidate(sender, candidates[i])
  {
    seq(|candidates|, i requires 0 <= i < |candidates| => Candidate(sender, candidates[i]))
  }

  /** The messages for a non-empty list: the first candidate's, then the rest's. */
  lemma CandidateMessagesCons(sender: string, candidates: seq<string>)
    requires candidates != []
    ensures CandidateMessages(sender, candidates)
         == [Candidate(sender, candidates[0])] + CandidateMessages(sender, candidates[1..])
  {
  }

  /**
   * What participant `n` of a room with participants `ps` receives when
   * `sender` answers `recipient`: the answer if `n` is the recipient, then,
   * if `n` is the sender and the recipient exists, the recipient's stored
   * candidates, labelled with the sender's name.
   */
  function AnswerInbox(ps: map<string, Participant>, sender: string, recipient: string, sdp: string, n: string): seq<WsMessage>
  {
    (if n == recipient then [Answer(sender, recipient, sdp)] else [])
    + (if n == sender && recipient in ps then CandidateMessages(sender, ps[recipient].candidates) else [])
  }

  /** Writes `candidates` to `to`'s connection one by one, in order, as candidates from `to`. */
  function ForwardCandidates(r: Room, to: string, candidates: seq<string>): (r': Room)
    ensures r'.code == r.code
    ensures SameExcept(r.participants, r'.participants, to)
    ensures to !in r.participants ==> r' == r
    ensures to in r.participants ==>
      && Extends(r.participants[to], r'.participants[to])
      && Received(r.participants[to], r'.participants[to]) == CandidateMessages(to, candidates)
    ensures KeyedByName(r) ==> KeyedByName(r')
    decreases |candidates|
  {
    if candidates == [] then r
    else
      var r1 := MessageParticipant(r, to, Candidate(to, candidates[0]));
      var r' := ForwardCandidates(r1, to, candidates[1..]);
      if to in r.participants then
        ReceivedConcat(r.participants[to], r1.participants[to], r'.participants[to]);
        CandidateMessagesCons(to, candidates);
        r'
      else r'
  }

  /**
   * Writes the answer to the recipient, then pulls the recipient's stored
   * candidates down to the sender. Nobody's SDP or candidate list changes,
   * nobody but the two named participants receives anything, and an unknown
   * room changes nothing.
   */
  function HandleSdpAnswer(s: RoomService, room: string, sender: string, recipient: string, sdp: string): (r: Reply)
    ensures r.outcome == Ok
    ensures room !in s.rooms ==> r.service == s
    ensures r.service.rooms.Keys == s.rooms.Keys
    ensures forall c :: c in s.rooms && c != room ==> r.service.rooms[c] == s.rooms[c]
    ensures room in s.rooms ==>
      var ps, ps' := s.rooms[room].participants, r.service.rooms[room].participants;
      && r.service.rooms[room].code == s.rooms[room].code
      && ps'.Keys == ps.Keys
      && forall n :: n in ps ==>
           && Extends(ps[n], ps'[n])
           && Received(ps[n], ps'[n]) == AnswerInbox(ps, sender, recipient, sdp, n)
  {
    if room !in s.rooms then Reply(s, Ok)
    else
      var r0 := s.rooms[room];
      var r1 := MessageParticipant(r0, recipient, Answer(sender, recipient, sdp));
      var r2 := if recipient in r1.participants then ForwardCandidates(r1, sender, r1.participants[recipient].candidates) else r1;
      AnswerEffect(r0, r1, r2, sender, recipient, sdp);
      Reply(RoomService(s.rooms[room := r2]), Ok)
  }

  /** The two steps of `HandleSdpAnswer` compose to `AnswerInbox` for every participant. */
  lemma AnswerEffect(r0: Room, r1: Room, r2: Room, sender: string, recipient: string, sdp: string)
    requires r1 == MessageParticipant(r0, recipient, Answer(sender, recipient, sdp))
    requires r2 == if recipient in r1.participants then ForwardCandidates(r1, sender, r1.participants[recipient].candidates) else r1
    ensures r2.participants.Keys == r0.participants.Keys
    ensures forall n :: n in r0.participants ==>
      && Extends(r0.participants[n], r2.participants[n])
      && Received(r0.participants[n], r2.participants[n]) == AnswerInbox(r0.participants, sender, recipient, sdp, n)
  {
    var ps := r0.participants;
    if recipient !in ps {
      assert r2 == r0;
      forall n | n in ps
        ensures Received(ps[n], r2.participants[n]) == AnswerInbox(ps, sender, recipient, sdp, n)
      {
        assert Received(ps[n], ps[n]) == [];
      }
    } else {
      var cs := ps[recipient].candidates;
      assert r1.participants[recipient].candidates == cs;
      assert r2 == ForwardCandidates(r1, sender, cs);
      forall n | n in ps
        ensures Extends(ps[n], r2.participants[n])
        ensures Received(ps[n], r2.participants[n]) == AnswerInbox(ps, sender, recipient, sdp, n)
      {
        AnswerEffectAt(r0, r1, r2, sender, recipient, sdp, n);
      }
    }
  }

  /** `AnswerEffect` for one participant `n`, when the recipient is in the room. */
  lemma AnswerEffectAt(r0: Room, r1: Room, r2: Room, sender: string, recipient: string, sdp: string, n: string)
    requires recipient in r0.participants && n in r0.participants
    requires r1 == MessageParticipant(r0, recipient, Answer(sender, recipient, sdp))
    requires r2 == ForwardCandidates(r1, sender, r0.participants[recipient].candidates)
    ensures Extends(r0.participants[n], r2.participants[n])
    ensures Received(r0.participants[n], r2.participants[n]) == AnswerInbox(r0.participants, sender, recipient, sdp, n)
  {
    var cs := r0.participants[recipient].candidates;
    var p0, p1, p2 := r0.participants[n], r1.participants[n], r2.participants[n];
    assert Extends(p0, p1) && Extends(p1, p2);
    ReceivedConcat(p0, p1, p2);
    assert Received(p0, p1) == (if n == recipient then [Answer(sender, recipient, sdp)] else []);
    assert Received(p1, p2) == (if n == sender then CandidateMessages(sender, cs) else []);
  }

  /** A valid registry stays valid across an answer. */
  lemma AnswerPreservesValid(s: RoomService, room: string, sender: string, recipient: string, sdp: string)
    requires Valid(s)
    ensures Valid(HandleSdpAnswer(s, room, sender, recipient, sdp).service)
  {
  }

  // ---------------------------------------------------------- handle_candidate

  /** What participant `n` receives from `sender`'s candidate: one copy if it is somebody else with an SDP, else nothing. */
  function CandidateInbox(ps: map<string, Participant>, sender: string, candidate: string, n: string): seq<WsMessage>
    requires n in ps
  {
    if n != sender && ps[n].sdp.Some? then [Candidate(sender, candidate)] else []
  }

  /**
   * Appends `candidate` to the sender's stored candidates, if the sender is in
   * the room, and writes it to every other participant that has an SDP, even
   * when the sender is not in the room. The sender and participants without
   * an SDP receive nothing; an unknown room changes nothing.
   */
  method HandleCandidate(s: RoomService, room: string, sender: string, candidate: string)
    returns (reply: Reply)
    ensures reply.outcome == Ok
    ensures room !in s.rooms ==> reply.service == s
    ensures reply.service.rooms.Keys == s.rooms.Keys
    ensures forall c :: c in s.rooms && c != room ==> reply.service.rooms[c] == s.rooms[c]
    ensures room in s.rooms ==>
      var ps, ps' := s.rooms[room].participants, reply.service.rooms[room].participants;
      && reply.service.rooms[room].code == s.rooms[room].code
      && ps'.Keys == ps.Keys
      && (sender in ps ==> ps'[sender] == ps[sender].(candidates := ps[sender].candidates + [candidate]))
      && forall n :: n in ps && n != sender ==>
           && Extends(ps[n], ps'[n])
           && Received(ps[n], ps'[n]) == CandidateInbox(ps, sender, candidate, n)
    ensures Valid(s) ==> Valid(reply.service)
  {
    if room !in s.rooms {
      return Reply(s, Ok);
    }
    var r := s.rooms[room];
    if sender in r.participants {
      var p := r.participants[sender];
      r := r.(participants := r.participants[sender := p.(candidates := p.candidates + [candidate])]);
    }
    r := BroadcastCandidate(r, sender, candidate);
    reply := Reply(RoomService(s.rooms[room := r]), Ok);
  }

  /**
   * The loop of `HandleCandidate`: visits the participants in an arbitrary
   * order and writes the candidate to each one other than the sender that
   * has an SDP.
   */
  method BroadcastCandidate(r: Room, sender: string, candidate: string) returns (r': Room)
    ensures r'.code == r.code
    ensures r'.participants.Keys == r.participants.Keys
    ensures sender in r.participants ==> r'.participants[sender] == r.participants[sender]
    ensures forall n :: n in r.participants && n != sender ==>
      && Extends(r.participants[n], r'.participants[n])
      && Received(r.participants[n], r'.participants[n]) == CandidateInbox(r.participants, sender, candidate, n)
    ensures KeyedByName(r) ==> KeyedByName(r')
  {
    var ps := r.participants;
    var remaining := ps.Keys;
    r' := r;
    while remaining != {}
      invariant remaining <= ps.Keys
      invariant r'.code == r.code
      invariant r'.participants.Keys == ps.Keys
      invariant sender in ps ==> r'.participants[sender] == ps[sender]
      invariant forall n :: n in remaining ==> r'.participants[n] == ps[n]
      invariant forall n :: n in ps && n !in remaining && n != sender ==>
        && Extends(ps[n], r'.participants[n])
        && Received(ps[n], r'.participants[n]) == CandidateInbox(ps, sender, candidate, n)
      invariant KeyedByName(r) ==> KeyedByName(r')
      decreases remaining
    {
      var other :| other in remaining;
      if other != sender && ps[other].sdp.Some? {
        var p := r'.participants[other];
        r' := r'.(participants := r'.participants[other := SendMessage(p, Candidate(sender, candidate))]);
      }
      remaining := remaining - {other};
    }
  }
}
