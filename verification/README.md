# Signalling relay for peer-to-peer video rooms — a Dafny model

The server keeps a registry of rooms. A room is keyed by a client-chosen room
code and holds participants keyed by name. Each participant has an optional
session description (SDP), a list of network-path candidates and a connection
to write to. Clients connect over a WebSocket. The room service then hands
offers, answers and candidates between the participants of a room. This
project models two parts of the Rust server:

- the room service (`src/service.rs`): `join_room`, `handle_sdp_offer`,
  `handle_sdp_answer` and `handle_candidate`, plus the room and participant
  helpers they use;
- the per-connection handler (`src/handlers.rs`): dispatch of one incoming
  frame, and the receive loop of one connection.

Every service operation holds the registry's write lock for its whole body.
So each operation is modelled as one atomic transition from an immutable
`RoomService` value to the next. A participant's connection is modelled by
an outbox, the sequence of messages written to it. Sending appends to the
outbox. A failed write is swallowed in the source, so from the caller's side
every send appends exactly one message.

Two operations walk a `HashMap`, whose iteration order is unspecified:
`handle_sdp_offer` and `handle_candidate`. They are methods whose loop visits
the keys in an arbitrary order (`:|`). Their contracts do not depend on that
order. The offers delivered by `handle_sdp_offer` are stated as a multiset.

Files: `wrappers.dfy` (Option, Outcome), `messages.dfy` (the service's
outbound messages), `participants.dfy`, `rooms.dfy`, `service.dfy` and
`handlers.dfy`.

Notes on the source as written:

- `service.rs` and `handlers.rs` do not agree with each other. `service.rs` imports a
  `WsMessage` that `handlers.rs` does not define. The model defines its own
  `WsMessage` with exactly the three variants `service.rs` builds: `Offer`,
  `Answer` and `Candidate`.
- `handlers.rs:100` calls a two-argument `Participant::new`, but
  `service.rs:166` takes three arguments. The model joins the connection's
  participant with no SDP.
- `handlers.rs:139` calls `relay_message`, which `service.rs` does not define.
  The model records each relay as a call with the connection's room and the
  decoded message. It never applies the call to the registry.
- In `handle_sdp_answer`, the recipient's stored candidates are forwarded to
  the answerer labelled with the answerer's own name (`service.rs:73-75`).
  The model keeps that labelling.
- `service.rs` builds no `Peers` message (the variant is declared at
  handlers.rs:76), has no leave operation and has no relay by recipient, so
  the model has none of them either.

## Model

| member | source | states |
|---|---|---|
| `Participants.NewParticipant` | src/service.rs:165-170 | A new participant has the given name and SDP, no candidates, and nothing written to its connection. |
| `Participants.SendMessage` | src/service.rs:172-177 | A send appends exactly the one message to the participant's connection and changes nothing else. A write or serialisation failure never surfaces. |
| `Rooms.NewRoom` | src/service.rs:119-124 | A new room carries its code and has no participants. |
| `Rooms.AddParticipant` | src/service.rs:126-134 | The name is inserted only if absent. The roster gains exactly that name. Every existing participant is unchanged, so a second participant with a taken name is dropped. Keying by name is preserved. |
| `Rooms.SetSdpOffer` | src/service.rs:136-143 | Only the named participant changes, and its SDP becomes `Some(sdp)`. An unknown name changes nothing. |
| `Rooms.MessageParticipant` | src/service.rs:145-150 | Exactly one message is written, to the named participant only. An unknown name changes nothing. |
| `Service.NewService` | src/service.rs:14-16 | The registry starts with no rooms and satisfies the registry invariant. |
| `Service.JoinRoom` | src/service.rs:18-37 | A join always returns `Ok`. Afterwards the room exists and the joiner's name is in it. |
| `Service.JoinRoomEffect` | src/service.rs:18-37 | A join adds only the joined room code. It leaves every other room unchanged. An unseen code gets exactly one new room holding just the joiner. An existing room is never replaced, and its occupants stay as they were. |
| `Service.JoinPreservesValid` | src/service.rs:22-33 | A join keeps each room under its own code and each participant under its own name. |
| `Service.JoinTakenNameIsNoOp` | src/service.rs:126-134 | A second join to a room under a name it already holds leaves the registry exactly as it was. |
| `Service.AddsCommute` | src/service.rs:126-134 | Adding two participants with different names gives the same room in either order. |
| `Service.JoinsCommuteAcrossRooms` | src/service.rs:18-37 | Joins to two different room codes give the same registry in either order. |
| `Service.JoinsCommuteWithinRoom` | src/service.rs:126-134 | Joins to one room under two different names give the same registry in either order. |
| `Service.JoinsCommute` | src/service.rs:18-37 | Two joins with different names, or to different rooms, give the same registry in either order. |
| `Service.RosterAfterJoin` | src/service.rs:22-33 | A join adds exactly the joiner's name to the room's roster. |
| `Service.OccupantsAfterJoin` | src/service.rs:126-134 | A join leaves every earlier occupant as it was. A joiner with a free name is stored as given. |
| `Service.JoinAllRoster` | src/service.rs:18-37 | After a list of joins to one room, the roster is the old roster plus every joiner's name. No join is lost. |
| `Service.JoinAllKeepsOccupants` | src/service.rs:126-134 | A list of joins never changes a participant who was already in the room. |
| `Service.JoinAllFirstWins` | src/service.rs:126-134 | For each name new to the room, the first joiner with that name is the one stored. |
| `Service.HandleSdpOffer` | src/service.rs:39-58 | Always `Ok`. The offerer's SDP becomes the given one. The offerer receives each offer once for every other participant whose stored SDP yields it. In a valid registry that is exactly one `Offer{name, sdp}` per other participant with an SDP, and nothing else. Nobody else changes. An unknown room or name changes nothing. |
| `Service.OfferPeers` | src/service.rs:45-55 | The loop visits participants in any order. It writes only to the offerer, one offer per other participant with an SDP, counted as a multiset. |
| `Service.OfferSendersUnique` | src/service.rs:45-55 | When participants are keyed by name, an offer has at most one source. It has exactly one iff it carries the name and stored SDP of another participant. |
| `Service.ForwardCandidates` | src/service.rs:70-78 | The candidates are written to the answerer in stored order, one `Candidate` each, labelled with the answerer's name. Nobody else changes. |
| `Service.HandleSdpAnswer` | src/service.rs:60-81 | Always `Ok`, and an unknown room changes nothing. The recipient receives exactly one `Answer{sender, recipient, sdp}`. The sender then receives the recipient's stored candidates in order. Nobody else receives anything, and no SDP or candidate list changes. |
| `Service.AnswerEffect` | src/service.rs:64-78 | Writing the answer and then forwarding the candidates gives each participant exactly its expected messages. |
| `Service.AnswerPreservesValid` | src/service.rs:60-81 | An answer keeps the registry invariant. |
| `Service.HandleCandidate` | src/service.rs:83-108 | Always `Ok`, and an unknown room changes nothing. A registered sender gets the candidate appended to its list and receives nothing. Every other participant with an SDP receives exactly one `Candidate{sender, candidate}`, even when the sender is not registered. Participants without an SDP receive nothing. |
| `Service.BroadcastCandidate` | src/service.rs:93-105 | The loop visits participants in any order. It writes the candidate once to each participant other than the sender that has an SDP, and changes nothing else. |
| `Handlers.ProcessMessage` | src/handlers.rs:131-158 | Only a close frame, with or without a body, yields `Break`. A relay call happens iff the frame is text that decodes. It then happens exactly once, with the connection's room and the decoded message. Undecodable text and other frame kinds yield `Continue` without a relay. |
| `Handlers.ReceiveLoop` | src/handlers.rs:105-115 | Frames are handled in order. The loop stops right after the first close frame, at a read error, or at the end of the stream. The count equals the number of frames handled, the stopping frame included. The relay calls are those of the handled frames, in order. |
| `Handlers.RelaysTargetRoom` | src/handlers.rs:134-140 | Every relay call of a connection goes to the connection's own room. |
| `Handlers.HandleSocket` | src/handlers.rs:96-115 | A connection joins its room exactly once, as a participant without an SDP, before any frame is handled. The registry afterwards is exactly what that join returns. Afterwards the connection makes only relay calls to its own room. The connection's name is in the room afterwards. If the name was free, it holds a fresh participant without an SDP. If the name was taken, the join changes nothing and the connection is never registered. |

## Left out

- Asynchrony and locking: tokio `RwLock`/`Mutex`, task spawning and `select!`. Every service operation holds the registry write lock for its whole body, so the sequential transitions model it faithfully.
- JSON: decoding a text frame is the parameter `decode` of the handler model. `serde_json::to_string` is treated as total on `WsMessage`, whose variants hold only strings, so the `"{}"` fallback of `send_message` is not modelled.
- Write failures on a participant's connection: they are swallowed in the source. The outbox records every attempted send.
- `relay_message` and `leave_room`: `service.rs` does not define them, and handlers.rs:110 leaves `leave_room` as a TODO, so the model records relays as calls and has no leave. `HandleSocket` returns the registry as the join left it.
- A roster (`Peers`) push, participant removal and empty-room deletion: `service.rs` implements none of them.
- `Handlers.ReceiveLoop`: the frame counter is an `i32` in the source, and its overflow after 2^31 frames is not modelled (`count` is a `nat`).
- Logging and tracing, and the close frame's code and reason: they are only logged.
- `ws_handler` routing, `AppState`, `AppError`, the unused `JoinRoomRequest`/`RoomResponse` types, `src/main.rs` (TLS, HTTP routing, redirect listener), `src/util.rs` (stdin and base64 helpers) and the TypeScript client: these are process plumbing or client code.
