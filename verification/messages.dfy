/**
 * The messages the room service pushes down a participant's connection.
 * Only the three variants the service constructs are modelled; their wire
 * encoding is left to the serialiser and is not part of this model.
 */
module Messages {

  datatype WsMessage =
    /** Another participant's stored session description. */
    | Offer(name: string, sdp: string)
    /** An answer from `senderName` to the offer of `recipientName`. */
    | Answer(senderName: string, recipientName: string, sdp: string)
    /** A network-path candidate, labelled with `senderName`. */
    | Candidate(senderName: string, candidate: string)
}
