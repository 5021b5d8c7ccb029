/** The stateless handlers: each inbound event, once its required fields are present,
    is forwarded into the class room named by its `classId`. */
module Relay {
  import opened Values
  import opened Protocol

  /** Forward `e` to the class room except the sender's own room (`socket.to(classId).emit`),
      unless the class id is falsy or the payload field is (`e` is then `None`). */
  function ToOthersIf(rooms: Rooms, sender: SocketId, classId: Option<ClassId>, e: Option<Event>): (out: seq<Emission>)
    ensures |out| <= 1
    ensures out == [] <==> !Truthy(classId) || e.None?
    ensures forall t {:trigger Inbox(out, t)} :: Inbox(out, t) ==
              if Truthy(classId) && e.Some? && InRoom(rooms, t, classId.value) && !InRoom(rooms, t, sender)
              then [e.value] else []
    ensures InOwnRoom(rooms, sender) ==> Inbox(out, sender) == []
  {
    if !Truthy(classId) || e.None? then []
    else
      var em := ToOthers(rooms, sender, classId.value, e.value);
      forall t ensures Inbox([em], t) == if InRoom(rooms, t, classId.value) && !InRoom(rooms, t, sender) then [e.value] else [] {
        InboxToOthers(rooms, sender, classId.value, e.value, t);
      }
      [em]
  }

  /** Forward `e` to the whole class room, sender included (`io.to(classId).emit`),
      unless the class id is falsy or the payload field is. */
  function ToRoomIf(rooms: Rooms, classId: Option<ClassId>, e: Option<Event>): (out: seq<Emission>)
    ensures |out| <= 1
    ensures out == [] <==> !Truthy(classId) || e.None?
    ensures forall t {:trigger Inbox(out, t)} :: Inbox(out, t) ==
              if Truthy(classId) && e.Some? && InRoom(rooms, t, classId.value) then [e.value] else []
  {
    if !Truthy(classId) || e.None? then []
    else
      var em := ToRoom(rooms, classId.value, e.value);
      forall t ensures Inbox([em], t) == if InRoom(rooms, t, classId.value) then [e.value] else [] {
        InboxToRoom(rooms, classId.value, e.value, t);
      }
      [em]
  }

  /** `webrtc-offer`: the description reaches every other socket of the room, none of its class id. */
  function OnOffer(rooms: Rooms, sender: SocketId, classId: Option<ClassId>, sdp: Option<Sdp>): (out: seq<Emission>)
    ensures |out| <= 1
    ensures out == [] <==> !Truthy(classId) || sdp.None?
    ensures forall t {:trigger Inbox(out, t)} :: Inbox(out, t) ==
              if Truthy(classId) && sdp.Some? && InRoom(rooms, t, classId.value) && !InRoom(rooms, t, sender)
              then [WebrtcOffer(sdp.value)] else []
    ensures InOwnRoom(rooms, sender) ==> Inbox(out, sender) == []
  {
    ToOthersIf(rooms, sender, classId, if sdp.Some? then Some(WebrtcOffer(sdp.value)) else None)
  }

  /** `webrtc-answer`: as an offer, under its own event name. */
  function OnAnswer(rooms: Rooms, sender: SocketId, classId: Option<ClassId>, sdp: Option<Sdp>): (out: seq<Emission>)
    ensures |out| <= 1
    ensures out == [] <==> !Truthy(classId) || sdp.None?
    ensures forall t {:trigger Inbox(out, t)} :: Inbox(out, t) ==
              if Truthy(classId) && sdp.Some? && InRoom(rooms, t, classId.value) && !InRoom(rooms, t, sender)
              then [WebrtcAnswer(sdp.value)] else []
    ensures InOwnRoom(rooms, sender) ==> Inbox(out, sender) == []
  {
    ToOthersIf(rooms, sender, classId, if sdp.Some? then Some(WebrtcAnswer(sdp.value)) else None)
  }

  /** `webrtc-ice-candidate`: the candidate reaches every other socket of the room. */
  function OnIceCandidate(rooms: Rooms, sender: SocketId, classId: Option<ClassId>, candidate: Option<Candidate>): (out: seq<Emission>)
    ensures |out| <= 1
    ensures out == [] <==> !Truthy(classId) || candidate.None?
    ensures forall t {:trigger Inbox(out, t)} :: Inbox(out, t) ==
              if Truthy(classId) && candidate.Some? && InRoom(rooms, t, classId.value) && !InRoom(rooms, t, sender)
              then [WebrtcIceCandidate(candidate.value)] else []
    ensures InOwnRoom(rooms, sender) ==> Inbox(out, sender) == []
  {
    ToOthersIf(rooms, sender, classId, if candidate.Some? then Some(WebrtcIceCandidate(candidate.value)) else None)
  }

  /** `draw`: the stroke reaches every other socket of the room, never its own author. */
  function OnDraw(rooms: Rooms, sender: SocketId, classId: Option<ClassId>, line: Option<Line>): (out: seq<Emission>)
    ensures |out| <= 1
    ensures out == [] <==> !Truthy(classId) || line.None?
    ensures forall t {:trigger Inbox(out, t)} :: Inbox(out, t) ==
              if Truthy(classId) && line.Some? && InRoom(rooms, t, classId.value) && !InRoom(rooms, t, sender)
              then [Draw(line.value)] else []
    ensures InOwnRoom(rooms, sender) ==> Inbox(out, sender) == []
  {
    ToOthersIf(rooms, sender, classId, if line.Some? then Some(Draw(line.value)) else None)
  }

  /** `chat-message`: `{from, text, time}` reaches every socket of the room, the sender's
      included when it is in the room. Only an empty text is dropped; `from` is passed on
      as the client sent it, even when missing. */
  function OnChatMessage(rooms: Rooms, classId: Option<ClassId>, from: Option<string>, text: Option<string>, now: Timestamp): (out: seq<Emission>)
    ensures |out| <= 1
    ensures out == [] <==> !Truthy(classId) || !Truthy(text)
    ensures forall t {:trigger Inbox(out, t)} :: Inbox(out, t) ==
              if Truthy(classId) && Truthy(text) && InRoom(rooms, t, classId.value)
              then [ChatMessage(from, text.value, now)] else []
  {
    ToRoomIf(rooms, classId, if Truthy(text) then Some(ChatMessage(from, text.value, now)) else None)
  }

  /** `clear-board`: reaches every socket of the room, the sender's included. */
  function OnClearBoard(rooms: Rooms, classId: Option<ClassId>): (out: seq<Emission>)
    ensures |out| <= 1
    ensures out == [] <==> !Truthy(classId)
    ensures forall t {:trigger Inbox(out, t)} :: Inbox(out, t) ==
              if Truthy(classId) && InRoom(rooms, t, classId.value) then [ClearBoard] else []
  {
    ToRoomIf(rooms, classId, Some(ClearBoard))
  }

  /** A text made only of blanks is not empty, so this handler forwards it to every socket
      of the room: nothing trims the text before the check. */
  lemma WhitespaceChatForwarded(rooms: Rooms, classId: ClassId, from: Option<string>, text: string,
                                now: Timestamp, t: SocketId)
    requires classId != "" && text != ""
    requires forall i :: 0 <= i < |text| ==> text[i] in {' ', '\t', '\n', '\r'}
    ensures InRoom(rooms, t, classId) ==>
              Inbox(OnChatMessage(rooms, Some(classId), from, Some(text), now), t) == [ChatMessage(from, text, now)]
  {
  }
}
