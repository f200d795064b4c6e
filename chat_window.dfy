/** The direct-message window: the room id two users share, the optimistic append of a
    sent message and the append of a received one. */
module ChatWindow {
  import opened Optional
  import Strings

  /** `[id1, id2].sort().join('_')`: the two ids in ascending string order. */
  function RoomId(a: string, b: string): (room: string)
    ensures (room == a + "_" + b && !Strings.LexLess(b, a))
         || (room == b + "_" + a && Strings.LexLess(b, a))
  {
    if Strings.LexLess(b, a) then b + "_" + a else a + "_" + b
  }

  /** Both users compute the same room. */
  lemma RoomIdSymmetric(a: string, b: string)
    ensures RoomId(a, b) == RoomId(b, a)
  {
    Strings.LexLessAsymmetric(a, b);
    if a != b {
      Strings.LexLessTotal(a, b);
    }
  }

  /** A history entry: the sender's id, the text, the creation time. */
  datatype Entry = Entry(sender: string, text: string, createdAt: string)

  /** The `send_message` socket payload. */
  datatype Outgoing = Outgoing(senderId: string, receiverId: string, text: string, room: string)

  /** The window as opened for the signed-in user `me` and the partner `peer`. */
  class ChatWindowState {
    const me: string
    const peer: string
    var message: string
    var chatHistory: seq<Entry>
    /** The room the socket joined when the window opened. */
    const joinedRoom: string

    /** The joined room is the pair's shared room. */
    ghost predicate Valid() {
      joinedRoom == RoomId(me, peer)
    }

    /** Opening: join the shared room, start with an empty input and history. */
    constructor (me: string, peer: string)
      ensures this.me == me && this.peer == peer
      ensures joinedRoom == RoomId(me, peer) && Valid()
      ensures message == "" && chatHistory == []
    {
      this.me := me;
      this.peer := peer;
      joinedRoom := RoomId(me, peer);
      message := "";
      chatHistory := [];
    }

    /** The history fetched from the server replaces the list. */
    method LoadHistory(data: seq<Entry>)
      modifies this
      ensures chatHistory == data
      ensures message == old(message)
    {
      chatHistory := data;
    }

    /** Typing into the input. */
    method SetMessage(text: string)
      modifies this
      ensures message == text
      ensures chatHistory == old(chatHistory)
    {
      message := text;
    }

    /** `receive_message`: the incoming entry goes to the end of the history. */
    method ReceiveMessage(incoming: Entry)
      modifies this
      ensures chatHistory == old(chatHistory) + [incoming]
      ensures message == old(message)
    {
      chatHistory := chatHistory + [incoming];
    }

    /** `handleSendMessage` at time `now`: nothing for a blank input; otherwise emit to
        the room joined at opening, append one own entry and clear the input. */
    method SendMessage(now: string) returns (emitted: Option<Outgoing>)
      requires Valid()
      modifies this
      ensures Strings.IsBlank(old(message)) ==>
        emitted == None && chatHistory == old(chatHistory) && message == old(message)
      ensures !Strings.IsBlank(old(message)) ==>
        && emitted == Some(Outgoing(me, peer, old(message), joinedRoom))
        && chatHistory == old(chatHistory) + [Entry(me, old(message), now)]
        && message == ""
    {
      if Strings.IsBlank(message) {
        return None;
      }
      var roomId := RoomId(me, peer);
      emitted := Some(Outgoing(me, peer, message, roomId));
      chatHistory := chatHistory + [Entry(me, message, now)];
      message := "";
    }
  }
}
