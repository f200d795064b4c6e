/** The client reducer for the direct-message window: whether it is open and with whom. */
module ChatSlice {
  import opened Optional

  /** The user the window chats with. */
  datatype ChatUser = ChatUser(id: string, name: string)

  class ChatState {
    var isOpen: bool
    var activeChatUser: Option<ChatUser>

    /** The window is open exactly when it has a partner. */
    ghost predicate Valid()
      reads this
    {
      isOpen <==> activeChatUser.Some?
    }

    constructor ()
      ensures !isOpen && activeChatUser == None
      ensures Valid()
    {
      isOpen := false;
      activeChatUser := None;
    }

    /** `openChat`: a `null` payload opens the window without a partner. */
    method OpenChat(payload: Option<ChatUser>)
      modifies this
      ensures isOpen && activeChatUser == payload
      ensures payload.Some? ==> Valid()
    {
      isOpen := true;
      activeChatUser := payload;
    }

    /** `closeChat`. */
    method CloseChat()
      modifies this
      ensures !isOpen && activeChatUser == None
      ensures Valid()
    {
      isOpen := false;
      activeChatUser := None;
    }
  }

  /** Closing twice leaves the same state as closing once. */
  method CloseChatTwice(c: ChatState)
    modifies c
    ensures !c.isOpen && c.activeChatUser == None
  {
    c.CloseChat();
    ghost var isOpenOnce, userOnce := c.isOpen, c.activeChatUser;
    c.CloseChat();
    assert c.isOpen == isOpenOnce && c.activeChatUser == userOnce;
  }
}
