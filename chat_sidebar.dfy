/** The chat sidebar (src/components/Chat/ChatSidebar.jsx): its own state,
    the chat store it updates, and the socket, modelled by whether one has been
    opened and the log of what was emitted on it. React effects and socket
    events are methods the environment calls. */
module ChatSidebar {
  import opened Js
  import opened Text
  import opened ChatStore
  import opened ChatLinks
  import opened BookChat

  class ChatSidebar {
    var isOpen: bool
    var inputMessage: string
    var username: string
    var showUsernameInput: bool
    var usernameError: string
    var hasSocket: bool
    var emitted: seq<Emit>
    var store: ChatState

    /** The first render: closed, empty inputs, the name form shown, no socket. */
    constructor (store: ChatState)
      ensures !isOpen && inputMessage == "" && username == "" && showUsernameInput && usernameError == ""
      ensures !hasSocket && emitted == [] && this.store == store
    {
      isOpen := false;
      inputMessage := "";
      username := "";
      showUsernameInput := true;
      usernameError := "";
      hasSocket := false;
      emitted := [];
      this.store := store;
    }

    /** Typing in the name field sets the name and clears any error. */
    method UsernameInput(value: string)
      modifies this`username, this`usernameError
      ensures username == value && usernameError == ""
    {
      username := value;
      if usernameError != "" {
        usernameError := "";
      }
    }

    /** Typing in the message field. */
    method MessageInput(value: string)
      modifies this`inputMessage
      ensures inputMessage == value
    {
      inputMessage := value;
    }

    /** `handleUsernameSubmit`: an accepted name hides the form; a rejected
        one reports the first failing check and keeps the form. */
    method UsernameSubmit()
      modifies this`usernameError, this`showUsernameInput
      ensures UsernameError(username).Some? ==>
                usernameError == UsernameError(username).value && showUsernameInput == old(showUsernameInput)
      ensures UsernameError(username).None? ==> usernameError == "" && !showUsernameInput
    {
      var e := UsernameError(username);
      match e
      case Some(message) =>
        usernameError := message;
      case None =>
        usernameError := "";
        showUsernameInput := false;
    }

    /** The connection effect: a socket is opened once the form is gone and a name is set. */
    method ConnectEffect()
      modifies this`hasSocket
      ensures hasSocket == (old(hasSocket) || (!showUsernameInput && username != ""))
    {
      if !showUsernameInput && username != "" {
        hasSocket := true;
      }
    }

    /** The effect's cleanup disconnects the socket but keeps the reference to
        it, and marks the store disconnected. */
    method ConnectCleanup()
      modifies this`store
      ensures store == SetConnected(old(store), false)
    {
      store := SetConnected(store, false);
    }

    /** The socket's 'connect' event: connected, then the join is emitted. */
    method OnConnect()
      modifies this`store, this`emitted
      ensures store == SetConnected(old(store), true)
      ensures emitted == old(emitted) + [Emit("user:join", Obj(map["username" := Str(username)]))]
    {
      store := SetConnected(store, true);
      emitted := emitted + [Emit("user:join", Obj(map["username" := Str(username)]))];
    }

    /** The socket's 'disconnect' event. */
    method OnDisconnect()
      modifies this`store
      ensures store == SetConnected(old(store), false)
    {
      store := SetConnected(store, false);
    }

    /** The socket's 'message:new' event. */
    method OnNewMessage(message: Value)
      modifies this`store
      ensures store == AddMessage(old(store), message)
    {
      store := AddMessage(store, message);
    }

    /** The socket's 'messages:history' event. */
    method OnHistory(history: seq<Value>)
      modifies this`store
      ensures store == SetMessages(old(store), history)
    {
      store := SetMessages(store, history);
    }

    /** The socket's 'users:online' event. */
    method OnUsersOnline(users: Value)
      modifies this`store
      ensures store == SetOnlineUsers(old(store), users)
    {
      store := SetOnlineUsers(store, users);
    }

    /** The unread effect: while connected with the sidebar open, nothing is unread. */
    method UnreadEffect()
      modifies this`store
      ensures store.isConnected && isOpen ==> store == ResetUnreadCount(old(store))
      ensures !(store.isConnected && isOpen) ==> store == old(store)
    {
      if store.isConnected && isOpen {
        store := ResetUnreadCount(store);
      }
    }

    /** `handleSendMessage`: nothing happens for blank input, without a socket
        or while disconnected; otherwise the payload is emitted and the input cleared. */
    method SendMessage()
      modifies this`emitted, this`inputMessage
      ensures !CanSend(old(inputMessage), hasSocket, store.isConnected) ==>
                emitted == old(emitted) && inputMessage == old(inputMessage)
      ensures CanSend(old(inputMessage), hasSocket, store.isConnected) ==>
                emitted == old(emitted) + [Emit("message:send", SendPayload(old(inputMessage), username))] &&
                inputMessage == ""
    {
      if !CanSend(inputMessage, hasSocket, store.isConnected) {
        return;
      }
      emitted := emitted + [Emit("message:send", SendPayload(inputMessage, username))];
      inputMessage := "";
    }

    /** `handleToggle`: open becomes closed and back; opening clears the unread count. */
    method Toggle()
      modifies this`isOpen, this`store
      ensures isOpen == !old(isOpen)
      ensures isOpen ==> store == ResetUnreadCount(old(store))
      ensures !isOpen ==> store == old(store)
    {
      isOpen := !isOpen;
      if isOpen {
        store := ResetUnreadCount(store);
      }
    }

    /** Toggling twice restores whether the sidebar is open and keeps the messages. */
    method ToggleTwice()
      modifies this`isOpen, this`store
      ensures isOpen == old(isOpen)
      ensures store.messages == old(store.messages) && store.isConnected == old(store.isConnected)
    {
      Toggle();
      Toggle();
    }
  }
}
