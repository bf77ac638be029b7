/** The `<book-chat>` web component (src/components/WebComponents/BookChat.js):
    its state, its methods, and the socket's events as method calls. The socket
    is modelled by whether one exists and the log of what was emitted on it. */
module BookChat {
  import opened Js
  import opened Text

  /** An event emitted on the socket with its payload. */
  datatype Emit = Emit(event: string, payload: Value)

  class BookChat {
    var hasSocket: bool
    var messages: seq<Value>
    var isConnected: bool
    var isOpen: bool
    var onlineUsers: Value
    var username: Value
    var emitted: seq<Emit>

    /** The constructor reads the 'username' attribute, '' when it is absent or empty. */
    constructor (usernameAttribute: Value)
      ensures !hasSocket && messages == [] && !isConnected && !isOpen && onlineUsers == Arr([])
      ensures username == Or(usernameAttribute, Str("")) && emitted == []
    {
      hasSocket := false;
      messages := [];
      isConnected := false;
      isOpen := false;
      onlineUsers := Arr([]);
      username := Or(usernameAttribute, Str(""));
      emitted := [];
    }

    /** `attributeChangedCallback(name, oldValue, newValue)`: only a real change of
        the 'username' attribute changes the user name. */
    method AttributeChanged(name: string, oldValue: Value, newValue: Value)
      modifies this`username
      ensures username == if oldValue != newValue && name == "username" then newValue else old(username)
    {
      if oldValue != newValue {
        if name == "username" {
          username := newValue;
        }
      }
    }

    /** `connectedCallback()`: a socket is opened only when both the address and the user name are set. */
    method Connected(wsUrl: Value)
      modifies this`hasSocket
      ensures hasSocket == (old(hasSocket) || (Truthy(wsUrl) && Truthy(username)))
    {
      if Truthy(wsUrl) && Truthy(username) {
        ConnectWebSocket();
      }
    }

    /** `connectWebSocket(url)`: any previous socket is replaced by a new one. */
    method ConnectWebSocket()
      modifies this`hasSocket
      ensures hasSocket
    {
      hasSocket := true;
    }

    /** `disconnectWebSocket()`, also `disconnectedCallback()`. */
    method DisconnectWebSocket()
      modifies this`hasSocket
      ensures !hasSocket
    {
      if hasSocket {
        hasSocket := false;
      }
    }

    /** The socket's 'connect' event: connected, then the join is emitted. */
    method OnConnect()
      requires hasSocket
      modifies this`isConnected, this`emitted
      ensures isConnected
      ensures emitted == old(emitted) + [Emit("user:join", Obj(map["username" := username]))]
    {
      isConnected := true;
      emitted := emitted + [Emit("user:join", Obj(map["username" := username]))];
    }

    /** The socket's 'disconnect' event. */
    method OnDisconnect()
      modifies this`isConnected
      ensures !isConnected
    {
      isConnected := false;
    }

    /** `addMessage(message)`, also the 'message:new' event: exactly one message appended. */
    method AddMessage(message: Value)
      modifies this`messages
      ensures messages == old(messages) + [message]
    {
      messages := messages + [message];
    }

    /** The 'messages:history' event replaces the messages wholesale. */
    method OnHistory(history: seq<Value>)
      modifies this`messages
      ensures messages == history
    {
      messages := history;
    }

    /** The 'users:online' event. */
    method OnUsersOnline(users: Value)
      modifies this`onlineUsers
      ensures onlineUsers == users
    {
      onlineUsers := users;
    }

    /** `sendMessage(text)`: nothing is emitted for blank text, without a socket or
        while disconnected; otherwise the text, untrimmed, with the user name. */
    method SendMessage(text: string)
      modifies this`emitted
      ensures Trim(text) == "" || !hasSocket || !isConnected ==> emitted == old(emitted)
      ensures Trim(text) != "" && hasSocket && isConnected ==>
                emitted == old(emitted) + [Emit("message:send", Obj(map["text" := Str(text), "username" := username]))]
    {
      if Trim(text) == "" || !hasSocket || !isConnected {
        return;
      }
      emitted := emitted + [Emit("message:send", Obj(map["text" := Str(text), "username" := username]))];
    }

    /** `toggleChat()` */
    method ToggleChat()
      modifies this`isOpen
      ensures isOpen == !old(isOpen)
    {
      isOpen := !isOpen;
    }
  }

  /** Toggling twice restores the open state. */
  method ToggleTwice(c: BookChat)
    modifies c
    ensures c.isOpen == old(c.isOpen)
  {
    c.ToggleChat();
    c.ToggleChat();
  }

  /** A chat opened without a user name never connects, so sending emits nothing. */
  method NoUserNoSocket(wsUrl: Value, text: string) returns (c: BookChat)
    ensures !c.hasSocket && c.emitted == []
  {
    c := new BookChat(Null);
    c.Connected(wsUrl);
    c.SendMessage(text);
  }
}
