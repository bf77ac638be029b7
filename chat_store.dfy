/** The chat store (src/stores/useChatStore.js): messages, connection flag,
    online users and the count of messages not yet seen. */
module ChatStore {
  import opened Js

  datatype ChatState = ChatState(messages: seq<Value>, isConnected: bool, onlineUsers: Value, unreadCount: nat)

  /** No messages, disconnected, nobody online, nothing unread. */
  function Initial(): (s: ChatState)
    ensures s.messages == [] && !s.isConnected && s.onlineUsers == Arr([]) && s.unreadCount == 0
  {
    ChatState([], false, Arr([]), 0)
  }

  /** `addMessage(message)`: appended at the end, one more unread. */
  function AddMessage(s: ChatState, message: Value): (r: ChatState)
    ensures r.messages == s.messages + [message] && r.unreadCount == s.unreadCount + 1
    ensures r.isConnected == s.isConnected && r.onlineUsers == s.onlineUsers
  {
    s.(messages := s.messages + [message], unreadCount := s.unreadCount + 1)
  }

  /** `setMessages(messages)`: the list is replaced, the unread count kept. */
  function SetMessages(s: ChatState, messages: seq<Value>): (r: ChatState)
    ensures r.messages == messages && r.(messages := s.messages) == s
  {
    s.(messages := messages)
  }

  /** `setConnected(isConnected)` changes the connection flag only. */
  function SetConnected(s: ChatState, isConnected: bool): (r: ChatState)
    ensures r.isConnected == isConnected && r.(isConnected := s.isConnected) == s
  {
    s.(isConnected := isConnected)
  }

  /** `setOnlineUsers(users)` changes the online users only. */
  function SetOnlineUsers(s: ChatState, users: Value): (r: ChatState)
    ensures r.onlineUsers == users && r.(onlineUsers := s.onlineUsers) == s
  {
    s.(onlineUsers := users)
  }

  /** `resetUnreadCount()`: nothing unread, the messages untouched. */
  function ResetUnreadCount(s: ChatState): (r: ChatState)
    ensures r.unreadCount == 0 && r.(unreadCount := s.unreadCount) == s
  {
    s.(unreadCount := 0)
  }

  /** `clearMessages()`: no messages and nothing unread. */
  function ClearMessages(s: ChatState): (r: ChatState)
    ensures r.messages == [] && r.unreadCount == 0
    ensures r.isConnected == s.isConnected && r.onlineUsers == s.onlineUsers
  {
    s.(messages := [], unreadCount := 0)
  }

  /** The state after each of the messages arrives in turn. */
  function AddMessages(s: ChatState, ms: seq<Value>): ChatState
    decreases |ms|
  {
    if ms == [] then s else AddMessage(AddMessages(s, ms[..|ms| - 1]), ms[|ms| - 1])
  }

  /** Arriving messages are appended in order and each counts once as unread. */
  lemma {:induction false} AddMessagesAppends(s: ChatState, ms: seq<Value>)
    ensures AddMessages(s, ms).messages == s.messages + ms
    ensures AddMessages(s, ms).unreadCount == s.unreadCount + |ms|
    ensures AddMessages(s, ms).isConnected == s.isConnected && AddMessages(s, ms).onlineUsers == s.onlineUsers
    decreases |ms|
  {
    if ms != [] {
      AddMessagesAppends(s, ms[..|ms| - 1]);
      assert ms == ms[..|ms| - 1] + [ms[|ms| - 1]];
    }
  }

  /** After a reset, the unread count is the number of messages received since. */
  lemma UnreadSinceReset(s: ChatState, ms: seq<Value>)
    ensures AddMessages(ResetUnreadCount(s), ms).unreadCount == |ms|
    ensures AddMessages(ResetUnreadCount(s), ms).messages == s.messages + ms
  {
    AddMessagesAppends(ResetUnreadCount(s), ms);
  }

  /** After clearing, the list is exactly the messages received since, all unread. */
  lemma ClearThenReceive(s: ChatState, ms: seq<Value>)
    ensures AddMessages(ClearMessages(s), ms).messages == ms
    ensures AddMessages(ClearMessages(s), ms).unreadCount == |ms|
  {
    AddMessagesAppends(ClearMessages(s), ms);
  }
}
