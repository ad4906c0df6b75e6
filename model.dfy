/** The records the chat server keeps in memory and the events it pushes to
    connected clients. Emails identify users, Socket.IO ids identify
    connections, and a group is named by the decimal clock reading taken
    when it was created. */
module Model {
  import opened Text

  datatype Option<T> = None | Some(value: T)

  type Email = string
  type SocketId = string
  type GroupId = string
  /** WebRTC signalling data: the server passes it on without looking at it. */
  type Signal = string

  /** The only statuses the server ever writes; `read` is never set. */
  datatype Status = Sent | Delivered

  /** An entry of the `users` registry. */
  datatype User = User(username: string, email: Email, lastSeen: string, isOnline: bool, groups: seq<GroupId>)

  /** What the user list exposes of a user. */
  datatype UserSummary = UserSummary(username: string, email: Email, isOnline: bool, lastSeen: string)

  function Summary(u: User): (s: UserSummary) {
    UserSummary(u.username, u.email, u.isOnline, u.lastSeen)
  }

  /** An entry of the `groups` registry. */
  datatype Group = Group(id: GroupId, name: string, creator: Email, members: seq<Email>, admins: seq<Email>, createdAt: string)

  /** The client-supplied part of a `send_message` event. */
  datatype Content = Content(text: Option<string>, kind: Option<string>, fileUrl: Option<string>,
                             fileName: Option<string>, fileType: Option<string>)

  /** A stored message; a direct message has no `isGroup` field in the
      source, which reads as false here. */
  datatype Message = Message(id: string, text: Option<string>, timestamp: string, sender: Email, receiver: string,
                             kind: string, fileUrl: Option<string>, fileName: Option<string>,
                             fileType: Option<string>, isGroup: bool, status: Status)

  /** The message a `send_message` event builds before anything is routed:
      status `sent`, kind `text` unless the client named one. */
  function Stamp(id: string, c: Content, timestamp: string, sender: Email, receiver: string, isGroup: bool): (m: Message)
    ensures m.status == Sent && m.isGroup == isGroup && m.sender == sender && m.receiver == receiver
    ensures m.kind == (if c.kind.Some? then c.kind.value else "text")
  {
    Message(id, c.text, timestamp, sender, receiver,
            if c.kind.Some? then c.kind.value else "text",
            c.fileUrl, c.fileName, c.fileType, isGroup, Sent)
  }

  /** Outbound events, each with the payload it carries. On the wire they
      are `user_list_updated`, `user_typing`, `user_stopped_typing`,
      `message_read_confirmation`, `receive_message`, `message_status_update`,
      `message_history`, `call_user`, `call_accepted` and `call_ended`. */
  datatype Event =
    | UserListUpdated(users: seq<UserSummary>)
    | UserTyping(typist: Email, group: Option<GroupId>)
    | UserStoppedTyping(typist: Email, group: Option<GroupId>)
    | MessageReadConfirmation(messageId: string, reader: Email)
    | ReceiveMessage(message: Message)
    | MessageStatusUpdate(statusOf: string, status: Status)
    | MessageHistory(history: seq<Message>)
    | IncomingCall(signal: Signal, from: Email, callerName: string, isVideo: bool)
    | CallAccepted(answer: Signal)
    | CallEnded

  /** Where an event goes: one socket, every socket, or back to the socket
      the inbound event came from. */
  datatype Target = ToSocket(socket: SocketId) | Broadcast | Reply

  datatype Outbound = Outbound(target: Target, event: Event)

  /** The room key of a direct conversation: the two emails sorted and
      joined with an underscore. */
  function DirectKey(sender: Email, receiver: Email): (key: string)
    ensures key == sender + "_" + receiver || key == receiver + "_" + sender
    ensures LexLe(sender, receiver) ==> key == sender + "_" + receiver
    ensures LexLe(receiver, sender) ==> key == receiver + "_" + sender
  {
    var pair := SortPair(sender, receiver);
    if LexLe(sender, receiver) && LexLe(receiver, sender) then
      LexLeAntisymmetric(sender, receiver);
      pair[0] + "_" + pair[1]
    else
      pair[0] + "_" + pair[1]
  }

  /** The key of the message log an event addresses: the group id itself for
      a group, the direct key otherwise. */
  function ConversationKey(sender: Email, receiver: string, isGroup: bool): (key: string)
    ensures isGroup ==> key == receiver
    ensures !isGroup ==> key == DirectKey(receiver, sender) && !AllDigits(key)
  {
    if isGroup then receiver
    else
      DirectKeySymmetric(sender, receiver);
      DirectKeyIsNoGroupId(sender, receiver);
      DirectKey(sender, receiver)
  }

  /** The log a stored message belongs to. */
  function KeyOf(m: Message): (key: string) {
    ConversationKey(m.sender, m.receiver, m.isGroup)
  }

  /** Both parties of a direct conversation address the same log. */
  lemma DirectKeySymmetric(a: Email, b: Email)
    ensures DirectKey(a, b) == DirectKey(b, a)
  {
    SortPairSymmetric(a, b);
  }

  /** A direct key always holds an underscore, so it is never a group id
      (a string of decimal digits): direct and group logs never share a key. */
  lemma DirectKeyIsNoGroupId(a: Email, b: Email)
    ensures !AllDigits(DirectKey(a, b))
  {
    var key := DirectKey(a, b);
    LexLeTotal(a, b);
    var i := if LexLe(a, b) then |a| else |b|;
    assert key[i] == '_' && !IsDigit(key[i]);
  }

  /** The key does not tell which pair it came from: an underscore inside an
      email lets two different pairs of users share one log. */
  lemma DirectKeyAmbiguous()
    ensures DirectKey("ann@x.io", "bob_carl@y.io") == DirectKey("ann@x.io_bob", "carl@y.io")
  {
    assert LexLe("ann@x.io", "bob_carl@y.io");
    assert LexLe("ann@x.io_bob", "carl@y.io");
  }

  /** The user list sent to clients: one summary per email of `order`, in order. */
  function Summaries(order: seq<Email>, users: map<Email, User>): (list: seq<UserSummary>)
    requires forall i :: 0 <= i < |order| ==> order[i] in users
    ensures |list| == |order|
    decreases |order|
  {
    if order == [] then [] else Summaries(order[..|order| - 1], users) + [Summary(users[order[|order| - 1]])]
  }

  /** The list has one entry per email of `order`, each the summary of that user. */
  lemma {:induction false} SummariesExact(order: seq<Email>, users: map<Email, User>)
    requires forall i :: 0 <= i < |order| ==> order[i] in users
    ensures var list := Summaries(order, users);
            |list| == |order| && forall i :: 0 <= i < |list| ==> list[i] == Summary(users[order[i]])
    decreases |order|
  {
    if order != [] {
      SummariesExact(order[..|order| - 1], users);
    }
  }
}
