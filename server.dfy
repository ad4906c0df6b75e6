/** The server's in-memory state and its REST and socket handlers. Every
    handler takes the event's fields, plus the clock reading and the ISO
    timestamp the source would read from `Date.now()` and `new Date()`,
    updates the registries in place and returns the events it emits. */
module Server {
  import opened Text
  import opened Model
  import opened Routing
  import opened Membership

  /** Reply of `POST /api/register`: 201 with the new user, or 400. */
  datatype Registration = Created(username: string, email: Email) | AlreadyExists

  class ChatServer {
    /** Users by email. */
    var users: map<Email, User>
    /** The order in which emails were first added to `users` (the
        iteration order of the JavaScript Map). */
    var userOrder: seq<Email>
    /** The current socket of each connected email; a new connection
        replaces the old one. */
    var userSockets: map<Email, SocketId>
    /** Message logs by conversation key. */
    var messages: map<string, seq<Message>>
    /** Groups by id. */
    var groups: map<GroupId, Group>
    /** The email each socket announced in `user_connected` (the
        `socket.userEmail` attribute); it outlives the binding. */
    var socketEmail: map<SocketId, Email>

    ghost predicate Valid()
      reads this
    {
      && OrderValid(users, userOrder)
      && PresenceValid(users, userSockets, socketEmail)
      && MembershipValid(users, groups)
      && LogsValid(messages, groups)
    }

    constructor ()
      ensures Valid()
      ensures users == map[] && userOrder == [] && userSockets == map[]
      ensures messages == map[] && groups == map[] && socketEmail == map[]
    {
      users, userOrder, userSockets := map[], [], map[];
      messages, groups, socketEmail := map[], map[], map[];
    }

    /** The log under `key`, or the empty log when there is none. */
    function History(key: string): (log: seq<Message>)
      reads this
      ensures key in messages ==> log == messages[key]
      ensures key !in messages ==> log == []
    {
      if key in messages then messages[key] else []
    }

    /** `GET /api/users`, and the payload of every `user_list_updated`:
        each known user once, in registration order, with its presence. */
    function UserList(): (list: seq<UserSummary>)
      reads this
      requires Valid()
      ensures |list| == |users|
    {
      OrderCoversUsers();
      SummariesExact(userOrder, users);
      Summaries(userOrder, users)
    }

    /** The user list names every known user exactly once, and shows a user
        online exactly when it has a socket binding. */
    lemma UserListComplete()
      requires Valid()
      ensures var list := UserList();
              && (forall i :: 0 <= i < |list| ==> list[i].email in users && list[i] == Summary(users[list[i].email]))
              && (forall e :: e in users ==> exists i :: 0 <= i < |list| && list[i].email == e)
              && (forall i, j :: 0 <= i < j < |list| ==> list[i].email != list[j].email)
              && (forall i :: 0 <= i < |list| ==> (list[i].isOnline <==> list[i].email in userSockets))
    {
      var list := UserList();
      OrderCoversUsers();
      SummariesExact(userOrder, users);
      assert forall i :: 0 <= i < |list| ==> list[i].email == userOrder[i];
      forall e | e in users
        ensures exists i :: 0 <= i < |list| && list[i].email == e
      {
        var i :| 0 <= i < |userOrder| && userOrder[i] == e;
        assert list[i].email == e;
      }
    }

    /** `userOrder` lists each key of `users` once, so it is as long as `users`. */
    lemma OrderCoversUsers()
      requires Valid()
      ensures |userOrder| == |users|
      ensures forall i :: 0 <= i < |userOrder| ==> userOrder[i] in users
    {
      DistinctCard(userOrder, users.Keys);
      assert |users.Keys| == |users|;
    }

    /** `GET /api/groups/:email`: the groups the user lists, in the order it
        joined them, or 404 for an unknown email. */
    function GroupsOf(email: Email): (r: Option<seq<Group>>)
      reads this
      requires Valid()
      ensures r.None? <==> email !in users
      ensures r.Some? ==> |r.value| == |users[email].groups|
      ensures r.Some? ==> forall i :: 0 <= i < |r.value| ==>
                r.value[i].id == users[email].groups[i] && r.value[i] == groups[users[email].groups[i]]
    {
      if email !in users then None
      else
        var ids := users[email].groups;
        var table := groups;
        Some(seq(|ids|, i requires 0 <= i < |ids| && ids[i] in table => table[ids[i]]))
    }

    /** A log never mixes the two kinds of conversation: the log under a group
        id holds only group messages, every other log only direct ones. */
    lemma LogsAreHomogeneous()
      requires Valid()
      ensures forall k, i :: k in messages && 0 <= i < |messages[k]| ==> (messages[k][i].isGroup <==> k in groups)
    {
      forall k, i | k in messages && 0 <= i < |messages[k]|
        ensures messages[k][i].isGroup <==> k in groups
      {
        var m := messages[k][i];
        if !m.isGroup {
          DirectKeyIsNoGroupId(m.sender, m.receiver);
        }
      }
    }

    /** `POST /api/register`: adds an offline user with no groups, or refuses
        an email that is already known and changes nothing. */
    method Register(username: string, email: Email, now: string) returns (r: Registration)
      requires Valid()
      modifies this
      ensures Valid()
      ensures r == (if email in old(users) then AlreadyExists else Created(username, email))
      ensures email in old(users) ==> users == old(users) && userOrder == old(userOrder)
      ensures email !in old(users) ==>
                users == old(users)[email := User(username, email, now, false, [])] &&
                userOrder == old(userOrder) + [email]
      ensures userSockets == old(userSockets) && messages == old(messages)
      ensures groups == old(groups) && socketEmail == old(socketEmail)
    {
      if email in users {
        return AlreadyExists;
      }
      var user := User(username, email, now, false, []);
      OrderWithNewUser(users, userOrder, user);
      PresenceOnRegister(users, userSockets, socketEmail, user);
      MembershipWithUser(users, groups, user);
      users := users[email := user];
      userOrder := userOrder + [email];
      r := Created(username, email);
    }

    /** `POST /api/groups`: stores the group under the clock reading with
        members `members ++ [creator]` and the creator as only admin, then
        appends the id to the `groups` of each member that is a known user. */
    method CreateGroup(name: string, creator: Email, members: seq<Email>, clock: nat, now: string) returns (g: Group)
      requires Valid()
      modifies this
      ensures Valid()
      ensures g == Group(Decimal(clock), name, creator, members + [creator], [creator], now)
      ensures groups == old(groups)[g.id := g]
      ensures users == WithGroupListed(old(users), g.members, g.id)
      ensures userOrder == old(userOrder) && userSockets == old(userSockets)
      ensures messages == old(messages) && socketEmail == old(socketEmail)
    {
      var gid := Decimal(clock);
      g := Group(gid, name, creator, members + [creator], [creator], now);
      groups := groups[gid := g];
      ghost var users0 := users;
      ListGroup(g.members, gid);
      DirectoryAfterCreate(users0, userOrder, userSockets, socketEmail, old(groups), g.members, g);
      LogsWithMoreGroups(messages, old(groups), g);
    }

    /** The loop of `POST /api/groups` over the stored member list: each
        member that is a known user gets `gid` appended to its `groups`. */
    method ListGroup(members: seq<Email>, gid: GroupId)
      modifies this
      ensures users == WithGroupListed(old(users), members, gid)
      ensures groups == old(groups) && userOrder == old(userOrder) && userSockets == old(userSockets)
      ensures messages == old(messages) && socketEmail == old(socketEmail)
    {
      WithGroupListedNone(users, gid);
      var i := 0;
      while i < |members|
        invariant 0 <= i <= |members|
        invariant users == WithGroupListed(old(users), members[..i], gid)
        invariant groups == old(groups) && userOrder == old(userOrder) && userSockets == old(userSockets)
        invariant messages == old(messages) && socketEmail == old(socketEmail)
      {
        var member := members[i];
        WithGroupListedStep(old(users), members[..i], member, gid);
        assert members[..i + 1] == members[..i] + [member];
        if member in users {
          var user := users[member];
          users := users[member := user.(groups := user.groups + [gid])];
        }
        i := i + 1;
      }
      assert members[..|members|] == members;
    }

    /** `user_connected`: creates the user online with no groups, or marks a
        known one online with a new `lastSeen` (its name is kept); binds the
        email to this socket, replacing any earlier binding, and broadcasts
        the user list. */
    method UserConnected(socket: SocketId, username: string, email: Email, now: string) returns (out: seq<Outbound>)
      requires Valid()
      modifies this
      ensures Valid()
      ensures email !in old(users) ==>
                users == old(users)[email := User(username, email, now, true, [])] &&
                userOrder == old(userOrder) + [email]
      ensures email in old(users) ==>
                users == old(users)[email := old(users)[email].(isOnline := true, lastSeen := now)] &&
                userOrder == old(userOrder)
      ensures userSockets == old(userSockets)[email := socket]
      ensures socketEmail == old(socketEmail)[socket := email]
      ensures messages == old(messages) && groups == old(groups)
      ensures out == [Outbound(Broadcast, UserListUpdated(Summaries(userOrder, users)))]
    {
      var user;
      if email !in users {
        user := User(username, email, now, true, []);
        OrderWithNewUser(users, userOrder, user);
        userOrder := userOrder + [email];
      } else {
        user := users[email].(isOnline := true, lastSeen := now);
        OrderWithUpdatedUser(users, userOrder, user);
      }
      PresenceOnConnect(users, userSockets, socketEmail, user, socket);
      MembershipWithUser(users, groups, user);
      users := users[email := user];
      userSockets := userSockets[email := socket];
      socketEmail := socketEmail[socket := email];
      out := [Outbound(Broadcast, UserListUpdated(Summaries(userOrder, users)))];
    }

    /** `typing_start` (stopped = false) and `typing_stop` (stopped = true):
        to every bound member of the group other than the sender, or to the
        bound receiver of a direct conversation. An unknown group gets
        nothing. No state changes. */
    method Typing(stopped: bool, sender: Email, receiver: string, isGroup: bool) returns (out: seq<Outbound>)
      ensures var ev := if stopped then UserStoppedTyping(sender, if isGroup then Some(receiver) else None)
                        else UserTyping(sender, if isGroup then Some(receiver) else None);
              && (isGroup && receiver !in groups ==> out == [])
              && (isGroup && receiver in groups ==>
                    out == Deliveries(Recipients(groups[receiver].members, sender, userSockets), ev))
              && (!isGroup && receiver in userSockets ==> out == [Outbound(ToSocket(userSockets[receiver]), ev)])
              && (!isGroup && receiver !in userSockets ==> out == [])
    {
      if isGroup {
        var ev := if stopped then UserStoppedTyping(sender, Some(receiver)) else UserTyping(sender, Some(receiver));
        if receiver in groups {
          out := FanOut(groups[receiver].members, sender, userSockets, ev);
        } else {
          out := [];
        }
      } else {
        var ev := if stopped then UserStoppedTyping(sender, None) else UserTyping(sender, None);
        out := if receiver in userSockets then [Outbound(ToSocket(userSockets[receiver]), ev)] else [];
      }
    }

    /** `message_read`: for a direct message, tells the original sender's
        socket, if any; group reads are ignored. No status is changed. */
    method MessageRead(messageId: string, sender: Email, receiver: Email, isGroup: bool) returns (out: seq<Outbound>)
      ensures |out| <= 1
      ensures out != [] <==> !isGroup && sender in userSockets
      ensures out != [] ==> out[0] == Outbound(ToSocket(userSockets[sender]), MessageReadConfirmation(messageId, receiver))
    {
      out := [];
      if !isGroup && sender in userSockets {
        out := [Outbound(ToSocket(userSockets[sender]), MessageReadConfirmation(messageId, receiver))];
      }
    }

    /** `send_message`. A group message to an unknown group is dropped. A
        group message is appended to the group's log with status `sent`,
        sent to every bound member but the sender, and echoed to the sender.
        A direct message is appended to the pair's log; when the receiver is
        bound it is sent there, the stored message becomes `delivered` and
        the receiver is told so; the sender's echo carries the final status. */
    method SendMessage(sender: Email, receiver: string, content: Content, isGroup: bool, clock: nat, now: string)
      returns (out: seq<Outbound>)
      requires Valid()
      modifies this
      ensures Valid()
      ensures users == old(users) && userOrder == old(userOrder) && userSockets == old(userSockets)
      ensures groups == old(groups) && socketEmail == old(socketEmail)
      ensures isGroup && receiver !in groups ==> messages == old(messages) && out == []
      ensures isGroup && receiver in groups ==>
                var m := Stamp(Decimal(clock), content, now, sender, receiver, true);
                && messages == old(messages)[receiver := old(History(receiver)) + [m]]
                && out == Deliveries(Recipients(groups[receiver].members, sender, userSockets), ReceiveMessage(m))
                          + [Outbound(Reply, ReceiveMessage(m))]
      ensures !isGroup ==>
                var key := DirectKey(sender, receiver);
                var sent := Stamp(Decimal(clock), content, now, sender, receiver, false);
                var m := if receiver in userSockets then sent.(status := Delivered) else sent;
                && messages == old(messages)[key := old(History(key)) + [m]]
                && out == (if receiver in userSockets
                           then [Outbound(ToSocket(userSockets[receiver]), ReceiveMessage(sent)),
                                 Outbound(ToSocket(userSockets[receiver]), MessageStatusUpdate(m.id, Delivered))]
                           else [])
                          + [Outbound(Reply, ReceiveMessage(m))]
    {
      if isGroup {
        out := SendToGroup(sender, receiver, content, clock, now);
      } else {
        out := SendDirect(sender, receiver, content, clock, now);
      }
    }

    /** The group branch of `send_message`. */
    method SendToGroup(sender: Email, receiver: string, content: Content, clock: nat, now: string)
      returns (out: seq<Outbound>)
      requires Valid()
      modifies this
      ensures Valid()
      ensures users == old(users) && userOrder == old(userOrder) && userSockets == old(userSockets)
      ensures groups == old(groups) && socketEmail == old(socketEmail)
      ensures receiver !in groups ==> messages == old(messages) && out == []
      ensures receiver in groups ==>
                var m := Stamp(Decimal(clock), content, now, sender, receiver, true);
                && messages == old(messages)[receiver := old(History(receiver)) + [m]]
                && out == Deliveries(Recipients(groups[receiver].members, sender, userSockets), ReceiveMessage(m))
                          + [Outbound(Reply, ReceiveMessage(m))]
    {
      if receiver !in groups {
        return [];
      }
      var group := groups[receiver];
      var m := Stamp(Decimal(clock), content, now, sender, receiver, true);
      if receiver !in messages {
        messages := messages[receiver := []];
      }
      messages := messages[receiver := messages[receiver] + [m]];
      LogsAppend(old(messages), groups, receiver, m);
      out := FanOut(group.members, sender, userSockets, ReceiveMessage(m));
      out := out + [Outbound(Reply, ReceiveMessage(m))];
    }

    /** The direct branch of `send_message`. */
    method SendDirect(sender: Email, receiver: Email, content: Content, clock: nat, now: string)
      returns (out: seq<Outbound>)
      requires Valid()
      modifies this
      ensures Valid()
      ensures users == old(users) && userOrder == old(userOrder) && userSockets == old(userSockets)
      ensures groups == old(groups) && socketEmail == old(socketEmail)
      ensures var key := DirectKey(sender, receiver);
              var sent := Stamp(Decimal(clock), content, now, sender, receiver, false);
              var m := if receiver in userSockets then sent.(status := Delivered) else sent;
              && messages == old(messages)[key := old(History(key)) + [m]]
              && out == (if receiver in userSockets
                         then [Outbound(ToSocket(userSockets[receiver]), ReceiveMessage(sent)),
                               Outbound(ToSocket(userSockets[receiver]), MessageStatusUpdate(m.id, Delivered))]
                         else [])
                        + [Outbound(Reply, ReceiveMessage(m))]
    {
      var key := DirectKey(sender, receiver);
      var sent := Stamp(Decimal(clock), content, now, sender, receiver, false);
      var m := sent;
      out := [];
      if receiver in userSockets {
        var receiverSocket := userSockets[receiver];
        out := out + [Outbound(ToSocket(receiverSocket), ReceiveMessage(sent))];
        // the source pushes the message first and then marks that same object
        // delivered, so the log ends with the delivered message
        m := sent.(status := Delivered);
        out := out + [Outbound(ToSocket(receiverSocket), MessageStatusUpdate(m.id, Delivered))];
      }
      LogsAppend(messages, groups, key, m);
      messages := messages[key := History(key) + [m]];
      out := out + [Outbound(Reply, ReceiveMessage(m))];
    }

    /** `get_messages`: replies with the whole log of the addressed
        conversation, oldest first, or an empty list; changes nothing. */
    method GetMessages(sender: Email, receiver: string, isGroup: bool) returns (out: seq<Outbound>)
      ensures |out| == 1 && out[0].target == Reply && out[0].event.MessageHistory?
      ensures var key := ConversationKey(sender, receiver, isGroup);
              out[0].event.history == History(key)
    {
      var key := if isGroup then receiver else DirectKey(sender, receiver);
      out := [Outbound(Reply, MessageHistory(History(key)))];
    }

    /** `call_user`: passes the offer, unchanged, to the callee's socket, or
        drops it when the callee has none; the caller hears nothing either way. */
    method CallUser(userToCall: Email, signal: Signal, from: Email, name: string, isVideo: bool) returns (out: seq<Outbound>)
      ensures userToCall in userSockets ==>
                out == [Outbound(ToSocket(userSockets[userToCall]), IncomingCall(signal, from, name, isVideo))]
      ensures userToCall !in userSockets ==> out == []
    {
      out := [];
      if userToCall in userSockets {
        out := [Outbound(ToSocket(userSockets[userToCall]), IncomingCall(signal, from, name, isVideo))];
      }
    }

    /** `answer_call`: passes the answer, unchanged, to the caller's socket, or drops it. */
    method AnswerCall(to: Email, signal: Signal) returns (out: seq<Outbound>)
      ensures to in userSockets ==> out == [Outbound(ToSocket(userSockets[to]), CallAccepted(signal))]
      ensures to !in userSockets ==> out == []
    {
      out := [];
      if to in userSockets {
        out := [Outbound(ToSocket(userSockets[to]), CallAccepted(signal))];
      }
    }

    /** `end_call`: tells the other party's socket, or drops it. */
    method EndCall(to: Email) returns (out: seq<Outbound>)
      ensures to in userSockets ==> out == [Outbound(ToSocket(userSockets[to]), CallEnded)]
      ensures to !in userSockets ==> out == []
    {
      out := [];
      if to in userSockets {
        out := [Outbound(ToSocket(userSockets[to]), CallEnded)];
      }
    }

    /** `disconnect`: when the socket announced a (non-empty) email, marks
        that user offline with a new `lastSeen`, removes the email's binding
        whichever socket it now names, and broadcasts the user list.
        Otherwise nothing happens. */
    method Disconnect(socket: SocketId, now: string) returns (out: seq<Outbound>)
      requires Valid()
      modifies this
      ensures Valid()
      ensures socket !in old(socketEmail) || old(socketEmail)[socket] == "" ==>
                unchanged(this) && out == []
      ensures socket in old(socketEmail) && old(socketEmail)[socket] != "" ==>
                var email := old(socketEmail)[socket];
                && users == old(users)[email := old(users)[email].(isOnline := false, lastSeen := now)]
                && userSockets == old(userSockets) - {email}
                && out == [Outbound(Broadcast, UserListUpdated(Summaries(userOrder, users)))]
      ensures userOrder == old(userOrder) && messages == old(messages)
      ensures groups == old(groups) && socketEmail == old(socketEmail)
    {
      out := [];
      if socket in socketEmail && socketEmail[socket] != "" {
        var email := socketEmail[socket];
        if email in users {
          var user := users[email].(isOnline := false, lastSeen := now);
          OrderWithUpdatedUser(users, userOrder, user);
          PresenceOnDisconnect(users, userSockets, socketEmail, user);
          MembershipWithUser(users, groups, user);
          users := users[email := user];
        }
        userSockets := userSockets - {email};
        out := [Outbound(Broadcast, UserListUpdated(Summaries(userOrder, users)))];
      }
    }
  }

  /** `order` lists every key of `users` exactly once, and every user
      records its own email. */
  ghost predicate OrderValid(users: map<Email, User>, order: seq<Email>) {
    && (forall i, j :: 0 <= i < j < |order| ==> order[i] != order[j])
    && (forall e :: e in users <==> e in order)
    && (forall e :: e in users ==> users[e].email == e)
  }

  /** Bindings and socket attributes name known users, and a user is shown
      online exactly while it has a binding. */
  ghost predicate PresenceValid(users: map<Email, User>, userSockets: map<Email, SocketId>, socketEmail: map<SocketId, Email>) {
    && userSockets.Keys <= users.Keys
    && (forall e :: e in users ==> (users[e].isOnline <==> e in userSockets))
    && (forall s :: s in socketEmail ==> socketEmail[s] in users)
  }

  /** Every group a user lists exists, and each group is stored under its
      own id, a string of decimal digits. */
  ghost predicate MembershipValid(users: map<Email, User>, groups: map<GroupId, Group>) {
    && (forall e, g :: e in users && g in users[e].groups ==> g in groups)
    && (forall g :: g in groups ==> groups[g].id == g && AllDigits(g))
  }

  /** `m` belongs in the log under `key`: it is the key of its own
      conversation, and a group message stays `sent` and names a group. */
  ghost predicate Filed(m: Message, key: string, groups: map<GroupId, Group>) {
    && KeyOf(m) == key
    && (m.isGroup ==> m.status == Sent && m.receiver in groups)
  }

  ghost predicate LogsValid(messages: map<string, seq<Message>>, groups: map<GroupId, Group>) {
    forall k, i :: k in messages && 0 <= i < |messages[k]| ==> Filed(messages[k][i], k, groups)
  }

  /** A user that is new to the registry goes at the end of the order. */
  lemma OrderWithNewUser(users: map<Email, User>, order: seq<Email>, u: User)
    requires OrderValid(users, order) && u.email !in users
    ensures OrderValid(users[u.email := u], order + [u.email])
  {
  }

  /** Replacing a known user's entry keeps its place in the order. */
  lemma OrderWithUpdatedUser(users: map<Email, User>, order: seq<Email>, u: User)
    requires OrderValid(users, order) && u.email in users
    ensures OrderValid(users[u.email := u], order)
  {
  }

  /** A newly registered user is offline and unbound. */
  lemma PresenceOnRegister(users: map<Email, User>, userSockets: map<Email, SocketId>, socketEmail: map<SocketId, Email>,
                           u: User)
    requires PresenceValid(users, userSockets, socketEmail) && u.email !in users && !u.isOnline
    ensures PresenceValid(users[u.email := u], userSockets, socketEmail)
  {
  }

  /** A connecting user is online and bound to the socket, which records it. */
  lemma PresenceOnConnect(users: map<Email, User>, userSockets: map<Email, SocketId>, socketEmail: map<SocketId, Email>,
                          u: User, socket: SocketId)
    requires PresenceValid(users, userSockets, socketEmail) && u.isOnline
    ensures PresenceValid(users[u.email := u], userSockets[u.email := socket], socketEmail[socket := u.email])
  {
  }

  /** A disconnecting user is offline and loses its binding. */
  lemma PresenceOnDisconnect(users: map<Email, User>, userSockets: map<Email, SocketId>, socketEmail: map<SocketId, Email>,
                             u: User)
    requires PresenceValid(users, userSockets, socketEmail) && u.email in users && !u.isOnline
    ensures PresenceValid(users[u.email := u], userSockets - {u.email}, socketEmail)
  {
  }

  /** Storing a user whose groups are unchanged, or empty, keeps every
      listed group stored. */
  lemma MembershipWithUser(users: map<Email, User>, groups: map<GroupId, Group>, u: User)
    requires MembershipValid(users, groups)
    requires if u.email in users then u.groups == users[u.email].groups else u.groups == []
    ensures MembershipValid(users[u.email := u], groups)
  {
  }

  /** Appending a message that belongs in the log keeps every log well filed. */
  lemma LogsAppend(messages: map<string, seq<Message>>, groups: map<GroupId, Group>, key: string, m: Message)
    requires LogsValid(messages, groups) && Filed(m, key, groups)
    ensures LogsValid(messages[key := (if key in messages then messages[key] else []) + [m]], groups)
  {
  }

  /** Adding a group never unfiles a message. */
  lemma LogsWithMoreGroups(messages: map<string, seq<Message>>, groups: map<GroupId, Group>, g: Group)
    requires LogsValid(messages, groups)
    ensures LogsValid(messages, groups[g.id := g])
  {
    forall k, i | k in messages && 0 <= i < |messages[k]|
      ensures Filed(messages[k][i], k, groups[g.id := g])
    {
      assert Filed(messages[k][i], k, groups);
    }
  }

  /** Creating a group keeps the user directory consistent: only `groups`
      lists grow, and only by the id of the group just stored. */
  lemma DirectoryAfterCreate(users: map<Email, User>, order: seq<Email>, userSockets: map<Email, SocketId>,
                             socketEmail: map<SocketId, Email>, groups: map<GroupId, Group>, members: seq<Email>, g: Group)
    requires OrderValid(users, order) && PresenceValid(users, userSockets, socketEmail) && MembershipValid(users, groups)
    requires AllDigits(g.id)
    ensures var r := WithGroupListed(users, members, g.id);
            OrderValid(r, order) && PresenceValid(r, userSockets, socketEmail) && MembershipValid(r, groups[g.id := g])
  {
    var r := WithGroupListed(users, members, g.id);
    ListedExactlyForMembers(users, members, g.id);
    forall e | e in users
      ensures r[e].email == users[e].email && r[e].isOnline == users[e].isOnline
    {
      assert r[e].(groups := users[e].groups) == users[e];
    }
    forall e, h | e in r && h in r[e].groups
      ensures h in groups[g.id := g]
    {
      var extra := Repeat(g.id, Count(members, e));
      assert r[e].groups == users[e].groups + extra;
    }
  }

  /** A list without repetitions has as many elements as the set it lists. */
  lemma {:induction false} DistinctCard(xs: seq<Email>, s: set<Email>)
    requires forall i, j :: 0 <= i < j < |xs| ==> xs[i] != xs[j]
    requires forall e :: e in s <==> e in xs
    ensures |xs| == |s|
    decreases |xs|
  {
    if xs != [] {
      var last := xs[|xs| - 1];
      var init := xs[..|xs| - 1];
      assert forall e :: e in xs <==> e in init || e == last;
      assert last !in init;
      DistinctCard(init, s - {last});
    }
  }
}
