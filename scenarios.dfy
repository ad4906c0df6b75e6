/** Short runs of the server, each ending in a fact about the state or the
    events that callers can check from the handlers' contracts alone. */
module Scenarios {
  import opened Text
  import opened Model
  import opened Routing
  import opened Server

  /** A user reconnects on a second socket, then the first socket's
      disconnect arrives: the user is shown offline and the live second
      socket is no longer bound, because the binding is removed by email. */
  method StaleDisconnect() returns (online: bool, bound: bool)
    ensures !online && !bound
  {
    var server := new ChatServer();
    var first := server.UserConnected("sock-1", "Bea", "bea@x.io", "t1");
    var second := server.UserConnected("sock-2", "Bea", "bea@x.io", "t2");
    assert server.socketEmail["sock-1"] == "bea@x.io" != "";
    assert server.userSockets["bea@x.io"] == "sock-2";
    ghost var before := server.users;
    var gone := server.Disconnect("sock-1", "t3");
    assert server.users == before["bea@x.io" := before["bea@x.io"].(isOnline := false, lastSeen := "t3")];
    online := server.users["bea@x.io"].isOnline;
    bound := "bea@x.io" in server.userSockets;
  }

  /** Ann writes to Bob while Bob is registered but not connected. Bob's
      history, read from his side of the pair, holds the one message with
      status `sent`, and Bob connecting does not change it. */
  method OfflineMessageStaysSent(clock: nat) returns (before: seq<Message>, after: seq<Message>)
    ensures |before| == 1 && before[0].status == Sent && before[0].text == Some("hi")
    ensures after == before
  {
    var server := new ChatServer();
    var ann := server.Register("Ann", "ann@x.io", "t0");
    var bob := server.Register("Bob", "bob@x.io", "t0");
    var annIn := server.UserConnected("sock-a", "Ann", "ann@x.io", "t1");
    var sent := server.SendMessage("ann@x.io", "bob@x.io", Content(Some("hi"), None, None, None, None), false, clock, "t2");
    DirectKeySymmetric("ann@x.io", "bob@x.io");
    var reply := server.GetMessages("bob@x.io", "ann@x.io", false);
    before := reply[0].event.history;
    var bobIn := server.UserConnected("sock-b", "Bob", "bob@x.io", "t3");
    reply := server.GetMessages("bob@x.io", "ann@x.io", false);
    after := reply[0].event.history;
  }

  /** Ann creates a group with Bob and Cid, everyone is connected, and Ann
      says hello: Bob's and Cid's sockets each get the message once, Ann
      gets her echo, and the stored message stays `sent`. */
  method GroupHello(createdAt: nat, sentAt: nat) returns (out: seq<Outbound>, stored: Status)
    ensures |out| == 3
    ensures out[0].target == ToSocket("sock-b") && out[1].target == ToSocket("sock-c") && out[2].target == Reply
    ensures out[0].event == out[1].event == out[2].event
    ensures out[0].event.ReceiveMessage? && out[0].event.message.status == Sent
    ensures stored == Sent
  {
    var invited := ["bob@x.io", "cid@x.io"];
    var server, g := CrewOnline(createdAt);
    var sockets := server.userSockets;
    HelloReachesBobAndCid(invited, sockets);
    var hello := Content(Some("hello"), None, None, None, None);
    ghost var m := Stamp(Decimal(sentAt), hello, "t2", "ann@x.io", g.id, true);
    out := server.SendMessage("ann@x.io", g.id, hello, true, sentAt, "t2");
    assert server.userSockets == sockets;
    assert g.id in server.groups && server.groups[g.id].members == invited + ["ann@x.io"];
    var reached := Recipients(server.groups[g.id].members, "ann@x.io", server.userSockets);
    assert reached == ["sock-b", "sock-c"];
    assert out == Deliveries(reached, ReceiveMessage(m)) + [Outbound(Reply, ReceiveMessage(m))];
    ghost var fanned := Deliveries(reached, ReceiveMessage(m));
    assert |fanned| == 2 && fanned[0].target == ToSocket("sock-b") && fanned[1].target == ToSocket("sock-c");
    assert out[..2] == fanned && out[2] == Outbound(Reply, ReceiveMessage(m));
    stored := server.messages[g.id][0].status;
  }

  /** The fan-out of GroupHello, computed on values alone. */
  lemma HelloReachesBobAndCid(invited: seq<Email>, sockets: map<Email, SocketId>)
    requires invited == ["bob@x.io", "cid@x.io"]
    requires "bob@x.io" in sockets && sockets["bob@x.io"] == "sock-b"
    requires "cid@x.io" in sockets && sockets["cid@x.io"] == "sock-c"
    ensures Recipients(invited + ["ann@x.io"], "ann@x.io", sockets) == ["sock-b", "sock-c"]
  {
    var members := invited + ["ann@x.io"];
    assert members[..2] == invited && members[2] == "ann@x.io";
    assert invited[..1] == ["bob@x.io"] && invited[1] == "cid@x.io";
    assert ["bob@x.io"][..0] == [];
    assert Recipients(["bob@x.io"], "ann@x.io", sockets) == ["sock-b"];
    assert Recipients(invited, "ann@x.io", sockets) == ["sock-b", "sock-c"];
  }

  /** Ann writes to Bob while Bob is connected: Bob gets the message as
      `sent` and then a `delivered` update, and Ann's echo already says
      `delivered`. */
  method DirectToOnline(clock: nat) returns (out: seq<Outbound>)
    ensures |out| == 3
    ensures out[0] == Outbound(ToSocket("sock-b"), out[0].event) && out[0].event.ReceiveMessage?
    ensures out[0].event.message.status == Sent
    ensures out[1] == Outbound(ToSocket("sock-b"), MessageStatusUpdate(Decimal(clock), Delivered))
    ensures out[2].target == Reply && out[2].event.ReceiveMessage? && out[2].event.message.status == Delivered
  {
    var server := AnnAndBobOnline();
    var hey := Content(Some("hey"), None, None, None, None);
    ghost var sent := Stamp(Decimal(clock), hey, "t2", "ann@x.io", "bob@x.io", false);
    out := server.SendMessage("ann@x.io", "bob@x.io", hey, false, clock, "t2");
    assert out == [Outbound(ToSocket("sock-b"), ReceiveMessage(sent)),
                   Outbound(ToSocket("sock-b"), MessageStatusUpdate(sent.id, Delivered)),
                   Outbound(Reply, ReceiveMessage(sent.(status := Delivered)))];
  }

  /** Ann and Bob connect to a fresh server, in that order. */
  method AnnAndBobOnline() returns (server: ChatServer)
    ensures fresh(server) && server.Valid()
    ensures server.userSockets == map["ann@x.io" := "sock-a", "bob@x.io" := "sock-b"]
  {
    server := new ChatServer();
    var a := server.UserConnected("sock-a", "Ann", "ann@x.io", "t1");
    var b := server.UserConnected("sock-b", "Bob", "bob@x.io", "t1");
  }

  /** Ann creates the group `crew` with Bob and Cid, then all three connect. */
  method CrewOnline(createdAt: nat) returns (server: ChatServer, g: Group)
    ensures fresh(server) && server.Valid()
    ensures g.id in server.groups && server.groups[g.id] == g
    ensures g.members == ["bob@x.io", "cid@x.io"] + ["ann@x.io"]
    ensures "bob@x.io" in server.userSockets && server.userSockets["bob@x.io"] == "sock-b"
    ensures "cid@x.io" in server.userSockets && server.userSockets["cid@x.io"] == "sock-c"
  {
    server := new ChatServer();
    g := server.CreateGroup("crew", "ann@x.io", ["bob@x.io", "cid@x.io"], createdAt, "t0");
    var a := server.UserConnected("sock-a", "Ann", "ann@x.io", "t1");
    ConnectBobAndCid(server);
  }

  /** Bob and Cid connect, in that order; groups are left alone. */
  method ConnectBobAndCid(server: ChatServer)
    requires server.Valid()
    modifies server
    ensures server.Valid() && server.groups == old(server.groups)
    ensures "bob@x.io" in server.userSockets && server.userSockets["bob@x.io"] == "sock-b"
    ensures "cid@x.io" in server.userSockets && server.userSockets["cid@x.io"] == "sock-c"
  {
    var b := server.UserConnected("sock-b", "Bob", "bob@x.io", "t1");
    var c := server.UserConnected("sock-c", "Cid", "cid@x.io", "t1");
  }
}
