/** Fan-out to the members of a group: every member other than the sender
    that has a socket binding gets the event, in member order; members
    without a binding are skipped. */
module Routing {
  import opened Model

  /** The sockets a group event reaches, one per qualifying occurrence in
      `members` (a member listed twice is reached twice). */
  function Recipients(members: seq<Email>, sender: Email, sockets: map<Email, SocketId>): (r: seq<SocketId>)
    ensures |r| <= |members|
    decreases |members|
  {
    if members == [] then []
    else
      var rest := Recipients(members[..|members| - 1], sender, sockets);
      var m := members[|members| - 1];
      if m != sender && m in sockets then rest + [sockets[m]] else rest
  }

  /** One outbound copy of `ev` per socket, in order. */
  function Deliveries(targets: seq<SocketId>, ev: Event): (out: seq<Outbound>)
    ensures |out| == |targets|
    ensures forall i :: 0 <= i < |out| ==> out[i] == Outbound(ToSocket(targets[i]), ev)
  {
    seq(|targets|, i requires 0 <= i < |targets| => Outbound(ToSocket(targets[i]), ev))
  }

  /** The `forEach` over `group.members` that emits to each bound member
      other than the sender. */
  method FanOut(members: seq<Email>, sender: Email, sockets: map<Email, SocketId>, ev: Event) returns (out: seq<Outbound>)
    ensures out == Deliveries(Recipients(members, sender, sockets), ev)
  {
    out := [];
    var i := 0;
    while i < |members|
      invariant 0 <= i <= |members|
      invariant out == Deliveries(Recipients(members[..i], sender, sockets), ev)
    {
      var member := members[i];
      assert members[..i + 1][..i] == members[..i];
      if member != sender && member in sockets {
        out := out + [Outbound(ToSocket(sockets[member]), ev)];
      }
      i := i + 1;
    }
    assert members[..|members|] == members;
  }

  /** Fan-out follows the member list: the recipients of a concatenation are
      the recipients of each part, in order. */
  lemma {:induction false} RecipientsAppend(xs: seq<Email>, ys: seq<Email>, sender: Email, sockets: map<Email, SocketId>)
    ensures Recipients(xs + ys, sender, sockets) == Recipients(xs, sender, sockets) + Recipients(ys, sender, sockets)
    decreases |ys|
  {
    if ys == [] {
      assert xs + ys == xs;
    } else {
      var ys' := ys[..|ys| - 1];
      assert (xs + ys)[..|xs + ys| - 1] == xs + ys';
      RecipientsAppend(xs, ys', sender, sockets);
    }
  }

  /** A socket is reached exactly when it is the binding of some member
      other than the sender. */
  lemma {:induction false} RecipientsExactly(members: seq<Email>, sender: Email, sockets: map<Email, SocketId>, s: SocketId)
    ensures s in Recipients(members, sender, sockets) <==>
            exists i :: 0 <= i < |members| && members[i] != sender && members[i] in sockets && sockets[members[i]] == s
    decreases |members|
  {
    if members != [] {
      var init := members[..|members| - 1];
      RecipientsExactly(init, sender, sockets, s);
      if s in Recipients(init, sender, sockets) {
        var i :| 0 <= i < |init| && init[i] != sender && init[i] in sockets && sockets[init[i]] == s;
        assert members[i] == init[i];
      }
      if exists i :: 0 <= i < |members| && members[i] != sender && members[i] in sockets && sockets[members[i]] == s {
        var i :| 0 <= i < |members| && members[i] != sender && members[i] in sockets && sockets[members[i]] == s;
        if i < |init| {
          assert init[i] == members[i];
        }
      }
    }
  }

  /** Fan-out never reaches more sockets than there are member entries, and
      a group whose only listed members are the sender reaches nobody. */
  lemma {:induction false} RecipientsBounded(members: seq<Email>, sender: Email, sockets: map<Email, SocketId>)
    ensures |Recipients(members, sender, sockets)| <= |members|
    ensures (forall i :: 0 <= i < |members| ==> members[i] == sender) ==> Recipients(members, sender, sockets) == []
    decreases |members|
  {
    if members != [] {
      RecipientsBounded(members[..|members| - 1], sender, sockets);
    }
  }
}
