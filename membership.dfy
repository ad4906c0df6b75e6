/** What creating a group does to the `users` registry: every known user
    gets the new group id appended to its `groups` list once per time it
    appears in the member list; unknown members are not created. */
module Membership {
  import opened Model

  /** How many times `x` occurs in `xs`. */
  function Count(xs: seq<Email>, x: Email): (n: nat)
    ensures n <= |xs|
    decreases |xs|
  {
    if xs == [] then 0
    else Count(xs[..|xs| - 1], x) + (if xs[|xs| - 1] == x then 1 else 0)
  }

  /** `n` copies of `gid`. */
  function Repeat(gid: GroupId, n: nat): (r: seq<GroupId>)
    ensures |r| == n
    ensures forall i :: 0 <= i < n ==> r[i] == gid
    decreases n
  {
    if n == 0 then [] else Repeat(gid, n - 1) + [gid]
  }

  /** The registry after `gid` has been listed for every known member. */
  function WithGroupListed(users: map<Email, User>, members: seq<Email>, gid: GroupId): (r: map<Email, User>)
    ensures r.Keys == users.Keys
  {
    map e | e in users :: users[e].(groups := users[e].groups + Repeat(gid, Count(members, e)))
  }

  /** Before the loop has visited any member, the registry is as it was. */
  lemma WithGroupListedNone(users: map<Email, User>, gid: GroupId)
    ensures WithGroupListed(users, [], gid) == users
  {
    var r := WithGroupListed(users, [], gid);
    forall e | e in users ensures r[e] == users[e] {
      assert users[e].groups + Repeat(gid, 0) == users[e].groups;
    }
  }

  /** An email occurs in a list exactly when its count is positive. */
  lemma {:induction false} CountPositive(xs: seq<Email>, x: Email)
    ensures Count(xs, x) > 0 <==> x in xs
    decreases |xs|
  {
    if xs != [] {
      var init := xs[..|xs| - 1];
      CountPositive(init, x);
      assert xs == init + [xs[|xs| - 1]];
    }
  }

  /** One more member: its entry, if it is known, gets one more copy of the
      id; nothing else changes. This is one turn of the source's loop. */
  lemma WithGroupListedStep(users: map<Email, User>, members: seq<Email>, m: Email, gid: GroupId)
    ensures var before := WithGroupListed(users, members, gid);
            WithGroupListed(users, members + [m], gid) ==
              if m in users then before[m := before[m].(groups := before[m].groups + [gid])] else before
  {
    var before := WithGroupListed(users, members, gid);
    var after := WithGroupListed(users, members + [m], gid);
    assert (members + [m])[..|members|] == members;
    forall e | e in users
      ensures after[e].groups == before[e].groups + (if e == m then [gid] else [])
    {
      assert Count(members + [m], e) == Count(members, e) + (if e == m then 1 else 0);
      assert Repeat(gid, Count(members + [m], e)) == Repeat(gid, Count(members, e)) + (if e == m then [gid] else []);
    }
  }

  /** Every known member lists the group afterwards, every other user is
      untouched, and no user loses a group or changes otherwise. */
  lemma ListedExactlyForMembers(users: map<Email, User>, members: seq<Email>, gid: GroupId)
    ensures var r := WithGroupListed(users, members, gid);
            forall e :: e in users ==>
              && (gid in r[e].groups <==> gid in users[e].groups || e in members)
              && (e !in members ==> r[e] == users[e])
              && r[e].groups[..|users[e].groups|] == users[e].groups
              && r[e].(groups := users[e].groups) == users[e]
  {
    var r := WithGroupListed(users, members, gid);
    forall e | e in users
      ensures gid in r[e].groups <==> gid in users[e].groups || e in members
      ensures e !in members ==> r[e] == users[e]
    {
      CountPositive(members, e);
      var extra := Repeat(gid, Count(members, e));
      assert r[e].groups == users[e].groups + extra;
      if e in members {
        assert r[e].groups[|users[e].groups|] == gid;
      } else {
        assert extra == [];
      }
    }
  }

  /** A creator who also named itself among the members is listed under the
      group twice. */
  lemma CreatorListedTwice(members: seq<Email>, creator: Email)
    requires creator in members
    ensures Count(members + [creator], creator) >= 2
  {
    CountPositive(members, creator);
    assert (members + [creator])[..|members|] == members;
  }
}
