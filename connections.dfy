/** The registry of subscriber sockets per stream id (`ConnectionManager`).
    A socket is an opaque handle compared by identity; sending to it either
    succeeds or raises, and the sockets whose send raises are given as a set. */
module Connections {

  /** A WebSocket, compared by identity. */
  type Channel = nat

  /** Position of the first occurrence of `x` in `s`. */
  function FirstIndex(s: seq<Channel>, x: Channel): (i: nat)
    requires x in s
    ensures i < |s| && s[i] == x && x !in s[..i]
  {
    if s[0] == x then 0
    else
      assert s == [s[0]] + s[1..];
      1 + FirstIndex(s[1..], x)
  }

  /** `list.remove(x)`: drops the first occurrence of `x`. */
  function RemoveFirst(s: seq<Channel>, x: Channel): (r: seq<Channel>)
    requires x in s
    ensures |r| == |s| - 1
    ensures multiset(r) == multiset(s) - multiset{x}
  {
    var i := FirstIndex(s, x);
    assert s == s[..i] + [x] + s[i + 1..];
    s[..i] + s[i + 1..]
  }

  /** `list.remove(x)` cuts the list at the first occurrence of `x`: what
      precedes it and what follows it are kept, in order. */
  lemma RemoveFirstAt(s: seq<Channel>, x: Channel, i: int)
    requires 0 <= i < |s| && s[i] == x && x !in s[..i]
    ensures RemoveFirst(s, x) == s[..i] + s[i + 1..]
  {
  }

  /** Registry invariant: a stream id is listed only while it has at least
      one socket. */
  ghost predicate NoEmptyLists(active: map<string, seq<Channel>>) {
    forall t :: t in active ==> active[t] != []
  }

  /** The sockets registered for `token`, none when it is not listed. */
  function Listed(active: map<string, seq<Channel>>, token: string): seq<Channel> {
    if token in active then active[token] else []
  }

  /** The registry after `connect(ws, token)`: `ws` is appended to the
      token's list, which is created when missing. */
  function Connected(active: map<string, seq<Channel>>, ws: Channel, token: string)
    : map<string, seq<Channel>>
  {
    active[token := Listed(active, token) + [ws]]
  }

  /** The registry after `disconnect(ws, token)`: the first occurrence of `ws`
      leaves the token's list, and the token leaves the registry once its
      list is empty. An unknown token or socket changes nothing else. */
  function Disconnected(active: map<string, seq<Channel>>, ws: Channel, token: string)
    : map<string, seq<Channel>>
  {
    if token !in active then active
    else
      var rest := if ws in active[token] then RemoveFirst(active[token], ws) else active[token];
      if rest == [] then active - {token} else active[token := rest]
  }

  /** Connecting adds exactly one socket to the token's list and touches no
      other stream. */
  lemma ConnectAddsOne(active: map<string, seq<Channel>>, ws: Channel, token: string)
    requires NoEmptyLists(active)
    ensures NoEmptyLists(Connected(active, ws, token))
    ensures multiset(Listed(Connected(active, ws, token), token))
            == multiset(Listed(active, token)) + multiset{ws}
    ensures forall t :: t != token ==> Listed(Connected(active, ws, token), t) == Listed(active, t)
  {
  }

  /** Disconnecting removes one registration of `ws` when there is one,
      keeps the no-empty-lists invariant and touches no other stream. */
  lemma DisconnectRemovesOne(active: map<string, seq<Channel>>, ws: Channel, token: string)
    requires NoEmptyLists(active)
    ensures NoEmptyLists(Disconnected(active, ws, token))
    ensures ws in Listed(active, token) ==>
              multiset(Listed(Disconnected(active, ws, token), token))
              == multiset(Listed(active, token)) - multiset{ws}
    ensures ws !in Listed(active, token) ==> Disconnected(active, ws, token) == active
    ensures forall t :: t != token ==> Listed(Disconnected(active, ws, token), t) == Listed(active, t)
  {
    if token in active && ws !in active[token] {
      assert active[token := active[token]] == active;
    }
  }

  /** The registration `disconnect` removes is the socket's first one: the
      sockets registered before and after it stay, in order. */
  lemma DisconnectCutsFirst(active: map<string, seq<Channel>>, ws: Channel, token: string, i: int)
    requires var l := Listed(active, token); 0 <= i < |l| && l[i] == ws && ws !in l[..i]
    ensures var l := Listed(active, token);
            Listed(Disconnected(active, ws, token), token) == l[..i] + l[i + 1..]
  {
    RemoveFirstAt(active[token], ws, i);
  }

  /** Removing the first occurrence of a socket that occurs only at the end
      drops that last element. */
  lemma RemoveAppended(before: seq<Channel>, ws: Channel)
    requires ws !in before
    ensures RemoveFirst(before + [ws], ws) == before
  {
    var after := before + [ws];
    assert after[..|before|] == before;
  }

  /** A socket that connects and then disconnects, and was not already
      registered for that token, leaves the registry as it found it. */
  lemma ConnectThenDisconnect(active: map<string, seq<Channel>>, ws: Channel, token: string)
    requires NoEmptyLists(active)
    requires ws !in Listed(active, token)
    ensures Disconnected(Connected(active, ws, token), ws, token) == active
  {
    var before := Listed(active, token);
    RemoveAppended(before, ws);
    if before == [] {
      assert active - {token} == active;
    } else {
      assert active[token := before] == active;
    }
  }

  /** The sockets `broadcast_json` reaches: it sends to the token's sockets in
      registration order and stops at the first send that raises. */
  function Reached(conns: seq<Channel>, broken: set<Channel>): (sent: seq<Channel>)
    ensures |sent| <= |conns| && sent == conns[..|sent|]
    ensures forall c :: c in sent ==> c !in broken
    ensures |sent| < |conns| ==> conns[|sent|] in broken
  {
    if conns == [] || conns[0] in broken then []
    else [conns[0]] + Reached(conns[1..], broken)
  }

  /** The broadcast raises exactly when some registered socket is broken. */
  lemma {:induction false} ReachedAll(conns: seq<Channel>, broken: set<Channel>)
    ensures Reached(conns, broken) == conns <==> forall c :: c in conns ==> c !in broken
  {
    if conns != [] && conns[0] !in broken {
      ReachedAll(conns[1..], broken);
      assert conns == [conns[0]] + conns[1..];
    }
  }

  class ConnectionManager {
    /** `active_connections`: stream id to its sockets, in connect order. */
    var active: map<string, seq<Channel>>

    ghost predicate Valid()
      reads this
    {
      NoEmptyLists(active)
    }

    constructor()
      ensures Valid() && active == map[]
    {
      active := map[];
    }

    /** `connect`: the socket is already accepted; register it. */
    method Connect(ws: Channel, token: string)
      requires Valid()
      modifies this
      ensures Valid()
      ensures active == Connected(old(active), ws, token)
    {
      if token !in active {
        active := active[token := []];
      }
      active := active[token := active[token] + [ws]];
    }

    /** `disconnect`: forget one registration of the socket. */
    method Disconnect(ws: Channel, token: string)
      requires Valid()
      modifies this
      ensures Valid()
      ensures active == Disconnected(old(active), ws, token)
    {
      DisconnectRemovesOne(active, ws, token);
      if token in active {
        if ws in active[token] {
          active := active[token := RemoveFirst(active[token], ws)];
        }
        if active[token] == [] {
          active := active - {token};
        }
      }
    }

    /** Number of sockets registered for `token`. */
    function Count(token: string): (n: nat)
      reads this
      requires Valid()
      ensures n == 0 <==> token !in active
    {
      |Listed(active, token)|
    }

    /** `broadcast_json`: the sockets the message reaches before the first
        raising send, and whether a send raised (the exception escapes to the
        caller, and the remaining sockets get nothing). */
    method BroadcastJson(token: string, broken: set<Channel>) returns (sent: seq<Channel>, raised: bool)
      ensures sent == Reached(Listed(active, token), broken)
      ensures raised <==> exists c :: c in Listed(active, token) && c in broken
    {
      sent := [];
      raised := false;
      if token in active {
        var conns := active[token];
        var i := 0;
        while i < |conns|
          invariant 0 <= i <= |conns|
          invariant sent == conns[..i]
          invariant forall c :: c in sent ==> c !in broken
          invariant !raised
        {
          if conns[i] in broken {
            raised := true;
            break;
          } else {
            sent := sent + [conns[i]];
            i := i + 1;
          }
        }
        ReachedAll(conns, broken);
        ReachedPrefix(conns, broken, i);
      }
    }
  }

  /** A prefix of clean sockets followed by a broken one, or by nothing, is
      exactly what the broadcast reaches. */
  lemma {:induction false} ReachedPrefix(conns: seq<Channel>, broken: set<Channel>, i: nat)
    requires i <= |conns|
    requires forall c :: c in conns[..i] ==> c !in broken
    requires i < |conns| ==> conns[i] in broken
    ensures Reached(conns, broken) == conns[..i]
  {
    if i > 0 {
      assert conns[0] in conns[..i];
      assert forall c :: c in conns[1..][..i - 1] ==> c in conns[..i];
      ReachedPrefix(conns[1..], broken, i - 1);
      assert conns[..i] == [conns[0]] + conns[1..][..i - 1];
    }
  }
}
