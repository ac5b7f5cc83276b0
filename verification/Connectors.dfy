/** The server's two-way table between transport peers and sessions. */
module Connectors {
  import opened Bytes

  type PeerIndex = nat
  type SessionId = nat

  /** What get_peer_index answers for a session that has no peer: size_t(-1). */
  const NO_PEER: nat := 0xFFFF_FFFF_FFFF_FFFF

  datatype Tables = Tables(sessions: map<PeerIndex, SessionId>, peers: map<SessionId, PeerIndex>)
  {
    /** The two tables are mutual inverses. */
    predicate Inverse() {
      && (forall p :: p in sessions ==> sessions[p] in peers && peers[sessions[p]] == p)
      && (forall s :: s in peers ==> peers[s] in sessions && sessions[peers[s]] == s)
    }

    predicate Bound(p: PeerIndex, s: SessionId) {
      p in sessions && sessions[p] == s
    }

    function Update(p: PeerIndex, s: SessionId): Tables {
      var kept := if s in peers && peers[s] != p then sessions - {peers[s]} else sessions;
      Tables(kept[p := s], peers[s := p])
    }

    function Remove(p: PeerIndex, s: SessionId): Tables {
      Tables(sessions - {p}, peers - {s})
    }
  }

  class FixServerConnectors {
    var sessions: map<PeerIndex, SessionId>
    var peers: map<SessionId, PeerIndex>

    ghost function View(): Tables
      reads this
    {
      Tables(sessions, peers)
    }

    constructor ()
      ensures View() == Tables(map[], map[])
    {
      sessions, peers := map[], map[];
    }

    method HasPeer(p: PeerIndex) returns (found: bool)
      ensures found <==> exists s :: View().Bound(p, s)
    {
      if p !in sessions {
        return false;
      }
      assert View().Bound(p, sessions[p]);
      return true;
    }

    method Update(p: PeerIndex, s: SessionId)
      modifies this
      ensures View() == old(View()).Update(p, s)
    {
      if s in peers {
        var existing := peers[s];
        if existing != p {
          sessions := sessions - {existing};
        }
      }
      sessions := sessions[p := s];
      peers := peers[s := p];
    }

    method GetSession(p: PeerIndex) returns (r: Option<SessionId>)
      ensures forall s: SessionId :: r == Some(s) <==> View().Bound(p, s)
    {
      if p !in sessions {
        return None;
      }
      return Some(sessions[p]);
    }

    /** With the tables inverse, the answer is the peer whose session this is. */
    method GetPeerIndex(s: SessionId) returns (p: nat)
      requires View().Inverse()
      ensures View().Bound(p, s) || (p == NO_PEER && forall q :: !View().Bound(q, s))
    {
      if s !in peers {
        return NO_PEER;
      }
      return peers[s];
    }

    method Remove(p: PeerIndex, s: SessionId)
      modifies this
      ensures View() == old(View()).Remove(p, s)
    {
      sessions := sessions - {p};
      peers := peers - {s};
    }

    /** A complete message from a peer: only a peer without a session goes through accept_session. */
    method OnMessage(p: PeerIndex, s: SessionId)
      modifies this
      ensures View() == Step(old(View()), FirstMessage(p, s))
    {
      var session := GetSession(p);
      assert p in sessions <==> session != None by {
        assert p in sessions ==> View().Bound(p, sessions[p]);
        assert session != None ==> View().Bound(p, session.value);
      }
      if session == None {
        Update(p, s);
      }
    }

    method OnClientDisconnected(p: PeerIndex)
      modifies this
      ensures View() == Step(old(View()), Disconnected(p))
    {
      var known := HasPeer(p);
      if !known {
        assert p in sessions ==> old(View()).Bound(p, sessions[p]);
        return;
      }
      var session := GetSession(p);
      assert old(View()).Bound(p, sessions[p]) && session == Some(sessions[p]);
      Remove(p, session.value);
    }
  }

  /** An update keeps the tables inverse exactly when the peer is new or already has this session. */
  lemma {:induction false} UpdateExact(t: Tables, p: PeerIndex, s: SessionId)
    requires t.Inverse()
    ensures t.Update(p, s).Inverse() <==> p !in t.sessions || t.sessions[p] == s
  {
    var t' := t.Update(p, s);
    if p in t.sessions && t.sessions[p] != s {
      assert t.sessions[p] in t'.peers && t'.peers[t.sessions[p]] == p && t'.sessions[p] == s;
    }
  }

  /** A removal keeps them inverse exactly when the pair is bound, or both are absent. */
  lemma {:induction false} RemoveExact(t: Tables, p: PeerIndex, s: SessionId)
    requires t.Inverse()
    ensures t.Remove(p, s).Inverse() <==> t.Bound(p, s) || (p !in t.sessions && s !in t.peers)
  {
    var t' := t.Remove(p, s);
    if p in t.sessions && t.sessions[p] != s {
      assert t.sessions[p] in t'.peers;
    }
    if s in t.peers && t.peers[s] != p {
      assert t.peers[s] in t'.sessions;
    }
  }

  datatype Event = FirstMessage(peer: PeerIndex, session: SessionId) | Disconnected(peer: PeerIndex)

  function Step(t: Tables, e: Event): Tables {
    match e
    case FirstMessage(p, s) => if p in t.sessions then t else t.Update(p, s)
    case Disconnected(p) => if p in t.sessions then t.Remove(p, t.sessions[p]) else t
  }

  function Run(es: seq<Event>): Tables {
    if es == [] then Tables(map[], map[]) else Step(Run(es[..|es| - 1]), es[|es| - 1])
  }

  /** Over every sequence of connects and disconnects the tables are mutual inverses. */
  lemma {:induction false} RunInverse(es: seq<Event>)
    ensures Run(es).Inverse()
    decreases |es|
  {
    if es != [] {
      var t, e := Run(es[..|es| - 1]), es[|es| - 1];
      RunInverse(es[..|es| - 1]);
      match e
      case FirstMessage(p, s) => UpdateExact(t, p, s);
      case Disconnected(p) => if p in t.sessions { RemoveExact(t, p, t.sessions[p]); }
    }
  }

  /** Event i is a logon: a session given to a peer that had none. */
  predicate LogsOn(es: seq<Event>, i: nat, p: PeerIndex, s: SessionId) {
    i < |es| && es[i] == FirstMessage(p, s) && p !in Run(es[..i]).sessions
  }

  /** Event j takes session s from peer p: p leaves, or s logs on from elsewhere. */
  predicate Ends(es: seq<Event>, j: nat, p: PeerIndex, s: SessionId) {
    j < |es| && (es[j] == Disconnected(p) || (es[j].FirstMessage? && LogsOn(es, j, es[j].peer, s)))
  }

  /** A logon not yet ended. */
  ghost predicate Live(es: seq<Event>, i: nat, p: PeerIndex, s: SessionId) {
    LogsOn(es, i, p, s) && forall j: nat :: i < j < |es| ==> !Ends(es, j, p, s)
  }

  lemma {:induction false} LiveStep(es: seq<Event>, e: Event, i: nat, p: PeerIndex, s: SessionId)
    requires i < |es|
    ensures Live(es + [e], i, p, s) <==> Live(es, i, p, s) && !Ends(es + [e], |es|, p, s)
  {
    var more := es + [e];
    forall j: nat | j < |es| ensures more[..j] == es[..j] && more[j] == es[j] {
    }
    forall j: nat | j < |es| ensures Ends(more, j, p, s) <==> Ends(es, j, p, s) {
    }
    assert LogsOn(more, i, p, s) <==> LogsOn(es, i, p, s);
  }

  lemma {:induction false} LiveIsLogon(es: seq<Event>, p: PeerIndex, s: SessionId)
    ensures forall i: nat :: Live(es, i, p, s) ==> i < |es|
    ensures es != [] ==> (Live(es, |es| - 1, p, s) <==> LogsOn(es, |es| - 1, p, s))
  {
  }

  /** What the last event does to one binding. */
  lemma {:induction false} LastStep(es: seq<Event>, e: Event, p: PeerIndex, s: SessionId)
    requires Run(es).Inverse()
    ensures var more := es + [e];
      Run(more).Bound(p, s) <==> LogsOn(more, |es|, p, s) || (Run(es).Bound(p, s) && !Ends(more, |es|, p, s))
  {
    var more := es + [e];
    assert more[..|es|] == es && more[..|more| - 1] == es;
    var t := Run(es);
    assert Run(more) == Step(t, e);
    assert LogsOn(more, |es|, p, s) <==> e == FirstMessage(p, s) && p !in t.sessions;
    assert Ends(more, |es|, p, s) <==>
      e == Disconnected(p) || (e.FirstMessage? && e.session == s && e.peer !in t.sessions);
  }

  /** The table holds exactly the live logons: a peer has a session iff some logon of theirs has not ended. */
  lemma {:induction false} BoundIffLive(es: seq<Event>, p: PeerIndex, s: SessionId)
    ensures Run(es).Bound(p, s) <==> exists i: nat :: Live(es, i, p, s)
    decreases |es|
  {
    if es != [] {
      var k := |es| - 1;
      var front, e := es[..k], es[k];
      assert es == front + [e];
      BoundIffLive(front, p, s);
      RunInverse(front);
      hide Live, Run;
      LastStep(front, e, p, s);
      forall i: nat | i < k ensures Live(es, i, p, s) <==> Live(front, i, p, s) && !Ends(es, k, p, s) {
        LiveStep(front, e, i, p, s);
      }
      LiveIsLogon(es, p, s);
      LiveIsLogon(front, p, s);
    }
  }
}
