/** Video-chat matchmaking: one FIFO queue of waiting connections, a partner
    map that should be symmetric, and for each connection the partner it
    last left, which the delayed re-pair after `leave` avoids. */
module Pairing {
  import opened Common
  import opened Models
  import opened Store

  /** `queue` and `users` of the socket server, plus each connection's own
      `recentPartners` entry. Only a connection's own entry of its
      `recentPartners` map is ever read, so one map keyed by connection
      holds everything observable. */
  datatype Video = Video(queue: seq<ConnId>, partners: map<ConnId, ConnId>, recent: map<ConnId, ConnId>)

  /** Partners point at each other, nobody waits twice, and nobody both
      waits and has a partner. */
  predicate WellFormed(v: Video) {
    && (forall a :: a in v.partners ==> v.partners[a] in v.partners && v.partners[v.partners[a]] == a)
    && NoDup(v.queue)
    && (forall i :: 0 <= i < |v.queue| ==> v.queue[i] !in v.partners)
  }

  /** Connection `s` is neither waiting nor paired. */
  predicate Idle(v: Video, s: ConnId) {
    s !in v.queue && s !in v.partners
  }

  function Tell(c: ConnId, e: Event): Emission {
    Emit(ToConn(c), e)
  }

  /** `joinQueue`: pair with the head of the queue, or wait at its tail. */
  function JoinQueue(v: Video, s: ConnId): (r: (Video, seq<Emission>))
    ensures v.queue != [] ==>
      && r.0.queue == v.queue[1..]
      && r.0.partners == v.partners[s := v.queue[0]][v.queue[0] := s]
      && r.1 == [Tell(s, PartnerFound), Tell(v.queue[0], PartnerFound)]
    ensures v.queue == [] ==>
      r.0.queue == [s] && r.0.partners == v.partners && r.1 == [Tell(s, WaitingForPartner)]
    ensures r.0.recent == v.recent
  {
    if |v.queue| > 0 then
      var partner := v.queue[0];
      (v.(queue := v.queue[1..], partners := v.partners[s := partner][partner := s]),
       [Tell(s, PartnerFound), Tell(partner, PartnerFound)])
    else
      (v.(queue := v.queue + [s]), [Tell(s, WaitingForPartner)])
  }

  /** A connection that is idle and joins the queue keeps the state well
      formed, and ends up either waiting or paired with someone else. */
  lemma JoinQueueKeepsWellFormed(v: Video, s: ConnId)
    requires WellFormed(v) && Idle(v, s)
    ensures WellFormed(JoinQueue(v, s).0)
    ensures var v' := JoinQueue(v, s).0;
      (s in v'.queue && s !in v'.partners) || (s in v'.partners && v'.partners[s] != s)
  {
    if v.queue != [] {
      var h := v.queue[0];
      var v' := JoinQueue(v, s).0;
      assert h != s;
      assert h !in v.partners;
      forall a | a in v'.partners
        ensures v'.partners[a] in v'.partners && v'.partners[v'.partners[a]] == a
      {
        if a != s && a != h {
          var b := v.partners[a];
          assert b in v.partners && v.partners[b] == a;
          assert b != s && b != h;
        }
      }
      forall i | 0 <= i < |v'.queue|
        ensures v'.queue[i] !in v'.partners
      {
        assert v'.queue[i] == v.queue[i + 1];
        assert v.queue[i + 1] != h;
      }
      assert NoDup(v'.queue) by {
        forall i, j | 0 <= i < j < |v'.queue| ensures v'.queue[i] != v'.queue[j] {
          assert v'.queue[i] == v.queue[i + 1] && v'.queue[j] == v.queue[j + 1];
        }
      }
    }
  }

  /** `offer`, `answer` and `ice-candidate`: forwarded to the sender's
      partner and to nobody else; nothing without a partner. */
  function Relay(v: Video, s: ConnId, kind: SignalKind, payload: string): (r: seq<Emission>)
    ensures s in v.partners <==> r != []
    ensures forall i :: 0 <= i < |r| ==> r[i].to == ToConn(v.partners[s]) && r[i].event == Signal(kind, payload)
  {
    if s in v.partners then [Tell(v.partners[s], Signal(kind, payload))] else []
  }

  /** Once `joinQueue` pairs `s` with the head of the queue, a signal from
      either side reaches exactly the other; an unpaired connection left
      waiting reaches nobody. */
  lemma RelayAfterJoin(v: Video, s: ConnId, kind: SignalKind, payload: string)
    ensures var v' := JoinQueue(v, s).0;
      && (v.queue != [] ==>
            && Relay(v', s, kind, payload) == [Tell(v.queue[0], Signal(kind, payload))]
            && Relay(v', v.queue[0], kind, payload) == [Tell(s, Signal(kind, payload))])
      && (v.queue == [] && s !in v.partners ==> Relay(v', s, kind, payload) == [])
  {
  }

  /** The immediate half of `leave`: tell the partner, remember it, and
      unpair both sides. */
  function Leave(v: Video, s: ConnId): (r: (Video, seq<Emission>))
    ensures s !in r.0.partners && r.0.queue == v.queue
    ensures s in v.partners ==>
      && v.partners[s] !in r.0.partners
      && r.0.recent == v.recent[s := v.partners[s]]
      && r.1 == [Tell(v.partners[s], PartnerLeft)]
    ensures s !in v.partners ==> r.0.recent == v.recent && r.1 == []
    ensures forall a :: a in r.0.partners <==>
      a in v.partners && a != s && (s !in v.partners || a != v.partners[s])
    ensures forall a :: a in r.0.partners ==> r.0.partners[a] == v.partners[a]
  {
    if s in v.partners then
      var partner := v.partners[s];
      (v.(partners := v.partners - {partner} - {s}, recent := v.recent[s := partner]),
       [Tell(partner, PartnerLeft)])
    else (v, [])
  }

  /** After `leave`, neither the leaver nor its former partner can reach
      anyone, and every other connection still reaches the partner it had. */
  lemma RelayAfterLeave(v: Video, s: ConnId, c: ConnId, kind: SignalKind, payload: string)
    ensures var v' := Leave(v, s).0;
      && Relay(v', s, kind, payload) == []
      && (s in v.partners ==> Relay(v', v.partners[s], kind, payload) == [])
      && (c != s && (s !in v.partners || c != v.partners[s]) ==>
            Relay(v', c, kind, payload) == Relay(v, c, kind, payload))
  {
  }

  /** `queue.find(id => id !== last)`: the position of the first waiting
      connection other than `last`. */
  function FirstOther(queue: seq<ConnId>, last: Option<ConnId>): (r: Option<nat>)
    ensures r.Some? ==> r.value < |queue| && Some(queue[r.value]) != last
    ensures r.Some? ==> forall k :: 0 <= k < r.value ==> Some(queue[k]) == last
    ensures r.None? ==> forall k :: 0 <= k < |queue| ==> Some(queue[k]) == last
  {
    if queue == [] then None
    else if Some(queue[0]) != last then Some(0)
    else match FirstOther(queue[1..], last)
      case None => None
      case Some(k) => Some(k + 1)
  }

  function LastPartner(v: Video, s: ConnId): Option<ConnId> {
    if s in v.recent then Some(v.recent[s]) else None
  }

  /** The delayed half of `leave`, run after the timer: pair with the first
      waiting connection that is not the partner just left, or wait at the
      tail; then forget that partner. */
  function Rejoin(v: Video, s: ConnId): (r: (Video, seq<Emission>))
    ensures s !in r.0.recent
    ensures forall c :: c != s ==> (c in r.0.recent <==> c in v.recent)
    ensures s !in v.partners && s in r.0.partners ==> Some(r.0.partners[s]) != LastPartner(v, s)
    ensures s in r.0.partners <==> FirstOther(v.queue, LastPartner(v, s)).Some? || s in v.partners
    ensures FirstOther(v.queue, LastPartner(v, s)).None? ==>
      r.0.queue == v.queue + [s] && r.0.partners == v.partners && r.1 == [Tell(s, WaitingForPartner)]
    ensures FirstOther(v.queue, LastPartner(v, s)).Some? ==>
      var a := v.queue[FirstOther(v.queue, LastPartner(v, s)).value];
      && r.0.queue == Without(v.queue, a)
      && r.0.partners == v.partners[s := a][a := s]
      && r.1 == [Tell(s, PartnerFound), Tell(a, PartnerFound)]
  {
    var last := LastPartner(v, s);
    match FirstOther(v.queue, last)
    case Some(k) =>
      var a := v.queue[k];
      (Video(Without(v.queue, a), v.partners[s := a][a := s], v.recent - {s}),
       [Tell(s, PartnerFound), Tell(a, PartnerFound)])
    case None =>
      (Video(v.queue + [s], v.partners, v.recent - {s}), [Tell(s, WaitingForPartner)])
  }

  /** `leave` followed by its delayed re-pair, with nothing in between. */
  function LeaveAndRejoin(v: Video, s: ConnId): (Video, seq<Emission>) {
    var (v1, out1) := Leave(v, s);
    var (v2, out2) := Rejoin(v1, s);
    (v2, out1 + out2)
  }

  /** Leaving a partner never re-pairs with that same partner at once. */
  lemma NoImmediateRematch(v: Video, s: ConnId)
    requires s in v.partners && v.partners[s] != s
    ensures var v' := LeaveAndRejoin(v, s).0;
      s in v'.partners ==> v'.partners[s] != v.partners[s]
  {
  }

  /** Unpairing keeps the partner map symmetric. */
  lemma LeaveKeepsWellFormed(v: Video, s: ConnId)
    requires WellFormed(v)
    ensures WellFormed(Leave(v, s).0)
  {
    var v1 := Leave(v, s).0;
    if s in v.partners {
      var p := v.partners[s];
      forall a | a in v1.partners
        ensures v1.partners[a] in v1.partners && v1.partners[v1.partners[a]] == a
      {
        assert v.partners[a] != s && v.partners[a] != p;
      }
    }
  }

  /** The re-pair of an idle connection keeps the state well formed. */
  lemma RejoinKeepsWellFormed(v: Video, s: ConnId)
    requires WellFormed(v) && Idle(v, s)
    ensures WellFormed(Rejoin(v, s).0)
  {
    var last := LastPartner(v, s);
    var v2 := Rejoin(v, s).0;
    match FirstOther(v.queue, last)
    case Some(k) =>
      var a := v.queue[k];
      assert a != s && a !in v.partners;
      assert v2.partners == v.partners[s := a][a := s];
      forall b | b in v2.partners
        ensures v2.partners[b] in v2.partners && v2.partners[v2.partners[b]] == b
      {
        if b != s && b != a {
          var c := v.partners[b];
          assert c in v.partners && v.partners[c] == b;
          assert c != s && c != a;
        }
      }
      WithoutKeepsNoDup(v.queue, a);
      forall i | 0 <= i < |v2.queue|
        ensures v2.queue[i] !in v2.partners
      {
        assert v2.queue[i] in v.queue;
      }
    case None =>
      assert v2.partners == v.partners && v2.queue == v.queue + [s];
      forall i | 0 <= i < |v2.queue|
        ensures v2.queue[i] !in v2.partners
      {
        if i < |v.queue| {
          assert v2.queue[i] == v.queue[i];
        }
      }
      assert NoDup(v2.queue) by {
        forall i, j | 0 <= i < j < |v2.queue| ensures v2.queue[i] != v2.queue[j] {
          if j == |v.queue| {
            assert v2.queue[i] == v.queue[i];
          }
        }
      }
  }

  /** A well-formed state stays well formed under `leave` and its re-pair
      by a connection that is not waiting. */
  lemma LeaveAndRejoinKeepWellFormed(v: Video, s: ConnId)
    requires WellFormed(v) && s !in v.queue
    ensures WellFormed(LeaveAndRejoin(v, s).0)
  {
    LeaveKeepsWellFormed(v, s);
    RejoinKeepsWellFormed(Leave(v, s).0, s);
  }

  /** The VideoChat `disconnect` handler: tell and unpair the partner (who
      is not re-queued), drop `s` from the queue and the partner map. */
  function Disconnect(v: Video, s: ConnId): (r: (Video, seq<Emission>))
    ensures s !in r.0.queue && s !in r.0.partners
    ensures r.0.queue == Without(v.queue, s) && r.0.recent == v.recent
    ensures s in v.partners ==>
      v.partners[s] !in r.0.partners && r.1 == [Tell(v.partners[s], PartnerLeft)]
    ensures s in v.partners ==> r.0.partners == v.partners - {v.partners[s], s}
    ensures s !in v.partners ==> r.0.partners == v.partners - {s} && r.1 == []
  {
    if s in v.partners then
      var partner := v.partners[s];
      (v.(queue := Without(v.queue, s), partners := v.partners - {partner} - {s}),
       [Tell(partner, PartnerLeft)])
    else
      (v.(queue := Without(v.queue, s), partners := v.partners - {s}), [])
  }

  /** The partner of a disconnecting connection is left unpaired and not
      waiting: it has to ask for a new partner itself. */
  lemma DisconnectDoesNotRequeue(v: Video, s: ConnId)
    requires WellFormed(v) && s in v.partners
    ensures var p := v.partners[s];
            var v' := Disconnect(v, s).0;
      p !in v'.partners && p !in v'.queue
  {
    var p := v.partners[s];
    assert p !in v.queue;
  }

  lemma DisconnectKeepsWellFormed(v: Video, s: ConnId)
    requires WellFormed(v)
    ensures WellFormed(Disconnect(v, s).0)
  {
    var v' := Disconnect(v, s).0;
    WithoutKeepsNoDup(v.queue, s);
    forall a | a in v'.partners
      ensures v'.partners[a] in v'.partners && v'.partners[v'.partners[a]] == a
    {
      assert v.partners[a] != s;
    }
    forall i | 0 <= i < |v'.queue|
      ensures v'.queue[i] !in v'.partners
    {
      assert v'.queue[i] in v.queue;
    }
  }

  /** Running the cleanup a second time changes nothing and tells nobody:
      the connection-level handler that repeats it sends no second
      `partnerLeft`. */
  lemma DisconnectIdempotent(v: Video, s: ConnId)
    ensures var (v1, _) := Disconnect(v, s);
      Disconnect(v1, s) == (v1, [])
  {
    var v1 := Disconnect(v, s).0;
    assert s !in v1.queue;
    assert v1.partners - {s} == v1.partners;
  }

  // ---------------------------------------------------------------------
  // Quirks

  /** A connection that calls `leave` while waiting, with nobody to avoid,
      is paired with itself: the search for a different user finds its own
      queue entry. */
  lemma WaitingLeaverPairsWithItself(v: Video, s: ConnId, rest: seq<ConnId>)
    requires v.queue == [s] + rest && s !in v.partners && s !in v.recent
    ensures var (v', out) := LeaveAndRejoin(v, s);
      v'.partners[s] == s && out == [Tell(s, PartnerFound), Tell(s, PartnerFound)]
  {
    assert FirstOther(v.queue, None) == Some(0);
  }

  /** From an empty server, one connection can end up queued twice: it
      joins twice (pairing with itself), joins a third time (waiting while
      still paired with itself), then leaves. */
  lemma DuplicateQueueEntry(s: ConnId)
    ensures var v0 := Video([], map[], map[]);
            var v1 := JoinQueue(v0, s).0;
            var v2 := JoinQueue(v1, s).0;
            var v3 := JoinQueue(v2, s).0;
            var (v4, _) := LeaveAndRejoin(v3, s);
      v4.queue == [s, s]
  {
    var v0 := Video([], map[], map[]);
    var v3 := JoinQueue(JoinQueue(JoinQueue(v0, s).0, s).0, s).0;
    assert v3.queue == [s] && v3.partners == map[s := s];
    var v1 := Leave(v3, s).0;
    assert v1.queue == [s] && LastPartner(v1, s) == Some(s);
    assert FirstOther(v1.queue, Some(s)).None?;
  }
}
