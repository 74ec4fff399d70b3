/** The WebTorrent tracker (tracker.go): the two nested maps and the messages sent. */
module Tracker {
  import opened Maps
  import opened Wrappers
  import opened TrackerModel

  class PeerSession {
    var peerID: string

    constructor ()
      ensures peerID == ""
    {
      peerID := "";
    }
  }

  datatype Response =
    | Malformed
    | Missing
    | Announced(hash: string, interval: nat, complete: nat)
    | Scraped(hash: string, complete: nat)
    | OfferFrom(hash: string, peer: string, offer: Offer)
    | AnswerFrom(hash: string, peer: string, offerID: string, answer: string)

  datatype Sent = Sent(to: PeerSession, msg: Response)

  const ANNOUNCE_INTERVAL := 120

  function Min(a: nat, b: nat): nat {
    if a < b then a else b
  }

  predicate InSwarms(swarms: map<string, map<string, PeerSession>>, l: Link) {
    l.hash in swarms && l.peer in swarms[l.hash]
  }

  predicate InPeers(peers: map<string, set<string>>, l: Link) {
    l.peer in peers && l.hash in peers[l.peer]
  }

  /** The swarm index holds exactly `links`, and no empty swarm. */
  ghost predicate SwarmsHold(swarms: map<string, map<string, PeerSession>>, links: map<Link, PeerSession>) {
    && (forall l :: InSwarms(swarms, l) == (l in links))
    && (forall l :: l in links ==> swarms[l.hash][l.peer] == links[l])
    && (forall h :: h in swarms ==> swarms[h] != map[])
  }

  ghost predicate PeersHold(peers: map<string, set<string>>, links: map<Link, PeerSession>) {
    && (forall l :: InPeers(peers, l) == (l in links))
    && (forall p :: p in peers ==> peers[p] != {})
  }

  /** The links while `peer` is being removed: those under `todo` are still there. */
  function Remaining(links: map<Link, PeerSession>, peer: string, todo: set<string>): map<Link, PeerSession> {
    map l | l in links && (l.peer != peer || l.hash in todo) :: links[l]
  }

  lemma SwarmIsKeys(swarms: map<string, map<string, PeerSession>>, links: map<Link, PeerSession>, hash: string)
    requires SwarmsHold(swarms, links)
    ensures Swarm(links, hash) == if hash in swarms then swarms[hash].Keys else {}
  {
    forall p
      ensures (p in Swarm(links, hash)) == InSwarms(swarms, Link(hash, p))
    {
      assert p in Swarm(links, hash) <==> Link(hash, p) in links;
    }
  }

  lemma HashesAreKeys(swarms: map<string, map<string, PeerSession>>, links: map<Link, PeerSession>)
    requires SwarmsHold(swarms, links)
    ensures Hashes(links) == swarms.Keys
  {
    forall h | h in swarms
      ensures h in Hashes(links)
    {
      var p :| p in swarms[h];
      assert InSwarms(swarms, Link(h, p));
    }
    forall h | h in Hashes(links)
      ensures h in swarms
    {
      var l :| l in links && l.hash == h;
      assert InSwarms(swarms, l);
    }
  }

  lemma RemoveOne(swarms: map<string, map<string, PeerSession>>, swarms': map<string, map<string, PeerSession>>,
                  links: map<Link, PeerSession>, peer: string, todo: set<string>, hash: string)
    requires SwarmsHold(swarms, Remaining(links, peer, todo)) && hash in todo && hash in swarms
    requires var swarm := swarms[hash] - {peer};
             swarms' == if swarm == map[] then swarms - {hash} else swarms[hash := swarm]
    ensures SwarmsHold(swarms', Remaining(links, peer, todo - {hash}))
  {
    var before, after := Remaining(links, peer, todo), Remaining(links, peer, todo - {hash});
    forall l
      ensures InSwarms(swarms', l) == (l in after)
    {
      assert InSwarms(swarms, l) == (l in before);
      assert l.hash == hash ==>
          (l.peer in swarms[hash] - {peer} <==> l.peer in swarms[hash] && l.peer != peer);
      assert InSwarms(swarms', l) == (InSwarms(swarms, l) && l != Link(hash, peer));
    }
    forall l | l in after
      ensures swarms'[l.hash][l.peer] == after[l]
    {
      assert InSwarms(swarms', l) && l in before;
    }
  }

  lemma NothingToRemove(swarms: map<string, map<string, PeerSession>>, links: map<Link, PeerSession>,
                        peer: string, todo: set<string>, hash: string)
    requires SwarmsHold(swarms, Remaining(links, peer, todo)) && hash in todo && hash !in swarms
    ensures Remaining(links, peer, todo - {hash}) == Remaining(links, peer, todo)
  {
    forall l | l in Remaining(links, peer, todo)
      ensures l.hash != hash
    {
      assert InSwarms(swarms, l);
    }
  }

  lemma RemoveLast(peers: map<string, set<string>>, links: map<Link, PeerSession>, peer: string)
    requires PeersHold(peers, links)
    ensures PeersHold(peers - {peer}, Without(links, peer))
    ensures Remaining(links, peer, if peer in peers then peers[peer] else {}) == links
    ensures Remaining(links, peer, {}) == Without(links, peer)
  {
    forall l
      ensures InPeers(peers - {peer}, l) == (l in Without(links, peer))
    {
      assert InPeers(peers, l) == (l in links);
    }
    forall l | l in links && l.peer == peer
      ensures l.peer in peers && l.hash in peers[peer]
    {
      assert InPeers(peers, l);
    }
  }

  lemma JoinSwarms(swarms: map<string, map<string, PeerSession>>, links: map<Link, PeerSession>,
                   hash: string, peer: string, session: PeerSession)
    requires SwarmsHold(swarms, links)
    ensures var swarm: map<string, PeerSession> := if hash in swarms then swarms[hash] else map[];
            SwarmsHold(swarms[hash := swarm[peer := session]], links[Link(hash, peer) := session])
  {
    var swarm: map<string, PeerSession> := if hash in swarms then swarms[hash] else map[];
    var swarms' := swarms[hash := swarm[peer := session]];
    forall l
      ensures InSwarms(swarms', l) == (l in links[Link(hash, peer) := session])
    {
      assert InSwarms(swarms, l) == (l in links);
    }
    forall l | l in links[Link(hash, peer) := session]
      ensures swarms'[l.hash][l.peer] == links[Link(hash, peer) := session][l]
    {
      assert InSwarms(swarms, l) == (l in links);
    }
    assert peer in swarms'[hash];
  }

  lemma JoinPeers(peers: map<string, set<string>>, links: map<Link, PeerSession>,
                  hash: string, peer: string, session: PeerSession)
    requires PeersHold(peers, links)
    ensures var hashes := if peer in peers then peers[peer] else {};
            PeersHold(peers[peer := hashes + {hash}], links[Link(hash, peer) := session])
  {
    var hashes := if peer in peers then peers[peer] else {};
    var peers', links' := peers[peer := hashes + {hash}], links[Link(hash, peer) := session];
    forall l
      ensures InPeers(peers', l) == (l in links')
    {
      assert InPeers(peers, l) == (l in links);
    }
  }

  /** Messages to distinct peers of the swarm, never to the announcer, with the offers in order. */
  ghost predicate SpreadTo(swarm: map<string, PeerSession>, req: Request, sent: seq<Sent>, targets: seq<string>) {
    && |sent| == |targets| <= |req.offers|
    && (forall i, j :: 0 <= i < j < |targets| ==> targets[i] != targets[j])
    && (forall i :: 0 <= i < |sent| ==>
          && targets[i] in swarm && targets[i] != req.peerID
          && sent[i] == Sent(swarm[targets[i]], OfferFrom(req.infoHash, req.peerID, req.offers[i])))
  }

  lemma SpreadOneMore(swarm: map<string, PeerSession>, req: Request, sent: seq<Sent>, targets: seq<string>,
                      peer: string)
    requires SpreadTo(swarm, req, sent, targets) && |sent| < |req.offers|
    requires peer in swarm && peer != req.peerID && peer !in targets
    ensures var offer := OfferFrom(req.infoHash, req.peerID, req.offers[|sent|]);
            SpreadTo(swarm, req, sent + [Sent(swarm[peer], offer)], targets + [peer])
  {
  }

  lemma VisitOne(others: set<string>, keys: set<string>, p: string)
    requires p in keys
    ensures |others - (keys - {p})| == |others - keys| + if p in others then 1 else 0
    ensures |others - (keys - {p})| <= |others|
  {
    if p in others {
      assert others - (keys - {p}) == others - keys + {p};
    } else {
      assert others - (keys - {p}) == others - keys;
    }
    assert others == (others - (keys - {p})) + (others * (keys - {p}));
  }

  class WebTorrentTracker {
    var swarms: map<string, map<string, PeerSession>>
    var peers: map<string, set<string>>
    ghost var links: map<Link, PeerSession>

    /** Both indexes hold the same links. */
    ghost predicate Valid()
      reads this
    {
      SwarmsHold(swarms, links) && PeersHold(peers, links)
    }

    constructor ()
      ensures Valid() && links == map[]
    {
      swarms, peers, links := map[], map[], map[];
    }

    /** One message of a connection; None is one that does not parse. */
    method Receive(session: PeerSession, msg: Option<Request>) returns (sent: seq<Sent>, ghost targets: seq<string>)
      requires Valid()
      modifies this, session
      ensures Valid()
      ensures msg.None? ==> links == old(links) && session.peerID == old(session.peerID)
      ensures msg.None? ==> sent == [Sent(session, Malformed)]
      ensures msg.Some? ==> links == MessageStep(old(links), session, msg.value)
      ensures msg.Some? ==> session.peerID == Renamed(old(session.peerID), msg.value)
      ensures msg.Some? && msg.value.action == "announce" ==> Announced(session, msg.value, sent, targets)
      ensures msg.Some? && msg.value.action == "scrape" ==>
                sent == [Sent(session, Scraped(msg.value.infoHash, |Swarm(links, msg.value.infoHash)|))]
      ensures msg.Some? && msg.value.action != "announce" && msg.value.action != "scrape" ==>
                if msg.value.toPeerID == "" then sent == [] else Forwarded(session, msg.value, sent)
    {
      targets := [];
      if msg.None? {
        return [Sent(session, Malformed)], targets;
      }
      var req := msg.value;
      if req.peerID != "" {
        session.peerID := req.peerID;
      }
      if req.action == "announce" {
        sent, targets := HandleAnnounce(session, req);
      } else if req.action == "scrape" {
        sent := HandleScrape(session, req);
      } else if req.toPeerID != "" {
        sent := ForwardSignal(session, req);
      } else {
        sent := [];
      }
    }

    method Disconnected(session: PeerSession)
      requires Valid()
      modifies this
      ensures Valid() && links == DisconnectStep(old(links), session.peerID)
    {
      if session.peerID != "" {
        RemovePeer(session.peerID);
      }
    }

    /** The messages an announcement causes: one reply to the announcer, with the size of the swarm, and the
        offers; or only a complaint when the hash or the peer is missing. */
    ghost predicate Announced(session: PeerSession, req: Request, sent: seq<Sent>, targets: seq<string>)
      reads this
    {
      if req.infoHash == "" || req.peerID == "" then sent == [Sent(session, Missing)]
      else
        && |sent| > 0 && sent[0].to == session
        && sent[0].msg == Response.Announced(req.infoHash, 120, |Swarm(links, req.infoHash)|)
        && OffersSpread(sent[1..], targets, req)
    }

    /** The messages a request to a peer causes: an answer goes to the peer it names, if that peer is in the
        swarm of the hash, in the name of the sender, and nothing goes to anybody else. */
    ghost predicate Forwarded(session: PeerSession, req: Request, sent: seq<Sent>)
      reads this, session
    {
      var l := Link(req.infoHash, req.toPeerID);
      if l !in links || req.answer.None? then sent == []
      else
        sent == [Sent(links[l], AnswerFrom(req.infoHash, session.peerID, req.offerID, req.answer.value.answer))]
    }

    method HandleAnnounce(session: PeerSession, req: Request) returns (sent: seq<Sent>, ghost targets: seq<string>)
      requires Valid() && req.action == "announce"
      modifies this
      ensures Valid() && links == MessageStep(old(links), session, req)
      ensures Announced(session, req, sent, targets)
    {
      targets := [];
      if req.infoHash == "" || req.peerID == "" {
        return [Sent(session, Missing)], targets;
      }
      Join(session, req.infoHash, req.peerID);
      SwarmIsKeys(swarms, links, req.infoHash);
      sent := [Sent(session, Response.Announced(req.infoHash, ANNOUNCE_INTERVAL, |swarms[req.infoHash]|))];
      var offers := [];
      offers, targets := DistributeOffers(req);
      sent := sent + offers;
      assert sent[1..] == offers;
    }

    method Join(session: PeerSession, hash: string, peer: string)
      requires Valid()
      modifies this
      ensures Valid() && links == old(links)[Link(hash, peer) := session]
      ensures hash in swarms
    {
      JoinSwarms(swarms, links, hash, peer, session);
      JoinPeers(peers, links, hash, peer, session);
      EnterSwarm(hash, peer, session);
      EnterPeers(hash, peer);
      links := links[Link(hash, peer) := session];
    }

    method EnterSwarm(hash: string, peer: string, session: PeerSession)
      modifies this`swarms
      ensures var swarm: map<string, PeerSession> := if hash in old(swarms) then old(swarms)[hash] else map[];
              swarms == old(swarms)[hash := swarm[peer := session]]
    {
      PutTwice(swarms, hash, map[], map[peer := session]);
      if hash !in swarms {
        swarms := swarms[hash := map[]];
      }
      swarms := swarms[hash := swarms[hash][peer := session]];
    }

    method EnterPeers(hash: string, peer: string)
      modifies this`peers
      ensures var hashes := if peer in old(peers) then old(peers)[peer] else {};
              peers == old(peers)[peer := hashes + {hash}]
    {
      PutTwice(peers, peer, {}, {} + {hash});
      if peer !in peers {
        peers := peers[peer := {}];
      }
      peers := peers[peer := peers[peer] + {hash}];
    }

    /** The swarm of a hash, as the links tell it. */
    ghost function SwarmOf(hash: string): (swarm: map<string, PeerSession>)
      reads this
      ensures swarm.Keys == Swarm(links, hash)
    {
      map p | p in Swarm(links, hash) :: links[Link(hash, p)]
    }

    /** The offers of `req` are spread: as many messages as there are offers and other peers, to distinct
        peers of the swarm, never to the announcer, with the offers in order and each used once. */
    ghost predicate OffersSpread(sent: seq<Sent>, targets: seq<string>, req: Request)
      reads this
    {
      && |sent| == Min(|req.offers|, |Swarm(links, req.infoHash) - {req.peerID}|)
      && SpreadTo(SwarmOf(req.infoHash), req, sent, targets)
    }

    method DistributeOffers(req: Request) returns (sent: seq<Sent>, ghost targets: seq<string>)
      requires Valid()
      ensures |sent| == Min(|req.offers|, |Swarm(links, req.infoHash) - {req.peerID}|)
      ensures SpreadTo(SwarmOf(req.infoHash), req, sent, targets)
    {
      sent, targets := [], [];
      SwarmIsKeys(swarms, links, req.infoHash);
      if req.infoHash in swarms {
        assert SwarmOf(req.infoHash) == swarms[req.infoHash] by {
          forall p | p in swarms[req.infoHash]
            ensures Link(req.infoHash, p) in links
          {
            assert InSwarms(swarms, Link(req.infoHash, p));
          }
        }
        sent, targets := SpreadOver(swarms[req.infoHash], req);
      }
    }

    /** The loop over the swarm, in whatever order it is iterated. */
    static method SpreadOver(swarm: map<string, PeerSession>, req: Request)
      returns (sent: seq<Sent>, ghost targets: seq<string>)
      ensures |sent| == Min(|req.offers|, |swarm.Keys - {req.peerID}|)
      ensures SpreadTo(swarm, req, sent, targets)
    {
      ghost var others := swarm.Keys - {req.peerID};
      var keys := swarm.Keys;
      var offerIdx := 0;
      sent, targets := [], [];
      while keys != {}
        invariant keys <= swarm.Keys && offerIdx == |sent| == |others - keys|
        invariant forall p :: p in targets ==> p !in keys
        invariant SpreadTo(swarm, req, sent, targets)
      {
        var peerID :| peerID in keys;
        VisitOne(others, keys, peerID);
        keys := keys - {peerID};
        if peerID != req.peerID {
          if offerIdx >= |req.offers| {
            break;
          }
          var offer := OfferFrom(req.infoHash, req.peerID, req.offers[offerIdx]);
          SpreadOneMore(swarm, req, sent, targets, peerID);
          sent := sent + [Sent(swarm[peerID], offer)];
          targets := targets + [peerID];
          offerIdx := offerIdx + 1;
        }
      }
    }

    method ForwardSignal(session: PeerSession, req: Request) returns (sent: seq<Sent>)
      requires Valid()
      ensures Forwarded(session, req, sent)
    {
      assert InSwarms(swarms, Link(req.infoHash, req.toPeerID)) == (Link(req.infoHash, req.toPeerID) in links);
      sent := [];
      if req.infoHash in swarms {
        var swarm := swarms[req.infoHash];
        if req.toPeerID in swarm {
          if req.answer.Some? {
            sent := [Sent(swarm[req.toPeerID],
                          AnswerFrom(req.infoHash, session.peerID, req.offerID, req.answer.value.answer))];
          }
        }
      }
    }

    method HandleScrape(session: PeerSession, req: Request) returns (sent: seq<Sent>)
      requires Valid()
      ensures sent == [Sent(session, Scraped(req.infoHash, |Swarm(links, req.infoHash)|))]
    {
      SwarmIsKeys(swarms, links, req.infoHash);
      var swarmSize := 0;
      if req.infoHash in swarms {
        swarmSize := |swarms[req.infoHash]|;
      }
      sent := [Sent(session, Scraped(req.infoHash, swarmSize))];
    }

    method RemovePeer(peerID: string)
      requires Valid()
      modifies this
      ensures Valid() && links == Without(old(links), peerID)
    {
      RemoveLast(peers, links, peerID);
      if peerID in peers {
        LeaveSwarms(peerID, peers[peerID]);
        peers := peers - {peerID};
      }
      links := Without(links, peerID);
    }

    method LeaveSwarms(peer: string, hashes: set<string>)
      requires SwarmsHold(swarms, Remaining(links, peer, hashes))
      modifies this`swarms
      ensures SwarmsHold(swarms, Remaining(links, peer, {}))
    {
      var todo := hashes;
      while todo != {}
        invariant SwarmsHold(swarms, Remaining(links, peer, todo))
      {
        var infoHash :| infoHash in todo;
        if infoHash in swarms {
          ghost var was := swarms;
          var swarm := swarms[infoHash] - {peer};
          if |swarm| == 0 {
            swarms := swarms - {infoHash};
          } else {
            swarms := swarms[infoHash := swarm];
          }
          RemoveOne(was, swarms, links, peer, todo, infoHash);
        } else {
          NothingToRemove(swarms, links, peer, todo, infoHash);
        }
        todo := todo - {infoHash};
      }
    }

    method SwarmCount() returns (n: nat)
      requires Valid()
      ensures n == |Hashes(links)|
    {
      HashesAreKeys(swarms, links);
      return |swarms|;
    }
  }
}
