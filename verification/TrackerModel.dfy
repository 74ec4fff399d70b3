/** The WebTorrent tracker (tracker.go) as a relation between info hashes and peers: one map from links
    to the connection that announced them. The tracker's two indexes are both proved to hold it. */
module TrackerModel {
  import opened Wrappers

  /** Peer `peer` is in the swarm of `hash`. */
  datatype Link = Link(hash: string, peer: string)

  datatype Offer = Offer(offerID: string, offer: string)

  datatype Answer = Answer(offerID: string, answer: string)

  datatype Request = Request(
    action: string, infoHash: string, peerID: string, toPeerID: string, offers: seq<Offer>, offerID: string,
    answer: Option<Answer>)

  /** A well-formed message of a connection, or its end. */
  datatype Event<S> = Message(conn: S, req: Request) | Disconnect(conn: S)

  /** The links and their owners, and the last peer id each open connection named. */
  datatype Server<S(==)> = Server(links: map<Link, S>, current: map<S, string>)

  function Swarm<S>(links: map<Link, S>, hash: string): set<string> {
    set l | l in links && l.hash == hash :: l.peer
  }

  function Hashes<S>(links: map<Link, S>): set<string> {
    set l | l in links :: l.hash
  }

  function Without<S>(links: map<Link, S>, peer: string): map<Link, S> {
    map l | l in links && l.peer != peer :: links[l]
  }

  predicate Announces(req: Request) {
    req.action == "announce" && req.infoHash != "" && req.peerID != ""
  }

  function MessageStep<S>(links: map<Link, S>, conn: S, req: Request): map<Link, S> {
    if Announces(req) then links[Link(req.infoHash, req.peerID) := conn] else links
  }

  function DisconnectStep<S>(links: map<Link, S>, current: string): map<Link, S> {
    if current != "" then Without(links, current) else links
  }

  function Renamed(current: string, req: Request): string {
    if req.peerID != "" then req.peerID else current
  }

  function Current<S(==)>(t: Server<S>, conn: S): string {
    if conn in t.current then t.current[conn] else ""
  }

  /** Link `l` is there, announced by `conn`. */
  predicate Owns<S(==)>(t: Server<S>, l: Link, conn: S) {
    l in t.links && t.links[l] == conn
  }

  function Step<S(==)>(t: Server<S>, e: Event<S>): Server<S> {
    match e
    case Message(conn, req) =>
      Server(MessageStep(t.links, conn, req), t.current[conn := Renamed(Current(t, conn), req)])
    case Disconnect(conn) =>
      Server(DisconnectStep(t.links, Current(t, conn)), t.current - {conn})
  }

  function State<S(==)>(es: seq<Event<S>>, n: nat): Server<S>
    requires n <= |es|
  {
    if n == 0 then Server(map[], map[]) else Step(State(es, n - 1), es[n - 1])
  }

  // ------------------------------------------------------------------ runs

  /** The message is an announcement of both parts of `l`. */
  predicate AnnouncesLink<S(==)>(e: Event<S>, l: Link) {
    && e.Message? && e.req.action == "announce" && l.hash != "" && l.peer != ""
    && e.req.infoHash == l.hash && e.req.peerID == l.peer
  }

  /** Event `j` ends a connection whose last peer id was `peer`. */
  predicate Ends<S(==)>(es: seq<Event<S>>, j: nat, peer: string)
    requires j < |es|
  {
    es[j].Disconnect? && peer != "" && Current(State(es, j), es[j].conn) == peer
  }

  /** Event `i` announces `l` for `conn`, and nothing since then replaced or removed that link. */
  ghost predicate StandsFrom<S>(es: seq<Event<S>>, n: nat, i: nat, l: Link, conn: S)
    requires n <= |es|
  {
    && i < n && AnnouncesLink(es[i], l) && es[i].conn == conn
    && forall j :: i < j < n ==> !AnnouncesLink(es[j], l) && !Ends(es, j, l.peer)
  }

  ghost predicate Stands<S>(es: seq<Event<S>>, n: nat, l: Link, conn: S)
    requires n <= |es|
  {
    exists i :: StandsFrom(es, n, i, l, conn)
  }

  /** The relation is the history: a link is there for a connection exactly when that connection was the
      last to announce it and no connection that ended since then had the peer as its last name. */
  lemma {:induction false} LinksAreHistory<S>(es: seq<Event<S>>, n: nat, l: Link, conn: S)
    requires n <= |es|
    ensures Owns(State(es, n), l, conn) == Stands(es, n, l, conn)
  {
    if n > 0 {
      LinksAreHistory(es, n - 1, l, conn);
      if AnnouncesLink(es[n - 1], l) {
        assert es[n - 1].conn == conn ==> StandsFrom(es, n, n - 1, l, conn);
      } else if !Ends(es, n - 1, l.peer) {
        if Stands(es, n - 1, l, conn) {
          var i :| StandsFrom(es, n - 1, i, l, conn);
          assert StandsFrom(es, n, i, l, conn);
        }
        if Stands(es, n, l, conn) {
          var i :| StandsFrom(es, n, i, l, conn);
          assert StandsFrom(es, n - 1, i, l, conn);
        }
      }
    }
  }

  /** Every message of `conn` before `n` names `peer` or nobody. */
  ghost predicate NamesOnly<S>(es: seq<Event<S>>, n: nat, conn: S, peer: string)
    requires n <= |es|
  {
    forall i :: 0 <= i < n && es[i].Message? && es[i].conn == conn ==> es[i].req.peerID in ["", peer]
  }

  lemma {:induction false} OwnLinksCarryTheName<S>(es: seq<Event<S>>, n: nat, conn: S, peer: string, l: Link)
    requires n <= |es| && peer != "" && NamesOnly(es, n, conn, peer)
    requires Owns(State(es, n), l, conn)
    ensures l.peer == peer == Current(State(es, n), conn)
  {
    var before := State(es, n - 1);
    if !AnnouncesLink(es[n - 1], l) {
      OwnLinksCarryTheName(es, n - 1, conn, peer, l);
    }
  }

  /** If `l` stands for `conn` after `n` events, it was announced under the last name of `conn`. */
  ghost predicate UnderLastName<S>(es: seq<Event<S>>, n: nat, conn: S, l: Link)
    requires n <= |es|
  {
    Stands(es, n, l, conn) ==> l.peer == Current(State(es, n), conn)
  }

  /** A connection that ends as event `m` leaves no link behind exactly when every announcement of its that
      still stands was made under its last name. */
  lemma LeavesNothingBehind<S>(es: seq<Event<S>>, m: nat, n: nat, conn: S)
    requires n == m + 1 <= |es| && es[m] == Disconnect(conn)
    ensures (forall l :: !Owns(State(es, n), l, conn)) == (forall l :: UnderLastName(es, m, conn, l))
  {
    assert State(es, n) == Step(State(es, m), es[m]);
    forall l
      ensures Owns(State(es, n), l, conn) == !UnderLastName(es, m, conn, l)
    {
      LinksAreHistory(es, m, l, conn);
    }
    if l :| Owns(State(es, n), l, conn) {
      assert !UnderLastName(es, m, conn, l);
    }
  }

  /** In particular a connection that only ever names one peer leaves none. */
  lemma NothingOutlivesItsConnection<S>(es: seq<Event<S>>, m: nat, n: nat, conn: S, peer: string)
    requires n == m + 1 <= |es| && es[m] == Disconnect(conn) && peer != "" && NamesOnly(es, n, conn, peer)
    ensures forall l :: !Owns(State(es, n), l, conn)
  {
    LeavesNothingBehind(es, m, n, conn);
    forall l | Stands(es, m, l, conn)
      ensures UnderLastName(es, m, conn, l)
    {
      LinksAreHistory(es, m, l, conn);
      OwnLinksCarryTheName(es, m, conn, peer, l);
    }
  }

  /** The condition matters: a connection that changes its peer id leaves its first link behind. */
  lemma SecondNameLeavesALink<S>(conn: S, hash: string)
    requires hash != ""
    ensures exists es: seq<Event<S>>, l ::
              |es| == 3 && es[2] == Disconnect(conn) && Owns(State(es, 3), l, conn)
  {
    var a := Request("announce", hash, "A", "", [], "", None);
    var b := Request("announce", hash, "B", "", [], "", None);
    var es := [Message(conn, a), Message(conn, b), Disconnect(conn)];
    var l := Link(hash, "A");
    assert l.peer != "B";
    assert StandsFrom(es, 3, 0, l, conn) by {
      assert State(es, 2) == Step(State(es, 1), es[1]);
      assert Current(State(es, 2), conn) == "B";
      assert !Ends(es, 2, "A");
      assert !Ends(es, 1, "A");
    }
    LinksAreHistory(es, 3, l, conn);
  }
}
