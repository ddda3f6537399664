/** The POP3 exchange the cleanup job drives (RFC 1939), reduced to what the
    job observes: the commands it sends, which of them the remote end refuses,
    and which messages end up removed from the maildrop. */
module Pop3 {

  /** One request to the server: opening the TLS session, then the USER,
      PASS, LIST, DELE and QUIT commands of RFC 1939. */
  datatype Command =
    | Connect(host: string, port: int)
    | User(name: string)
    | Pass(secret: string)
    | List
    | Dele(msg: nat)
    | Quit

  /** The remote end as the client sees it. A command raises (a network,
      TLS, authentication or protocol error) exactly when its 0-based
      position in the session's command sequence is in `failing`; LIST
      reports `listed` messages. Since the commands sent before the first
      failure are fixed, this describes any deterministic server. */
  datatype Server = Server(failing: set<nat>, listed: nat) {
    predicate Fails(position: nat) {
      position in failing
    }
  }

  /** The session states of section 3 of RFC 1939 (`Closed` before the
      connection and after a QUIT in the AUTHORIZATION state). */
  datatype Phase = Closed | Authorization | Transaction | Update

  /** Messages marked by DELE so far, and messages the server has removed. */
  datatype Session = Session(phase: Phase, marked: set<nat>, removed: set<nat>)

  const Initial := Session(Closed, {}, {})

  /** The effect of one command that the server accepted (`ok`) or refused.
      DELE only marks (section 5); the marks are removed when QUIT moves a
      TRANSACTION state session into the UPDATE state (section 6). */
  function Step(s: Session, cmd: Command, ok: bool): Session {
    if !ok then s
    else match cmd
      case Connect(_, _) => if s.phase == Closed then s.(phase := Authorization) else s
      case User(_) => s
      case Pass(_) => if s.phase == Authorization then s.(phase := Transaction) else s
      case List => s
      case Dele(n) => if s.phase == Transaction then s.(marked := s.marked + {n}) else s
      case Quit =>
        if s.phase == Transaction then Session(Update, {}, s.marked)
        else if s.phase == Authorization then s.(phase := Closed)
        else s
  }

  /** The session after the commands `trace[k..]`, started in `s`. */
  function RunFrom(srv: Server, trace: seq<Command>, k: nat, s: Session): Session
    decreases |trace| - k
  {
    if k >= |trace| then s
    else RunFrom(srv, trace, k + 1, Step(s, trace[k], !srv.Fails(k)))
  }

  /** The messages a whole session removes from the maildrop. */
  function Removed(srv: Server, trace: seq<Command>): set<nat> {
    RunFrom(srv, trace, 0, Initial).removed
  }

  /** Marks alone delete nothing: a session in which no QUIT is sent from
      position `k` on removes no more than it had already removed. */
  lemma {:induction false} NoQuitRemovesNothing(srv: Server, trace: seq<Command>, k: nat, s: Session)
    requires forall j :: k <= j < |trace| ==> trace[j] != Quit
    ensures RunFrom(srv, trace, k, s).removed == s.removed
    decreases |trace| - k
  {
    if k < |trace| {
      NoQuitRemovesNothing(srv, trace, k + 1, Step(s, trace[k], !srv.Fails(k)));
    }
  }

  /** Corollary for a whole session. */
  lemma NoQuitNoRemoval(srv: Server, trace: seq<Command>)
    requires forall j :: 0 <= j < |trace| ==> trace[j] != Quit
    ensures Removed(srv, trace) == {}
  {
    NoQuitRemovesNothing(srv, trace, 0, Initial);
  }
}
