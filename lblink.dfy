/**
 * The game server's link to the load balancer, driven by the single flag
 * `isConnectedToLoadBalancer`. Socket I/O is replaced by the outcome each
 * pass of a loop observes; the handshake helpers' results are such outcomes.
 */
module LoadBalancer {

  /** What one pass of the discovery loop observes. */
  datatype DiscoveryEvent =
    | ReceiveTimeout        // the broadcast receive timed out
    | HandshakeRejected     // a packet arrived and the handshake check refused it
    | ConfirmationMissing   // handshake accepted, acknowledgment sent, no confirmation
    | ConfirmationReceived  // handshake accepted, acknowledgment sent, confirmation received
    | ConnectionError       // any other exception raised during the pass

  /** The link flag and how many times the persistent LB socket has been recreated. */
  datatype Link = Link(connected: bool, socketGeneration: nat)

  /** One pass of the discovery loop from a disconnected link. */
  function Step(s: Link, e: DiscoveryEvent): Link
  {
    match e
    case ConfirmationReceived => s.(connected := true)
    case ConnectionError => s.(socketGeneration := s.socketGeneration + 1)
    case _ => s
  }

  datatype Discovery = Discovery(link: Link, consumed: nat)

  /** `_establishLoadBalancerConnection`: passes run while the link is down. */
  function Discover(s: Link, events: seq<DiscoveryEvent>): (d: Discovery)
    ensures d.consumed <= |events|
    decreases |events|
  {
    if s.connected || events == [] then Discovery(s, 0)
    else
      var d := Discover(Step(s, events[0]), events[1..]);
      Discovery(d.link, d.consumed + 1)
  }

  function CountErrors(events: seq<DiscoveryEvent>): nat
  {
    if events == [] then 0
    else (if events[0] == ConnectionError then 1 else 0) + CountErrors(events[1..])
  }

  /**
   * From a disconnected link, discovery connects exactly when some pass
   * receives the confirmation; it stops right after the first such pass,
   * and every pass before it left the link disconnected.
   */
  lemma {:induction false} DiscoverConnectsOnConfirmation(s: Link, events: seq<DiscoveryEvent>)
    requires !s.connected
    ensures var d := Discover(s, events);
      && (d.link.connected <==> ConfirmationReceived in events)
      && (d.link.connected ==> 0 < d.consumed && events[d.consumed - 1] == ConfirmationReceived)
      && (!d.link.connected ==> d.consumed == |events|)
      && (forall i :: 0 <= i < d.consumed - 1 ==> events[i] != ConfirmationReceived)
    decreases |events|
  {
    if events != [] {
      var s' := Step(s, events[0]);
      if !s'.connected {
        DiscoverConnectsOnConfirmation(s', events[1..]);
        var d' := Discover(s', events[1..]);
        forall i | 0 <= i < d'.consumed ensures events[i + 1] == events[1..][i] { }
        assert events == [events[0]] + events[1..];
      }
    }
  }

  /** Each pass that raises another error recreates the LB socket once; nothing else does. */
  lemma {:induction false} DiscoverRecreatesSocketPerError(s: Link, events: seq<DiscoveryEvent>)
    ensures var d := Discover(s, events);
      d.link.socketGeneration == s.socketGeneration + CountErrors(events[..d.consumed])
    decreases |events|
  {
    if !s.connected && events != [] {
      var d := Discover(s, events);
      DiscoverRecreatesSocketPerError(Step(s, events[0]), events[1..]);
      assert events[..d.consumed] == [events[0]] + events[1..][..d.consumed - 1];
    }
  }

  /** A link that is already up runs no discovery pass. */
  lemma DiscoverWhenConnected(s: Link, events: seq<DiscoveryEvent>)
    requires s.connected
    ensures Discover(s, events) == Discovery(s, 0)
  {
  }

  /** Outcome of one round of the steady-state loop (three LB handler calls). */
  datatype Round = RoundCompleted | RoundFailed

  datatype Steady = Steady(connected: bool, roundsRun: nat)

  /** The steady-state loop of `_handleLoadBalancerProtocol`: an error demotes the link and ends the loop. */
  function SteadyLoop(connected: bool, rounds: seq<Round>): (r: Steady)
    ensures r.roundsRun <= |rounds|
  {
    if !connected || rounds == [] then Steady(connected, 0)
    else if rounds[0] == RoundFailed then Steady(false, 1)
    else
      var r := SteadyLoop(true, rounds[1..]);
      Steady(r.connected, r.roundsRun + 1)
  }

  /**
   * The link stays up exactly when it was up and no round failed; a failed
   * round is the last one run and demotes the link.
   */
  lemma {:induction false} SteadyLoopDemotesOnError(connected: bool, rounds: seq<Round>)
    ensures var r := SteadyLoop(connected, rounds);
      && (r.connected <==> connected && RoundFailed !in rounds)
      && (connected && RoundFailed in rounds ==> 0 < r.roundsRun && rounds[r.roundsRun - 1] == RoundFailed)
      && (forall i :: 0 <= i < r.roundsRun - 1 ==> rounds[i] == RoundCompleted)
      && (r.connected ==> r.roundsRun == |rounds|)
  {
    if connected && rounds != [] && rounds[0] == RoundCompleted {
      SteadyLoopDemotesOnError(true, rounds[1..]);
      var r' := SteadyLoop(true, rounds[1..]);
      forall i | 0 <= i < r'.roundsRun ensures rounds[i + 1] == rounds[1..][i] { }
      assert rounds == [rounds[0]] + rounds[1..];
    }
  }
}
