/**
 * The game server's mutable bookkeeping: region assignment, the world-state
 * tables, the bot registry and the load-balancer link flag. Each locked
 * section of the server is one atomic step here.
 */
module Server {
  import opened Common
  import opened Spawn
  import opened World
  import LoadBalancer

  /** Bots requested once the region is known. */
  const InitialBotCount: int := 25

  /** The registry entry of a freshly spawned bot: at its spawn point, target (0, 0), idle. */
  function NewBot(p: Pos, aggressive: bool): Bot
  {
    Bot(p.0, p.1, 0, 0, aggressive, false, false)
  }

  /** Ids `lo .. hi - 1` that are not registered, in increasing order. */
  function NewIds(lo: int, hi: int, registered: set<int>): seq<int>
    decreases hi - lo
  {
    if hi <= lo then []
    else (if lo in registered then [] else [lo]) + NewIds(lo + 1, hi, registered)
  }

  /** The ids appended to the iteration order are exactly the unregistered ones in range. */
  lemma {:induction false} NewIdsMembers(lo: int, hi: int, registered: set<int>)
    ensures forall id :: id in NewIds(lo, hi, registered) <==> lo <= id < hi && id !in registered
    decreases hi - lo
  {
    if lo < hi {
      NewIdsMembers(lo + 1, hi, registered);
    }
  }

  /** ... and they are listed in increasing order. */
  lemma {:induction false} NewIdsAscending(lo: int, hi: int, registered: set<int>)
    ensures forall i, j :: 0 <= i < j < |NewIds(lo, hi, registered)| ==> NewIds(lo, hi, registered)[i] < NewIds(lo, hi, registered)[j]
    decreases hi - lo
  {
    if lo < hi {
      NewIdsAscending(lo + 1, hi, registered);
      NewIdsMembers(lo + 1, hi, registered);
      var rest := NewIds(lo + 1, hi, registered);
      var ids := NewIds(lo, hi, registered);
      if lo in registered {
        assert ids == rest;
      } else {
        assert ids == [lo] + rest;
        forall i, j | 0 <= i < j < |ids| ensures ids[i] < ids[j] {
          assert ids[j] == rest[j - 1];
          if i == 0 {
            assert rest[j - 1] in rest;
          } else {
            assert ids[i] == rest[i - 1] && 0 <= i - 1 < j - 1 < |rest|;
          }
        }
      }
    }
  }

  /** Registering an id below the range does not change which ids in the range are new. */
  lemma {:induction false} NewIdsIgnoresBelow(lo: int, hi: int, registered: set<int>, id: int)
    requires id < lo
    ensures NewIds(lo, hi, registered + {id}) == NewIds(lo, hi, registered)
    decreases hi - lo
  {
    if lo < hi {
      NewIdsIgnoresBelow(lo + 1, hi, registered, id);
    }
  }

  /** Registering id i moves it from the pending ids to the iteration order (when it is new). */
  lemma OrderStep(order: seq<int>, registered: set<int>, i: int, hi: int)
    requires i < hi
    ensures (if i in registered then order else order + [i]) + NewIds(i + 1, hi, registered + {i})
         == order + NewIds(i, hi, registered)
  {
    NewIdsIgnoresBelow(i + 1, hi, registered, i);
  }

  /** `m` after writing `values[k]` under key k for k = i, i + 1, ... in turn. */
  function WriteFrom<V>(m: map<int, V>, values: seq<V>, i: nat): map<int, V>
    decreases |values| - i
  {
    if i >= |values| then m else WriteFrom(m[i := values[i]], values, i + 1)
  }

  /** Keys `i .. |values| - 1` now hold their values; every other entry is unchanged. */
  lemma {:induction false} WriteFromFacts<V>(m: map<int, V>, values: seq<V>, i: nat)
    ensures var m' := WriteFrom(m, values, i);
      && (forall k :: k in m' <==> k in m || i <= k < |values|)
      && (forall k :: i <= k < |values| ==> m'[k] == values[k])
      && (forall k :: k in m && !(i <= k < |values|) ==> m'[k] == m[k])
    decreases |values| - i
  {
    if i < |values| {
      WriteFromFacts(m[i := values[i]], values, i + 1);
    }
  }

  /** The player record written for each placed bot, in placement order. */
  function BotRecords(ps: seq<Pos>, aggression: seq<bool>): seq<Record>
    requires |ps| <= |aggression|
  {
    seq(|ps|, k requires 0 <= k < |ps| => BotRecord(ps[k].0, ps[k].1, aggression[k]))
  }

  /** The registry entry for each placed bot, in placement order. */
  function NewBots(ps: seq<Pos>, aggression: seq<bool>): seq<Bot>
    requires |ps| <= |aggression|
  {
    seq(|ps|, k requires 0 <= k < |ps| => NewBot(ps[k], aggression[k]))
  }

  function EmptyDeltas(n: nat): seq<Record>
  {
    seq(n, _ => map[])
  }

  /**
   * After spawning, id i < |ps| holds the placed bot's player record (angle
   * 0, health 100, type = its aggression); the ids written are exactly
   * 0 .. |ps| - 1 and every other record is unchanged.
   */
  lemma SpawnedPlayerRecords(players: Table, ps: seq<Pos>, aggression: seq<bool>)
    requires |ps| <= |aggression|
    ensures var p' := WriteFrom(players, BotRecords(ps, aggression), 0);
      && (forall id :: id in p' <==> id in players || 0 <= id < |ps|)
      && (forall i :: 0 <= i < |ps| ==> p'[i] == BotRecord(ps[i].0, ps[i].1, aggression[i]))
      && (forall id :: id in players && !(0 <= id < |ps|) ==> p'[id] == players[id])
  {
    WriteFromFacts(players, BotRecords(ps, aggression), 0);
  }

  /** After spawning n bots, ids 0 .. n - 1 hold an empty delta and every other delta is unchanged. */
  lemma SpawnedDeltas(deltas: Table, n: nat)
    ensures var d' := WriteFrom(deltas, EmptyDeltas(n), 0);
      && (forall id :: id in d' <==> id in deltas || 0 <= id < n)
      && (forall i :: 0 <= i < n ==> d'[i] == map[])
      && (forall id :: id in deltas && !(0 <= id < n) ==> d'[id] == deltas[id])
  {
    WriteFromFacts(deltas, EmptyDeltas(n), 0);
  }

  /** After spawning, id i < |ps| is registered as the bot placed at `ps[i]`; other entries are unchanged. */
  lemma SpawnedRegistry(bots: map<int, Bot>, ps: seq<Pos>, aggression: seq<bool>)
    requires |ps| <= |aggression|
    ensures var b' := WriteFrom(bots, NewBots(ps, aggression), 0);
      && (forall id :: id in b' <==> id in bots || 0 <= id < |ps|)
      && (forall i :: 0 <= i < |ps| ==> b'[i] == NewBot(ps[i], aggression[i]))
      && (forall id :: id in bots && !(0 <= id < |ps|) ==> b'[id] == bots[id])
  {
    WriteFromFacts(bots, NewBots(ps, aggression), 0);
  }

  class GameServer {
    var regionIndex: int
    var boundary: Pos                // serverBoundaryCoordinates
    var players: Table               // activePlayerData
    var deltas: Table                // gameStateUpdates
    var bots: map<int, Bot>          // enhancedBotManager
    var botOrder: seq<int>           // its iteration (insertion) order
    var link: LoadBalancer.Link      // isConnectedToLoadBalancer and the LB socket's generation

    /** The registry's iteration order lists every registered id once. */
    ghost predicate Valid()
      reads this
    {
      && (forall i, j :: 0 <= i < j < |botOrder| ==> botOrder[i] != botOrder[j])
      && (forall id :: id in botOrder <==> id in bots)
    }

    constructor ()
      ensures Valid()
      ensures regionIndex == 0 && boundary == (0, 0)
      ensures players == map[] && deltas == map[] && bots == map[] && botOrder == []
      ensures link == LoadBalancer.Link(false, 0)
    {
      regionIndex := 0;
      boundary := (0, 0);
      players := map[];
      deltas := map[];
      bots := map[];
      botOrder := [];
      link := LoadBalancer.Link(false, 0);
    }

    /** Registers bot `id` at `p`: player record, empty delta and registry entry in one step. */
    method RegisterBot(id: int, p: Pos, aggressive: bool)
      requires Valid()
      modifies this
      ensures Valid()
      ensures players == old(players)[id := BotRecord(p.0, p.1, aggressive)]
      ensures deltas == old(deltas)[id := map[]]
      ensures bots == old(bots)[id := NewBot(p, aggressive)]
      ensures botOrder == if id in old(bots) then old(botOrder) else old(botOrder) + [id]
      ensures regionIndex == old(regionIndex) && boundary == old(boundary) && link == old(link)
    {
      players := players[id := BotRecord(p.0, p.1, aggressive)];
      deltas := deltas[id := map[]];
      if id !in bots {
        botOrder := botOrder + [id];
      }
      bots := bots[id := NewBot(p, aggressive)];
    }

    /** The table writes of `spawnEnhancedBotsInRegion`: bot i of `positions` under id i, in order. */
    method RegisterBots(positions: seq<Pos>, aggression: seq<bool>)
      requires Valid() && |positions| <= |aggression|
      modifies this
      ensures Valid()
      ensures players == WriteFrom(old(players), BotRecords(positions, aggression), 0)
      ensures deltas == WriteFrom(old(deltas), EmptyDeltas(|positions|), 0)
      ensures bots == WriteFrom(old(bots), NewBots(positions, aggression), 0)
      ensures botOrder == old(botOrder) + NewIds(0, |positions|, old(bots).Keys)
      ensures regionIndex == old(regionIndex) && boundary == old(boundary) && link == old(link)
    {
      var records, entries, empty := BotRecords(positions, aggression), NewBots(positions, aggression), EmptyDeltas(|positions|);
      ghost var players0, deltas0, bots0, order0 := players, deltas, bots, botOrder;
      var i := 0;
      while i < |positions|
        invariant i <= |positions| && Valid()
        invariant WriteFrom(players, records, i) == WriteFrom(players0, records, 0)
        invariant WriteFrom(deltas, empty, i) == WriteFrom(deltas0, empty, 0)
        invariant WriteFrom(bots, entries, i) == WriteFrom(bots0, entries, 0)
        invariant botOrder + NewIds(i, |positions|, bots.Keys) == order0 + NewIds(0, |positions|, bots0.Keys)
        invariant regionIndex == old(regionIndex) && boundary == old(boundary) && link == old(link)
      {
        ghost var order, registered := botOrder, bots.Keys;
        assert records[i] == BotRecord(positions[i].0, positions[i].1, aggression[i]);
        assert entries[i] == NewBot(positions[i], aggression[i]) && empty[i] == map[];
        RegisterBot(i, positions[i], aggression[i]);
        OrderStep(order, registered, i, |positions|);
        assert bots.Keys == registered + {i};
        i := i + 1;
      }
    }

    /**
     * `spawnEnhancedBotsInRegion`: place up to `numberOfBots` bots from the
     * region's corner and register the i-th placed position under id i.
     * `draws` drives the sampler and `aggression[i]` is the coin for bot i.
     */
    method SpawnBotsInRegion(numberOfBots: int, draws: seq<(nat, nat)>, aggression: seq<bool>)
      returns (r: Result<seq<Pos>, SpawnError>)
      requires Valid()
      requires MaxAttempts(numberOfBots) <= |draws| && numberOfBots <= |aggression|
      modifies this
      ensures Valid()
      ensures regionIndex == old(regionIndex) && boundary == old(boundary) && link == old(link)
      ensures r.Failure? <==> 0 < numberOfBots && (boundary.0 < 0 || boundary.1 < 0)
      ensures r.Failure? ==> players == old(players) && deltas == old(deltas) && bots == old(bots) && botOrder == old(botOrder)
      ensures r.Success? ==>
        && |r.value| <= Max0(numberOfBots)
        && (forall i :: 0 <= i < |r.value| ==> InRect(r.value[i], RegionOrigin(regionIndex, boundary), boundary))
        && (forall i, j :: 0 <= i < j < |r.value| ==> r.value[i] != r.value[j] && !Close(r.value[i], r.value[j]))
        && players == WriteFrom(old(players), BotRecords(r.value, aggression), 0)
        && deltas == WriteFrom(old(deltas), EmptyDeltas(|r.value|), 0)
        && bots == WriteFrom(old(bots), NewBots(r.value, aggression), 0)
        && botOrder == old(botOrder) + NewIds(0, |r.value|, old(bots).Keys)
      ensures r.Success? ==>
        var s := Search(numberOfBots, RegionOrigin(regionIndex, boundary), boundary, draws, {}, 0);
        s.Success? && Elements(r.value) == s.value.positions
    {
      var origin := RegionOrigin(regionIndex, boundary);
      var attempts;
      r, attempts := GenerateSpawnPositions(numberOfBots, origin, boundary, draws);
      if r.Failure? {
        return;
      }
      RegisterBots(r.value, aggression);
    }

    /**
     * `_processEnhancedBotMovement`: each moving bot's position is copied into
     * its player record and its delta; a missing record ends the pass
     * (`ok == false`) with the writes made so far kept.
     */
    method ProcessBotMovement() returns (ok: bool)
      requires Valid()
      modifies this
      ensures Valid()
      ensures var o := Movement(Tables(old(players), old(deltas)), old(botOrder), old(bots));
        Tables(players, deltas) == o.tables && ok == o.ok
      ensures bots == old(bots) && botOrder == old(botOrder)
      ensures regionIndex == old(regionIndex) && boundary == old(boundary) && link == old(link)
    {
      var order, snapshot := botOrder, bots;
      ghost var spec := Movement(Tables(players, deltas), order, snapshot);
      var i := 0;
      while i < |order|
        invariant i <= |order| && Registered(order[i..], snapshot)
        invariant Movement(Tables(players, deltas), order[i..], snapshot) == spec
        invariant bots == old(bots) && botOrder == old(botOrder)
        invariant regionIndex == old(regionIndex) && boundary == old(boundary) && link == old(link)
      {
        var id := order[i];
        var o := MoveBot(Tables(players, deltas), id, snapshot[id]);
        assert order[i..] == [id] + order[i + 1..];
        players, deltas := o.tables.players, o.tables.deltas;
        if !o.ok {
          return false;
        }
        i := i + 1;
      }
      ok := true;
    }

    /**
     * `_processEnhancedBotCombat`: each engaged bot's delta gets its
     * `weapon_fire` quadruple; a missing delta ends the pass.
     */
    method ProcessBotCombat() returns (ok: bool)
      requires Valid()
      modifies this
      ensures Valid()
      ensures var o := Combat(Tables(old(players), old(deltas)), old(botOrder), old(bots));
        Tables(players, deltas) == o.tables && ok == o.ok
      ensures bots == old(bots) && botOrder == old(botOrder)
      ensures regionIndex == old(regionIndex) && boundary == old(boundary) && link == old(link)
    {
      var order, snapshot := botOrder, bots;
      ghost var spec := Combat(Tables(players, deltas), order, snapshot);
      var i := 0;
      while i < |order|
        invariant i <= |order| && Registered(order[i..], snapshot)
        invariant Combat(Tables(players, deltas), order[i..], snapshot) == spec
        invariant bots == old(bots) && botOrder == old(botOrder)
        invariant regionIndex == old(regionIndex) && boundary == old(boundary) && link == old(link)
      {
        var id := order[i];
        var o := FireBot(Tables(players, deltas), id, snapshot[id]);
        assert order[i..] == [id] + order[i + 1..];
        players, deltas := o.tables.players, o.tables.deltas;
        if !o.ok {
          return false;
        }
        i := i + 1;
      }
      ok := true;
    }

    /**
     * `_establishLoadBalancerConnection`: discovery passes run while the link
     * is down; `consumed` passes were used from `events`.
     */
    method EstablishLoadBalancerConnection(events: seq<LoadBalancer.DiscoveryEvent>) returns (consumed: nat)
      modifies this
      ensures LoadBalancer.Discover(old(link), events) == LoadBalancer.Discovery(link, consumed)
      ensures regionIndex == old(regionIndex) && boundary == old(boundary)
      ensures players == old(players) && deltas == old(deltas) && bots == old(bots) && botOrder == old(botOrder)
    {
      ghost var spec := LoadBalancer.Discover(link, events);
      consumed := 0;
      while !link.connected && consumed < |events|
        invariant consumed <= |events|
        invariant var d := LoadBalancer.Discover(link, events[consumed..]);
          LoadBalancer.Discovery(d.link, d.consumed + consumed) == spec
        invariant regionIndex == old(regionIndex) && boundary == old(boundary)
        invariant players == old(players) && deltas == old(deltas) && bots == old(bots) && botOrder == old(botOrder)
      {
        var e := events[consumed];
        match e {
          case ConfirmationReceived => link := link.(connected := true);
          case ConnectionError => link := link.(socketGeneration := link.socketGeneration + 1);
          case _ =>
        }
        assert events[consumed..][1..] == events[consumed + 1..];
        consumed := consumed + 1;
      }
    }

    /**
     * `_handleLoadBalancerProtocol`: take the assigned region, spawn the
     * initial bots, then run steady-state rounds while the link is up. A
     * spawn error escapes the handler and leaves the flag as it was.
     */
    method HandleLoadBalancerProtocol(assignedIndex: int, assignedBoundary: Pos,
                                      draws: seq<(nat, nat)>, aggression: seq<bool>,
                                      rounds: seq<LoadBalancer.Round>)
      returns (spawned: Result<seq<Pos>, SpawnError>, roundsRun: nat)
      requires Valid()
      requires MaxAttempts(InitialBotCount) <= |draws| && InitialBotCount <= |aggression|
      modifies this
      ensures Valid()
      ensures regionIndex == assignedIndex && boundary == assignedBoundary
      ensures spawned.Failure? <==> assignedBoundary.0 < 0 || assignedBoundary.1 < 0
      ensures spawned.Failure? ==> link == old(link) && roundsRun == 0
      ensures spawned.Failure? ==>
        players == old(players) && deltas == old(deltas) && bots == old(bots) && botOrder == old(botOrder)
      ensures spawned.Success? ==>
        var s := LoadBalancer.SteadyLoop(old(link).connected, rounds);
        link == old(link).(connected := s.connected) && roundsRun == s.roundsRun
      ensures spawned.Success? ==>
        && |spawned.value| <= InitialBotCount
        && (forall i :: 0 <= i < |spawned.value| ==>
              InRect(spawned.value[i], RegionOrigin(assignedIndex, assignedBoundary), assignedBoundary))
        && (forall i, j :: 0 <= i < j < |spawned.value| ==>
              spawned.value[i] != spawned.value[j] && !Close(spawned.value[i], spawned.value[j]))
        && players == WriteFrom(old(players), BotRecords(spawned.value, aggression), 0)
        && deltas == WriteFrom(old(deltas), EmptyDeltas(|spawned.value|), 0)
        && bots == WriteFrom(old(bots), NewBots(spawned.value, aggression), 0)
        && botOrder == old(botOrder) + NewIds(0, |spawned.value|, old(bots).Keys)
      ensures spawned.Success? ==>
        var s := Search(InitialBotCount, RegionOrigin(assignedIndex, assignedBoundary), assignedBoundary, draws, {}, 0);
        s.Success? && Elements(spawned.value) == s.value.positions
    {
      regionIndex := assignedIndex;
      boundary := assignedBoundary;
      spawned := SpawnBotsInRegion(InitialBotCount, draws, aggression);
      roundsRun := 0;
      if spawned.Failure? {
        return;
      }
      ghost var spec := LoadBalancer.SteadyLoop(link.connected, rounds);
      ghost var link0 := link;
      ghost var players1, deltas1, bots1, order1 := players, deltas, bots, botOrder;
      while link.connected && roundsRun < |rounds|
        invariant roundsRun <= |rounds| && Valid()
        invariant link.socketGeneration == link0.socketGeneration
        invariant var s := LoadBalancer.SteadyLoop(link.connected, rounds[roundsRun..]);
          LoadBalancer.Steady(s.connected, s.roundsRun + roundsRun) == spec
        invariant regionIndex == assignedIndex && boundary == assignedBoundary
        invariant players == players1 && deltas == deltas1 && bots == bots1 && botOrder == order1
      {
        var failed := rounds[roundsRun] == LoadBalancer.RoundFailed;
        assert rounds[roundsRun..][1..] == rounds[roundsRun + 1..];
        roundsRun := roundsRun + 1;
        if failed {
          link := link.(connected := false);
          break;
        }
      }
    }
  }
}
