/**
 * The server's world-state tables and the two per-tick passes that copy bot
 * state into them. Records are string-keyed dictionaries, so "the other
 * fields are unchanged" is a statement about the remaining keys.
 *
 * A pass walks the bot registry in its iteration order. Writing into a
 * record whose id is missing from a table raises KeyError, which ends the
 * pass (the bot loop catches it and retries next tick); writes made before
 * the error stay.
 */
module World {
  import opened Common

  datatype Value = Int(i: int) | Bool(b: bool) | IntList(items: seq<int>)
  type Record = map<string, Value>
  type Table = map<int, Record>

  /** The fields of a bot that the passes read; its behaviour is not part of this model. */
  datatype Bot = Bot(currentX: int, currentY: int, targetX: int, targetY: int,
                     isAggressive: bool, isCurrentlyMoving: bool, isCurrentlyEngaged: bool)

  /** `activePlayerData` and `gameStateUpdates`. */
  datatype Tables = Tables(players: Table, deltas: Table)

  /** `ok == false` when a KeyError ended the pass. */
  datatype TickOutcome = TickOutcome(tables: Tables, ok: bool)

  const SpawnHealth: int := 100

  /** The player record written for a freshly spawned bot. */
  function BotRecord(x: int, y: int, aggressive: bool): (r: Record)
    ensures r.Keys == {"x", "y", "type", "angle", "health"}
    ensures r["angle"] == Int(0) && r["health"] == Int(SpawnHealth) && r["type"] == Bool(aggressive)
    ensures r["x"] == Int(x) && r["y"] == Int(y)
  {
    map["x" := Int(x), "y" := Int(y), "type" := Bool(aggressive), "angle" := Int(0), "health" := Int(SpawnHealth)]
  }

  /** A record with its `x` and `y` fields set. */
  function WithPosition(r: Record, x: int, y: int): (r': Record)
    ensures r'.Keys == r.Keys + {"x", "y"}
    ensures r'["x"] == Int(x) && r'["y"] == Int(y)
    ensures forall k :: k in r && k != "x" && k != "y" ==> r'[k] == r[k]
  {
    r["x" := Int(x)]["y" := Int(y)]
  }

  lemma WithPositionTwice(r: Record, x: int, y: int)
    ensures WithPosition(WithPosition(r, x, y), x, y) == WithPosition(r, x, y)
  {
  }

  /** The `weapon_fire` quadruple an engaged bot queues: its position, then its target. */
  function WeaponFire(bot: Bot): Value
  {
    IntList([bot.currentX, bot.currentY, bot.targetX, bot.targetY])
  }

  function WithWeaponFire(r: Record, bot: Bot): Record
  {
    r["weapon_fire" := WeaponFire(bot)]
  }

  ghost predicate Registered(order: seq<int>, bots: map<int, Bot>)
  {
    forall id :: id in order ==> id in bots
  }

  // ---------------------------------------------------------------- movement

  /** One moving bot: player x, player y, then delta x and delta y. */
  function MoveBot(t: Tables, id: int, bot: Bot): TickOutcome
  {
    if !bot.isCurrentlyMoving then TickOutcome(t, true)
    else if id !in t.players then TickOutcome(t, false)
    else
      var players := t.players[id := WithPosition(t.players[id], bot.currentX, bot.currentY)];
      if id !in t.deltas then TickOutcome(Tables(players, t.deltas), false)
      else TickOutcome(Tables(players, t.deltas[id := WithPosition(t.deltas[id], bot.currentX, bot.currentY)]), true)
  }

  /**
   * `_processEnhancedBotMovement` over a snapshot of the registry. It never
   * adds or removes table entries, even when it fails.
   */
  function Movement(t: Tables, order: seq<int>, bots: map<int, Bot>): (o: TickOutcome)
    requires Registered(order, bots)
    ensures o.tables.players.Keys == t.players.Keys && o.tables.deltas.Keys == t.deltas.Keys
    decreases |order|
  {
    if order == [] then TickOutcome(t, true)
    else
      var o := MoveBot(t, order[0], bots[order[0]]);
      if !o.ok then o else Movement(o.tables, order[1..], bots)
  }

  predicate Moves(id: int, order: seq<int>, bots: map<int, Bot>)
  {
    id in order && id in bots && bots[id].isCurrentlyMoving
  }

  /** The pass completes exactly when every moving bot has both a player record and a delta. */
  lemma {:induction false} MovementSucceedsIff(t: Tables, order: seq<int>, bots: map<int, Bot>)
    requires Registered(order, bots)
    ensures Movement(t, order, bots).ok
        <==> forall id :: Moves(id, order, bots) ==> id in t.players && id in t.deltas
    decreases |order|
  {
    if order != [] {
      var o := MoveBot(t, order[0], bots[order[0]]);
      if o.ok {
        MovementSucceedsIff(o.tables, order[1..], bots);
        assert forall id :: Moves(id, order, bots) <==> Moves(id, [order[0]], bots) || Moves(id, order[1..], bots) by {
          forall id ensures id in order <==> id == order[0] || id in order[1..] {
            if id in order && id != order[0] {
              var k :| 0 <= k < |order| && order[k] == id;
              assert order[1..][k - 1] == id;
            }
          }
        }
      } else {
        assert Moves(order[0], order, bots);
      }
    }
  }

  /**
   * After a completed pass, a moving bot's player record and delta carry its
   * current position (their other fields unchanged); every other record is
   * unchanged.
   */
  lemma {:induction false} MovementCopiesPositions(t: Tables, order: seq<int>, bots: map<int, Bot>)
    requires Registered(order, bots)
    requires Movement(t, order, bots).ok
    ensures var t' := Movement(t, order, bots).tables;
      && (forall id :: id in t.players ==>
            t'.players[id] == if Moves(id, order, bots)
                              then WithPosition(t.players[id], bots[id].currentX, bots[id].currentY)
                              else t.players[id])
      && (forall id :: id in t.deltas ==>
            t'.deltas[id] == if Moves(id, order, bots)
                             then WithPosition(t.deltas[id], bots[id].currentX, bots[id].currentY)
                             else t.deltas[id])
    decreases |order|
  {
    if order != [] {
      var id0 := order[0];
      var b := bots[id0];
      var o := MoveBot(t, id0, b);
      var t1 := o.tables;
      var t' := Movement(t1, order[1..], bots).tables;
      MovementCopiesPositions(t1, order[1..], bots);
      forall id ensures Moves(id, order, bots) <==> (id == id0 && b.isCurrentlyMoving) || Moves(id, order[1..], bots) {
        if id in order && id != id0 {
          var k :| 0 <= k < |order| && order[k] == id;
          assert order[1..][k - 1] == id;
        }
      }
      forall id | id in t.players
        ensures t'.players[id] == if Moves(id, order, bots)
                                  then WithPosition(t.players[id], bots[id].currentX, bots[id].currentY)
                                  else t.players[id]
      {
        if id == id0 && b.isCurrentlyMoving {
          WithPositionTwice(t.players[id], b.currentX, b.currentY);
        }
      }
      forall id | id in t.deltas
        ensures t'.deltas[id] == if Moves(id, order, bots)
                                 then WithPosition(t.deltas[id], bots[id].currentX, bots[id].currentY)
                                 else t.deltas[id]
      {
        if id == id0 && b.isCurrentlyMoving {
          WithPositionTwice(t.deltas[id], b.currentX, b.currentY);
        }
      }
    }
  }

  /**
   * `order[n]` is the first moving bot of the pass that lacks a player record
   * or a delta: every moving bot before it has both.
   */
  ghost predicate FirstMissingMove(t: Tables, order: seq<int>, bots: map<int, Bot>, n: int)
  {
    && 0 <= n < |order| && order[n] in bots && bots[order[n]].isCurrentlyMoving
    && (order[n] !in t.players || order[n] !in t.deltas)
    && forall id :: Moves(id, order[..n], bots) ==> id in t.players && id in t.deltas
  }

  /** A pass that does not complete has such a first bot. */
  lemma {:induction false} MovementFailsAtFirstMissing(t: Tables, order: seq<int>, bots: map<int, Bot>)
    requires Registered(order, bots) && !Movement(t, order, bots).ok
    ensures exists n :: FirstMissingMove(t, order, bots, n)
    decreases |order|
  {
    var id0 := order[0];
    var o := MoveBot(t, id0, bots[id0]);
    if !o.ok {
      assert FirstMissingMove(t, order, bots, 0);
    } else {
      MovementFailsAtFirstMissing(o.tables, order[1..], bots);
      var m :| FirstMissingMove(o.tables, order[1..], bots, m);
      assert order[..m + 1] == [id0] + order[1..][..m];
      forall id | Moves(id, order[..m + 1], bots) ensures id in t.players && id in t.deltas {
        if id != id0 {
          assert Moves(id, order[1..][..m], bots);
        }
      }
      assert FirstMissingMove(t, order, bots, m + 1);
    }
  }

  /**
   * A pass that stops at its first moving bot without both records keeps the
   * writes made before it: every earlier moving bot's records carry its
   * position, the stopping bot's player record does too when it has one (its
   * delta is missing then), and every other record is unchanged.
   */
  lemma {:induction false} MovementTornAt(t: Tables, order: seq<int>, bots: map<int, Bot>, n: int)
    requires Registered(order, bots) && FirstMissingMove(t, order, bots, n)
    ensures var o := Movement(t, order, bots);
      && !o.ok
      && (forall id :: id in t.players ==>
            o.tables.players[id] == if Moves(id, order[..n], bots) || id == order[n]
                                    then WithPosition(t.players[id], bots[id].currentX, bots[id].currentY)
                                    else t.players[id])
      && (forall id :: id in t.deltas ==>
            o.tables.deltas[id] == if Moves(id, order[..n], bots)
                                   then WithPosition(t.deltas[id], bots[id].currentX, bots[id].currentY)
                                   else t.deltas[id])
    decreases |order|
  {
    if n > 0 {
      var id0 := order[0];
      var b := bots[id0];
      var t1 := MoveBot(t, id0, b).tables;
      assert order[..n] == [id0] + order[1..][..n - 1];
      forall id ensures Moves(id, order[..n], bots) <==> (id == id0 && b.isCurrentlyMoving) || Moves(id, order[1..][..n - 1], bots) {
      }
      assert FirstMissingMove(t1, order[1..], bots, n - 1);
      MovementTornAt(t1, order[1..], bots, n - 1);
      var t' := Movement(t1, order[1..], bots).tables;
      forall id | id in t.players
        ensures t'.players[id] == if Moves(id, order[..n], bots) || id == order[n]
                                  then WithPosition(t.players[id], bots[id].currentX, bots[id].currentY)
                                  else t.players[id]
      {
        if id == id0 && b.isCurrentlyMoving {
          WithPositionTwice(t.players[id], b.currentX, b.currentY);
        }
      }
      forall id | id in t.deltas
        ensures t'.deltas[id] == if Moves(id, order[..n], bots)
                                 then WithPosition(t.deltas[id], bots[id].currentX, bots[id].currentY)
                                 else t.deltas[id]
      {
        if id == id0 && b.isCurrentlyMoving {
          WithPositionTwice(t.deltas[id], b.currentX, b.currentY);
        }
      }
    }
  }

  // ------------------------------------------------------------------ combat

  /** One engaged bot queues its `weapon_fire` quadruple into its delta. */
  function FireBot(t: Tables, id: int, bot: Bot): TickOutcome
  {
    if !bot.isCurrentlyEngaged then TickOutcome(t, true)
    else if id !in t.deltas then TickOutcome(t, false)
    else TickOutcome(Tables(t.players, t.deltas[id := WithWeaponFire(t.deltas[id], bot)]), true)
  }

  /**
   * `_processEnhancedBotCombat` over a snapshot of the registry. It leaves the
   * player table alone and adds no delta entries.
   */
  function Combat(t: Tables, order: seq<int>, bots: map<int, Bot>): (o: TickOutcome)
    requires Registered(order, bots)
    ensures o.tables.players == t.players && o.tables.deltas.Keys == t.deltas.Keys
    decreases |order|
  {
    if order == [] then TickOutcome(t, true)
    else
      var o := FireBot(t, order[0], bots[order[0]]);
      if !o.ok then o else Combat(o.tables, order[1..], bots)
  }

  predicate Engaged(id: int, order: seq<int>, bots: map<int, Bot>)
  {
    id in order && id in bots && bots[id].isCurrentlyEngaged
  }

  /**
   * A completed combat pass holds exactly when every engaged bot has a delta,
   * and then each engaged bot's delta carries its `weapon_fire` quadruple and
   * every other delta is unchanged.
   */
  lemma {:induction false} CombatQueuesFire(t: Tables, order: seq<int>, bots: map<int, Bot>)
    requires Registered(order, bots)
    ensures Combat(t, order, bots).ok <==> forall id :: Engaged(id, order, bots) ==> id in t.deltas
    ensures Combat(t, order, bots).ok ==>
      forall id :: id in t.deltas ==>
        Combat(t, order, bots).tables.deltas[id] ==
          if Engaged(id, order, bots) then WithWeaponFire(t.deltas[id], bots[id]) else t.deltas[id]
    decreases |order|
  {
    if order != [] {
      var id0 := order[0];
      var o := FireBot(t, id0, bots[id0]);
      forall id | id in order ensures id == id0 || id in order[1..] {
        if id != id0 {
          var k :| 0 <= k < |order| && order[k] == id;
          assert order[1..][k - 1] == id;
        }
      }
      if o.ok {
        CombatQueuesFire(o.tables, order[1..], bots);
      } else {
        assert Engaged(id0, order, bots);
      }
    }
  }

  /** `order[n]` is the first engaged bot of the pass without a delta. */
  ghost predicate FirstMissingFire(t: Tables, order: seq<int>, bots: map<int, Bot>, n: int)
  {
    && 0 <= n < |order| && order[n] in bots && bots[order[n]].isCurrentlyEngaged
    && order[n] !in t.deltas
    && forall id :: Engaged(id, order[..n], bots) ==> id in t.deltas
  }

  /** A combat pass that does not complete has such a first bot. */
  lemma {:induction false} CombatFailsAtFirstMissing(t: Tables, order: seq<int>, bots: map<int, Bot>)
    requires Registered(order, bots) && !Combat(t, order, bots).ok
    ensures exists n :: FirstMissingFire(t, order, bots, n)
    decreases |order|
  {
    var id0 := order[0];
    var o := FireBot(t, id0, bots[id0]);
    if !o.ok {
      assert FirstMissingFire(t, order, bots, 0);
    } else {
      CombatFailsAtFirstMissing(o.tables, order[1..], bots);
      var m :| FirstMissingFire(o.tables, order[1..], bots, m);
      assert order[..m + 1] == [id0] + order[1..][..m];
      forall id | Engaged(id, order[..m + 1], bots) ensures id in t.deltas {
        if id != id0 {
          assert Engaged(id, order[1..][..m], bots);
        }
      }
      assert FirstMissingFire(t, order, bots, m + 1);
    }
  }

  /**
   * A combat pass that stops at its first engaged bot without a delta keeps
   * the fire queued before it: every earlier engaged bot's delta carries its
   * `weapon_fire` quadruple and every other delta is unchanged.
   */
  lemma {:induction false} CombatTornAt(t: Tables, order: seq<int>, bots: map<int, Bot>, n: int)
    requires Registered(order, bots) && FirstMissingFire(t, order, bots, n)
    ensures var o := Combat(t, order, bots);
      && !o.ok
      && (forall id :: id in t.deltas ==>
            o.tables.deltas[id] == if Engaged(id, order[..n], bots) then WithWeaponFire(t.deltas[id], bots[id]) else t.deltas[id])
    decreases |order|
  {
    if n > 0 {
      var id0 := order[0];
      var t1 := FireBot(t, id0, bots[id0]).tables;
      assert order[..n] == [id0] + order[1..][..n - 1];
      forall id ensures Engaged(id, order[..n], bots) <==> (id == id0 && bots[id0].isCurrentlyEngaged) || Engaged(id, order[1..][..n - 1], bots) {
      }
      assert FirstMissingFire(t1, order[1..], bots, n - 1);
      CombatTornAt(t1, order[1..], bots, n - 1);
    }
  }
}
