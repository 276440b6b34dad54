/**
 * The game client's state logic: the key/value game-state store, the weapon
 * table and ammunition bookkeeping when firing, the explosive-effects pass,
 * the projectile range-stepping loop and the explosion centre. Rendering,
 * audio, input and networking are not modelled; the collision test of a
 * projectile is an oracle on its range.
 */
module Client {
  import opened Common

  /** A field of an entity entry received from the network. */
  datatype Payload = PInt(i: int) | PText(s: string) | PList(items: seq<int>)
  type EntityData = map<string, Payload>

  /** The values the game-state store holds. */
  datatype StateValue =
    | BoolV(b: bool)
    | IntV(i: int)
    | PairV(x: int, y: int)
    | EntityTable(entries: map<int, EntityData>)

  const ExplosiveActivated: string := "explosiveActivated"
  const SelectedWeapon: string := "selectedWeapon"
  const PlayerHitByProjectile: string := "playerHitByProjectile"
  const MovementOffset: string := "movementOffset"
  const SecondaryMovementOffset: string := "secondaryMovementOffset"
  const IncomingNetworkData: string := "incomingNetworkData"
  const ExplosiveEffect: string := "explosive_effect"

  /** The store's contents when the client starts. */
  function InitialState(): (m: map<string, StateValue>)
    ensures m.Keys == {ExplosiveActivated, SelectedWeapon, PlayerHitByProjectile,
                       MovementOffset, SecondaryMovementOffset, IncomingNetworkData}
    ensures m[ExplosiveActivated] == BoolV(false) && m[IncomingNetworkData] == EntityTable(map[])
  {
    map[ExplosiveActivated := BoolV(false), SelectedWeapon := IntV(0), PlayerHitByProjectile := BoolV(false),
        MovementOffset := PairV(0, 0), SecondaryMovementOffset := PairV(0, 0),
        IncomingNetworkData := EntityTable(map[])]
  }

  /** Python truthiness of a stored value. */
  predicate Truthy(v: StateValue)
  {
    match v
    case BoolV(b) => b
    case IntV(i) => i != 0
    case PairV(_, _) => true
    case EntityTable(entries) => entries != map[]
  }

  /** `dict.get`: the stored value, or None for an absent key. */
  function Lookup(m: map<string, StateValue>, key: string): (r: Option<StateValue>)
    ensures r.Some? <==> key in m
    ensures r.Some? ==> r.value == m[key]
  {
    if key in m then Some(m[key]) else None
  }

  /** A stored value is read back, and storing under one key changes no other key. */
  lemma LookupAfterStore(m: map<string, StateValue>, key: string, v: StateValue, other: string)
    requires other != key
    ensures Lookup(m[key := v], key) == Some(v)
    ensures Lookup(m[key := v], other) == Lookup(m, other)
  {
  }

  /** The store after a sequence of `updateGameState` calls. */
  function ApplyUpdates(m: map<string, StateValue>, updates: seq<(string, StateValue)>): map<string, StateValue>
    decreases |updates|
  {
    if updates == [] then m else ApplyUpdates(m[updates[0].0 := updates[0].1], updates[1..])
  }

  /**
   * Updates never remove a key, so the six initial keys stay readable, and a
   * key no update names keeps its value.
   */
  lemma {:induction false} UpdatesKeepKeys(m: map<string, StateValue>, updates: seq<(string, StateValue)>, key: string)
    ensures m.Keys <= ApplyUpdates(m, updates).Keys
    ensures (forall i :: 0 <= i < |updates| ==> updates[i].0 != key) ==> Lookup(ApplyUpdates(m, updates), key) == Lookup(m, key)
    decreases |updates|
  {
    if updates != [] {
      UpdatesKeepKeys(m[updates[0].0 := updates[0].1], updates[1..], key);
      if forall i :: 0 <= i < |updates| ==> updates[i].0 != key {
        assert updates[0].0 != key;
        assert forall i :: 0 <= i < |updates| - 1 ==> updates[1..][i] == updates[i + 1];
      }
    }
  }

  /** The incoming entries without those that carry an explosive effect. */
  function WithoutExplosives(entries: map<int, EntityData>): map<int, EntityData>
  {
    map e | e in entries && ExplosiveEffect !in entries[e] :: entries[e]
  }

  /** The incoming entries while the deletion loop still has `pending` ids to visit. */
  function PartlyFiltered(entries: map<int, EntityData>, pending: set<int>): map<int, EntityData>
  {
    map e | e in entries && (e in pending || ExplosiveEffect !in entries[e]) :: entries[e]
  }

  lemma PartlyFilteredStep(entries: map<int, EntityData>, pending: set<int>, id: int)
    requires id in pending && pending <= entries.Keys
    ensures id in PartlyFiltered(entries, pending)
    ensures PartlyFiltered(entries, pending - {id})
         == if ExplosiveEffect in entries[id] then PartlyFiltered(entries, pending) - {id} else PartlyFiltered(entries, pending)
  {
  }

  /** The ids listed in a sequence of dictionary items. */
  function Ids<V(==)>(s: seq<(int, V)>): set<int>
  {
    set k | k in s :: k.0
  }
  /** `list(d.items())`: each entry once, in an order of the dictionary's choosing. */
  method ItemList<V(==)>(entries: map<int, V>) returns (items: seq<(int, V)>)
    ensures Ids(items) == entries.Keys
    ensures forall k :: k in items ==> k in entries.Items
    ensures forall i, j :: 0 <= i < j < |items| ==> items[i].0 != items[j].0
  {
    items := [];
    var rest := entries;
    while rest.Items != {}
      invariant rest.Items <= entries.Items
      invariant forall k :: k in items ==> k in entries.Items
      invariant Ids(items) + rest.Keys == entries.Keys
      invariant Ids(items) !! rest.Keys
      invariant forall i, j :: 0 <= i < j < |items| ==> items[i].0 != items[j].0
      decreases rest.Keys
    {
      var item :| item in rest.Items;
      RemoveStep(rest, item);
      AppendStep(items, item);
      items := items + [item];
      rest := rest - {item.0};
    }
  }

  lemma RemoveStep<V>(rest: map<int, V>, item: (int, V))
    requires item in rest.Items
    ensures item.0 in rest.Keys && rest[item.0] == item.1
    ensures (rest - {item.0}).Keys == rest.Keys - {item.0}
    ensures (rest - {item.0}).Items <= rest.Items
  {
  }

  lemma AppendStep<V>(items: seq<(int, V)>, item: (int, V))
    ensures Ids(items + [item]) == Ids(items) + {item.0}
  {
    assert forall k :: k in items + [item] <==> k in items || k == item;
  }

  /** Visiting the suffix from `i` is visiting `items[i]`, then the suffix after it. */
  lemma {:induction false} SuffixStep<V>(items: seq<(int, V)>, i: nat)
    requires i < |items|
    requires forall a, b :: 0 <= a < b < |items| ==> items[a].0 != items[b].0
    ensures Ids(items[i..]) == Ids(items[i + 1..]) + {items[i].0}
    ensures items[i].0 !in Ids(items[i + 1..])
    ensures Ids(items[i..]) <= Ids(items)
  {
    forall k | k in items[i + 1..] ensures k.0 != items[i].0 {
      var b :| i + 1 <= b < |items| && items[b] == k;
    }
    assert forall k :: k in items[i..] <==> k in items[i + 1..] || k == items[i];
    assert forall k :: k in items[i..] ==> k in items;
  }

  datatype ExplosiveOutcome = ExplosiveOutcome(state: map<string, StateValue>, ok: bool, detonated: bool)

  /**
   * One pass of `processExplosiveEffects` under the store's lock, with the
   * rendering of each incoming explosion returning normally, so each explosive
   * entry is deleted (compare `ExplosivePassAsWritten`). Reading an
   * absent flag raises KeyError and a non-dictionary incoming table raises
   * AttributeError; the loop catches both (`ok == false`).
   */
  function ExplosivePass(m: map<string, StateValue>): ExplosiveOutcome
  {
    if ExplosiveActivated !in m then ExplosiveOutcome(m, false, false)
    else
      var detonated := Truthy(m[ExplosiveActivated]);
      var m1 := if detonated then m[ExplosiveActivated := BoolV(false)] else m;
      if IncomingNetworkData !in m1 || !m1[IncomingNetworkData].EntityTable? then ExplosiveOutcome(m1, false, detonated)
      else ExplosiveOutcome(m1[IncomingNetworkData := EntityTable(WithoutExplosives(m1[IncomingNetworkData].entries))], true, detonated)
  }

  /**
   * After a pass the flag is false if it was set, no incoming entry carries an
   * explosive effect, entries without one are kept unchanged, and no other
   * key of the store changes.
   */
  lemma ExplosivePassClears(m: map<string, StateValue>)
    requires ExplosiveActivated in m
    ensures var o := ExplosivePass(m);
      && o.detonated == Truthy(m[ExplosiveActivated])
      && o.state[ExplosiveActivated] == (if o.detonated then BoolV(false) else m[ExplosiveActivated])
      && o.state.Keys == m.Keys
      && (forall k :: k in m && k != ExplosiveActivated && k != IncomingNetworkData ==> o.state[k] == m[k])
      && (o.ok <==> IncomingNetworkData in m && m[IncomingNetworkData].EntityTable?)
      && (o.ok ==>
            var before := m[IncomingNetworkData].entries;
            var after := o.state[IncomingNetworkData].entries;
            && (forall e :: e in after ==> ExplosiveEffect !in after[e])
            && (forall e :: e in before ==> (e in after <==> ExplosiveEffect !in before[e]))
            && (forall e :: e in after ==> after[e] == before[e]))
  {
  }

  /** A second pass right after a completed one detonates nothing and removes nothing. */
  lemma ExplosivePassIdempotent(m: map<string, StateValue>)
    requires ExplosivePass(m).ok
    ensures ExplosivePass(ExplosivePass(m).state) == ExplosiveOutcome(ExplosivePass(m).state, true, false)
  {
    var m1 := ExplosivePass(m).state;
    var entries := m1[IncomingNetworkData].entries;
    assert WithoutExplosives(entries) == entries;
    assert m1[IncomingNetworkData := EntityTable(entries)] == m1;
  }

  /** Some incoming entry carries an explosive effect. */
  predicate HasExplosive(entries: map<int, EntityData>)
  {
    exists e :: e in entries && ExplosiveEffect in entries[e]
  }

  /**
   * The pass as the client file has it. `_renderIncomingExplosive` is not
   * defined on the client, so the call raises AttributeError at the first
   * entry that carries an explosive effect, before that entry's `del`. The
   * surrounding handler swallows the error, so nothing is ever deleted.
   */
  function ExplosivePassAsWritten(m: map<string, StateValue>): ExplosiveOutcome
  {
    if ExplosiveActivated !in m then ExplosiveOutcome(m, false, false)
    else
      var detonated := Truthy(m[ExplosiveActivated]);
      var m1 := if detonated then m[ExplosiveActivated := BoolV(false)] else m;
      if IncomingNetworkData !in m1 || !m1[IncomingNetworkData].EntityTable? then ExplosiveOutcome(m1, false, detonated)
      else ExplosiveOutcome(m1, !HasExplosive(m1[IncomingNetworkData].entries), detonated)
  }

  /**
   * As written, an incoming explosive entry is never removed: every pass
   * fails on it and leaves the incoming table as it was, and the store it
   * leaves makes every later pass fail the same way.
   */
  lemma ExplosiveEntryBlocksPass(m: map<string, StateValue>)
    requires ExplosiveActivated in m && IncomingNetworkData in m && m[IncomingNetworkData].EntityTable?
    requires HasExplosive(m[IncomingNetworkData].entries)
    ensures var o := ExplosivePassAsWritten(m);
      && !o.ok
      && o.state[IncomingNetworkData] == m[IncomingNetworkData]
      && ExplosivePassAsWritten(o.state) == ExplosiveOutcome(o.state, false, false)
    ensures ExplosivePass(m).ok && !HasExplosive(ExplosivePass(m).state[IncomingNetworkData].entries)
  {
    var o := ExplosivePass(m);
    assert o.state[IncomingNetworkData] == EntityTable(WithoutExplosives(m[IncomingNetworkData].entries));
  }

  /** A concrete store: one incoming entry, id 7, carrying an explosive effect. */
  lemma ExplosiveEntryExample()
    ensures var m := InitialState()[IncomingNetworkData := EntityTable(map[7 := map[ExplosiveEffect := PInt(1)]])];
      && 7 in ExplosivePassAsWritten(m).state[IncomingNetworkData].entries
      && 7 !in ExplosivePass(m).state[IncomingNetworkData].entries
  {
    var m := InitialState()[IncomingNetworkData := EntityTable(map[7 := map[ExplosiveEffect := PInt(1)]])];
    var entries := m[IncomingNetworkData].entries;
    assert 7 in entries && ExplosiveEffect in entries[7];
    assert HasExplosive(entries);
  }

  /** Thread-safe key/value store; each method is one critical section. */
  class GameStateManager {
    var gameStateData: map<string, StateValue>

    constructor ()
      ensures gameStateData == InitialState()
    {
      gameStateData := InitialState();
    }

    /** `updateGameState`: the key now holds the new value; other keys are unchanged. */
    method UpdateGameState(stateKey: string, newValue: StateValue)
      modifies this
      ensures gameStateData == old(gameStateData)[stateKey := newValue]
      ensures Lookup(gameStateData, stateKey) == Some(newValue)
      ensures forall k :: k != stateKey ==> Lookup(gameStateData, k) == Lookup(old(gameStateData), k)
    {
      gameStateData := gameStateData[stateKey := newValue];
    }

    /** `getGameState`: the stored value, or None (not an error) for an absent key. */
    method GetGameState(stateKey: string) returns (r: Option<StateValue>)
      ensures stateKey in gameStateData ==> r == Some(gameStateData[stateKey])
      ensures stateKey !in gameStateData ==> r == None
    {
      r := if stateKey in gameStateData then Some(gameStateData[stateKey]) else None;
    }

    /**
     * The state part of `processExplosiveEffects` as intended: clear a set
     * flag (after the explosion is shown), then delete each incoming entry
     * that carries an explosive effect.
     */
    method ProcessExplosiveEffects() returns (ok: bool, detonated: bool)
      modifies this
      ensures ExplosivePass(old(gameStateData)) == ExplosiveOutcome(gameStateData, ok, detonated)
    {
      if ExplosiveActivated !in gameStateData {
        return false, false;
      }
      detonated := Truthy(gameStateData[ExplosiveActivated]);
      if detonated {
        gameStateData := gameStateData[ExplosiveActivated := BoolV(false)];
      }
      if IncomingNetworkData !in gameStateData || !gameStateData[IncomingNetworkData].EntityTable? {
        return false, detonated;
      }
      DeleteExplosiveEntries();
      ok := true;
    }

    /** The deletion loop: every incoming entry with an explosive effect is removed, one by one. */
    method DeleteExplosiveEntries()
      requires IncomingNetworkData in gameStateData && gameStateData[IncomingNetworkData].EntityTable?
      modifies this
      ensures gameStateData == old(gameStateData)[IncomingNetworkData :=
                EntityTable(WithoutExplosives(old(gameStateData)[IncomingNetworkData].entries))]
    {
      var entries0 := gameStateData[IncomingNetworkData].entries;
      var items := ItemList(entries0);
      var entries := entries0;
      var i := 0;
      assert PartlyFiltered(entries0, Ids(items[i..])) == entries0 by {
        assert items[i..] == items;
      }
      while i < |items|
        invariant i <= |items|
        invariant gameStateData == old(gameStateData)[IncomingNetworkData := EntityTable(entries)]
        invariant entries == PartlyFiltered(entries0, Ids(items[i..]))
      {
        var entityId := items[i].0;
        SuffixStep(items, i);
        PartlyFilteredStep(entries0, Ids(items[i..]), entityId);
        if ExplosiveEffect in entries[entityId] {
          entries := entries - {entityId};
          gameStateData := gameStateData[IncomingNetworkData := EntityTable(entries)];
        }
        i := i + 1;
      }
      assert Ids(items[i..]) == {};
      assert PartlyFiltered(entries0, {}) == WithoutExplosives(entries0);
    }
  }

  // ------------------------------------------------------------------ weapons

  datatype WeaponConfiguration = WeaponConfiguration(
    weaponName: string, damagePoints: int, effectiveRange: int, projectileVelocity: int,
    currentAmmunition: int, maximumAmmunition: int, weaponIdentifier: int)

  /**
   * `_initializeWeaponSystem`: three weapons with ids 1, 2, 3, each fully
   * loaded, each with a positive projectile speed and a range beyond the
   * projectile's starting range.
   */
  function InitialWeapons(): (ws: seq<WeaponConfiguration>)
    ensures |ws| == 3
    ensures forall i :: 0 <= i < |ws| ==> ws[i].weaponIdentifier == i + 1
    ensures forall i :: 0 <= i < |ws| ==> 0 < ws[i].currentAmmunition == ws[i].maximumAmmunition
    ensures forall i :: 0 <= i < |ws| ==> ws[i].projectileVelocity > 0 && ws[i].effectiveRange > StartRange
  {
    [ WeaponConfiguration("Plasma Rifle", 25, 10000, 70, 50, 50, 1),
      WeaponConfiguration("Quantum Sniper", 35, 70000, 80, 20, 20, 2),
      WeaponConfiguration("Fusion Cannon", 45, 120000, 100, 7, 7, 3) ]
  }

  /** Python list indexing: negative indices count from the end; anything else raises IndexError. */
  function PyIndex(length: nat, i: int): (r: Option<nat>)
    ensures r.Some? <==> -(length as int) <= i < length
    ensures r.Some? ==> r.value < length && (r.value == i || r.value == length + i)
  {
    if 0 <= i < length then Some(i) else if -(length as int) <= i < 0 then Some(length + i) else None
  }

  /** Ammunition stays between zero and the weapon's maximum. */
  ghost predicate AmmoInRange(ws: seq<WeaponConfiguration>)
  {
    forall i :: 0 <= i < |ws| ==> 0 <= ws[i].currentAmmunition <= ws[i].maximumAmmunition
  }

  datatype CombatError = IndexError

  datatype Shot = Shot(weapons: seq<WeaponConfiguration>, fired: bool)

  /** The ammunition part of `executeEnhancedCombatSystem` with the selected index. */
  function Fire(ws: seq<WeaponConfiguration>, selected: int): Result<Shot, CombatError>
  {
    match PyIndex(|ws|, selected)
    case None => Failure(IndexError)
    case Some(j) =>
      if ws[j].currentAmmunition <= 0 then Success(Shot(ws, false))
      else Success(Shot(ws[j := ws[j].(currentAmmunition := ws[j].currentAmmunition - 1)], true))
  }

  /**
   * Firing fails only on an invalid index; with no ammunition nothing
   * changes; otherwise only the selected weapon loses exactly one round and
   * the range invariant is kept.
   */
  lemma FireSpendsOneRound(ws: seq<WeaponConfiguration>, selected: int)
    ensures Fire(ws, selected).Failure? <==> PyIndex(|ws|, selected).None?
    ensures Fire(ws, selected).Success? ==>
      var j := PyIndex(|ws|, selected).value;
      var s := Fire(ws, selected).value;
      && |s.weapons| == |ws|
      && s.fired == (ws[j].currentAmmunition > 0)
      && (!s.fired ==> s.weapons == ws)
      && (s.fired ==> s.weapons[j].currentAmmunition == ws[j].currentAmmunition - 1 >= 0)
      && (s.fired ==> s.weapons[j] == ws[j].(currentAmmunition := ws[j].currentAmmunition - 1))
      && (forall i :: 0 <= i < |ws| && i != j ==> s.weapons[i] == ws[i])
      && (AmmoInRange(ws) ==> AmmoInRange(s.weapons))
  {
  }

  /** The selected weapon's ammunition after `pulls` trigger pulls. */
  function AmmoAfter(ws: seq<WeaponConfiguration>, selected: int, pulls: nat): Result<int, CombatError>
    decreases pulls
  {
    match Fire(ws, selected)
    case Failure(e) => Failure(e)
    case Success(s) =>
      if pulls == 0 then Success(ws[PyIndex(|ws|, selected).value].currentAmmunition)
      else AmmoAfter(s.weapons, selected, pulls - 1)
  }

  /** Repeated firing empties a loaded weapon one round per pull and never goes below zero. */
  lemma {:induction false} AmmoAfterPulls(ws: seq<WeaponConfiguration>, selected: int, pulls: nat)
    requires PyIndex(|ws|, selected).Some?
    requires ws[PyIndex(|ws|, selected).value].currentAmmunition >= 0
    ensures AmmoAfter(ws, selected, pulls) == Success(Max0(ws[PyIndex(|ws|, selected).value].currentAmmunition - pulls))
    decreases pulls
  {
    if pulls > 0 {
      var s := Fire(ws, selected).value;
      AmmoAfterPulls(s.weapons, selected, pulls - 1);
    }
  }

  /** The client-side combat state. */
  class GameClient {
    var weaponConfigurations: seq<WeaponConfiguration>
    var selectedWeaponIndex: int

    constructor ()
      ensures weaponConfigurations == InitialWeapons() && selectedWeaponIndex == 0
      ensures AmmoInRange(weaponConfigurations)
    {
      weaponConfigurations := InitialWeapons();
      selectedWeaponIndex := 0;
    }

    /**
     * `executeEnhancedCombatSystem`: with ammunition, launch a projectile
     * (returned, for the projectile loop) and spend one round.
     */
    method ExecuteCombat() returns (r: Result<Option<WeaponConfiguration>, CombatError>)
      modifies this
      ensures selectedWeaponIndex == old(selectedWeaponIndex)
      ensures match Fire(old(weaponConfigurations), selectedWeaponIndex)
        case Failure(e) => r == Failure(e) && weaponConfigurations == old(weaponConfigurations)
        case Success(s) =>
          && weaponConfigurations == s.weapons
          && r.Success? && (r.value.Some? <==> s.fired)
          && (s.fired ==> r.value.value == old(weaponConfigurations)[PyIndex(|s.weapons|, selectedWeaponIndex).value])
    {
      var j := PyIndex(|weaponConfigurations|, selectedWeaponIndex);
      if j.None? {
        return Failure(IndexError);
      }
      var selected := weaponConfigurations[j.value];
      if selected.currentAmmunition <= 0 {
        return Success(None);
      }
      weaponConfigurations := weaponConfigurations[j.value := selected.(currentAmmunition := selected.currentAmmunition - 1)];
      r := Success(Some(selected));
    }
  }

  // ---------------------------------------------------------------- projectile

  const StartRange: int := 1

  /** The projectile's range after `k` steps. */
  function RangeAt(velocity: int, k: nat): int
  {
    StartRange + k * velocity
  }

  /**
   * `_processEnhancedProjectile`: the range starts at 1 and grows by the
   * projectile speed each step; the collision test at each new range is the
   * oracle `hitAt`. It stops at the first hit or once the range reaches the
   * weapon's effective range.
   */
  method ProcessProjectile(weapon: WeaponConfiguration, hitAt: int -> bool)
    returns (currentRange: int, projectileHit: bool, steps: nat)
    requires weapon.projectileVelocity > 0
    ensures currentRange == RangeAt(weapon.projectileVelocity, steps)
    ensures projectileHit <==> 0 < steps && hitAt(currentRange)
    ensures !projectileHit ==> currentRange >= weapon.effectiveRange
    ensures forall k :: 1 <= k < steps ==> !hitAt(RangeAt(weapon.projectileVelocity, k))
    ensures forall k :: 0 <= k < steps ==> RangeAt(weapon.projectileVelocity, k) < weapon.effectiveRange
    ensures steps * weapon.projectileVelocity < Max0(weapon.effectiveRange - StartRange) + weapon.projectileVelocity
  {
    var v := weapon.projectileVelocity;
    projectileHit := false;
    currentRange := StartRange;
    steps := 0;
    while currentRange < weapon.effectiveRange && !projectileHit
      invariant currentRange == RangeAt(v, steps)
      invariant projectileHit ==> 0 < steps && hitAt(currentRange)
      invariant forall k :: 1 <= k < steps ==> !hitAt(RangeAt(v, k))
      invariant !projectileHit && 0 < steps ==> !hitAt(RangeAt(v, steps))
      invariant forall k :: 0 <= k < steps ==> RangeAt(v, k) < weapon.effectiveRange
      invariant steps * v < Max0(weapon.effectiveRange - StartRange) + v
      decreases weapon.effectiveRange - currentRange, !projectileHit
    {
      currentRange := currentRange + v;
      steps := steps + 1;
      projectileHit := hitAt(currentRange);
    }
  }

  // ---------------------------------------------------------------- explosion

  const ScreenResolution: (int, int) := (1000, 650)

  /** `_executeExplosiveSequence`: the explosion is drawn at the screen centre wherever the player is. */
  function ExplosionCentre(worldPosition: (int, int)): (c: (int, int))
    ensures c == (ScreenResolution.0 / 2, ScreenResolution.1 / 2)
  {
    (worldPosition.0 - worldPosition.0 + 500, worldPosition.1 - worldPosition.1 + 325)
  }
}
