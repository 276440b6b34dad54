/**
 * Bot spawn placement of the game server: the region corner a server
 * instance spawns from, and the bounded rejection sampling that picks
 * well-separated spawn points inside that region.
 *
 * `random.randint` is modelled as a function of a caller-supplied raw draw,
 * so a run of the sampler is a function of the sequence of draws.
 */
module Spawn {
  import opened Common

  type Pos = (int, int)

  /** Spawn points closer than this on both axes reject each other. */
  const MinSeparation: int := 100
  /** Attempt budget per requested bot. */
  const AttemptsPerBot: int := 10

  datatype SpawnError = EmptyRange   // `randint(0, n)` with `n < 0` raises ValueError

  /** Corner offset of a region; indices other than 1..4 fall back to (0, 0). */
  function RegionOrigin(regionIndex: int, boundary: Pos): (r: Pos)
    ensures r in {(0, 0), (boundary.0, 0), boundary, (0, boundary.1)}
  {
    match regionIndex
    case 1 => (0, 0)
    case 2 => (boundary.0, 0)
    case 3 => boundary
    case 4 => (0, boundary.1)
    case _ => (0, 0)
  }

  /** The closed rectangle a sampler with this origin draws from. */
  predicate InRect(p: Pos, origin: Pos, boundary: Pos)
  {
    origin.0 <= p.0 <= origin.0 + boundary.0 && origin.1 <= p.1 <= origin.1 + boundary.1
  }

  /** Every point of the world rectangle [0, 2W] x [0, 2H] lies in the spawn rectangle of one of the four regions. */
  lemma RegionsCoverWorld(boundary: Pos, p: Pos)
    requires 0 <= p.0 <= 2 * boundary.0 && 0 <= p.1 <= 2 * boundary.1
    ensures exists i :: 1 <= i <= 4 && InRect(p, RegionOrigin(i, boundary), boundary)
  {
    var i := if p.0 <= boundary.0 then (if p.1 <= boundary.1 then 1 else 4)
             else (if p.1 <= boundary.1 then 2 else 3);
    assert InRect(p, RegionOrigin(i, boundary), boundary);
  }

  /** Two different regions share only their common edge lines x == W or y == H. */
  lemma RegionsMeetOnEdges(boundary: Pos, p: Pos, i: int, j: int)
    requires 1 <= i <= 4 && 1 <= j <= 4 && i != j
    requires InRect(p, RegionOrigin(i, boundary), boundary) && InRect(p, RegionOrigin(j, boundary), boundary)
    ensures p.0 == boundary.0 || p.1 == boundary.1
  {
  }

  /**
   * `random.randint(lo, hi)` driven by a raw draw: an empty range raises,
   * otherwise the result lies in [lo, hi] (both ends inclusive).
   */
  function RandInt(lo: int, hi: int, raw: nat): (r: Option<int>)
    ensures r.Some? <==> lo <= hi
    ensures r.Some? ==> lo <= r.value <= hi
  {
    if hi < lo then None else Some(lo + raw % (hi - lo + 1))
  }

  /** Every value of the inclusive range is produced by some draw. */
  lemma RandIntCoversRange(lo: int, hi: int, v: int)
    requires lo <= v <= hi
    ensures RandInt(lo, hi, v - lo) == Some(v)
  {
  }

  /** The candidate built from one pair of draws: x is drawn before y. */
  function Candidate(origin: Pos, boundary: Pos, draw: (nat, nat)): (c: Option<Pos>)
    ensures c.Some? <==> boundary.0 >= 0 && boundary.1 >= 0
    ensures c.Some? ==> InRect(c.value, origin, boundary)
  {
    match RandInt(0, boundary.0, draw.0)
    case None => None
    case Some(dx) =>
      match RandInt(0, boundary.1, draw.1)
      case None => None
      case Some(dy) => Some((origin.0 + dx, origin.1 + dy))
  }

  function Abs(n: int): nat { if n < 0 then -n else n }

  /** Rejection test: close on BOTH axes (not a Euclidean distance). */
  predicate Close(p: Pos, q: Pos)
  {
    Abs(p.0 - q.0) < MinSeparation && Abs(p.1 - q.1) < MinSeparation
  }

  /** `p` is accepted against the points already placed. */
  predicate Clear(p: Pos, placed: set<Pos>)
  {
    forall q :: q in placed ==> !Close(p, q)
  }

  /** No two distinct placed points are close on both axes. */
  ghost predicate Separated(s: set<Pos>)
  {
    forall p, q :: p in s && q in s && p != q ==> !Close(p, q)
  }

  ghost predicate AllInRect(s: set<Pos>, origin: Pos, boundary: Pos)
  {
    forall p :: p in s ==> InRect(p, origin, boundary)
  }

  function MaxAttempts(count: int): int
  {
    count * AttemptsPerBot
  }

  datatype Outcome = Outcome(positions: set<Pos>, attempts: nat)

  /**
   * The sampler from a given state: while fewer than `count` points are
   * placed and fewer than `10 * count` draws were made, draw a candidate
   * and keep it when it is clear of every placed point.
   */
  function Search(count: int, origin: Pos, boundary: Pos, draws: seq<(nat, nat)>,
                  placed: set<Pos>, attempts: nat): Result<Outcome, SpawnError>
    requires MaxAttempts(count) <= |draws|
    decreases Max0(MaxAttempts(count) - attempts)
  {
    if |placed| < count && attempts < MaxAttempts(count) then
      match Candidate(origin, boundary, draws[attempts])
      case None => Failure(EmptyRange)
      case Some(p) =>
        Search(count, origin, boundary, draws, if Clear(p, placed) then placed + {p} else placed, attempts + 1)
    else
      Success(Outcome(placed, attempts))
  }

  /** The sampler fails exactly when it draws at all from an empty range. */
  lemma {:induction false} SearchFailsIff(count: int, origin: Pos, boundary: Pos, draws: seq<(nat, nat)>,
                                          placed: set<Pos>, attempts: nat)
    requires MaxAttempts(count) <= |draws|
    ensures Search(count, origin, boundary, draws, placed, attempts).Failure?
        <==> |placed| < count && attempts < MaxAttempts(count) && (boundary.0 < 0 || boundary.1 < 0)
    decreases Max0(MaxAttempts(count) - attempts)
  {
    if |placed| < count && attempts < MaxAttempts(count) {
      match Candidate(origin, boundary, draws[attempts])
      case None =>
      case Some(p) =>
        var next := if Clear(p, placed) then placed + {p} else placed;
        SearchFailsIff(count, origin, boundary, draws, next, attempts + 1);
    }
  }

  /**
   * What the sampler promises: at most `count` points, at most `10 * count`
   * draws, every point inside the region rectangle, and no two points close
   * on both axes.
   */
  lemma {:induction false} SearchProperties(count: int, origin: Pos, boundary: Pos, draws: seq<(nat, nat)>,
                                            placed: set<Pos>, attempts: nat)
    requires MaxAttempts(count) <= |draws|
    requires |placed| <= Max0(count) && attempts <= Max0(MaxAttempts(count))
    requires Separated(placed) && AllInRect(placed, origin, boundary)
    ensures match Search(count, origin, boundary, draws, placed, attempts)
            case Failure(_) => true
            case Success(o) =>
              && placed <= o.positions
              && |o.positions| <= Max0(count)
              && attempts <= o.attempts <= Max0(MaxAttempts(count))
              && Separated(o.positions)
              && AllInRect(o.positions, origin, boundary)
    decreases Max0(MaxAttempts(count) - attempts)
  {
    if |placed| < count && attempts < MaxAttempts(count) {
      match Candidate(origin, boundary, draws[attempts])
      case None =>
      case Some(p) =>
        if Clear(p, placed) {
          assert Close(p, p);
          assert p !in placed;
          var next := placed + {p};
          assert |next| == |placed| + 1;
          assert Separated(next) by {
            forall a, b | a in next && b in next && a != b ensures !Close(a, b) {
              if a == p { assert !Close(p, b); }
              else if b == p { assert !Close(p, a); }
            }
          }
          SearchProperties(count, origin, boundary, draws, next, attempts + 1);
        } else {
          SearchProperties(count, origin, boundary, draws, placed, attempts + 1);
        }
    }
  }

  /**
   * The loop stops early only once `count` points are placed: a result with
   * fewer points means the whole budget of `10 * count` draws was spent.
   */
  lemma {:induction false} SearchExit(count: int, origin: Pos, boundary: Pos, draws: seq<(nat, nat)>,
                                      placed: set<Pos>, attempts: nat)
    requires MaxAttempts(count) <= |draws| && attempts <= Max0(MaxAttempts(count))
    ensures match Search(count, origin, boundary, draws, placed, attempts)
            case Failure(_) => true
            case Success(o) => count <= |o.positions| || o.attempts == Max0(MaxAttempts(count))
    decreases Max0(MaxAttempts(count) - attempts)
  {
    if |placed| < count && attempts < MaxAttempts(count) {
      match Candidate(origin, boundary, draws[attempts])
      case None =>
      case Some(p) =>
        SearchExit(count, origin, boundary, draws, if Clear(p, placed) then placed + {p} else placed, attempts + 1);
    }
  }

  /**
   * Every draw the loop makes is decided by the separation test alone: each
   * candidate drawn is either placed or close on both axes to a placed point,
   * and every newly placed point is one of the candidates drawn.
   */
  lemma {:induction false} SearchDraws(count: int, origin: Pos, boundary: Pos, draws: seq<(nat, nat)>,
                                       placed: set<Pos>, attempts: nat)
    requires MaxAttempts(count) <= |draws| && attempts <= Max0(MaxAttempts(count))
    ensures match Search(count, origin, boundary, draws, placed, attempts)
            case Failure(_) => true
            case Success(o) =>
              && placed <= o.positions
              && attempts <= o.attempts <= Max0(MaxAttempts(count))
              && (forall k :: attempts <= k < o.attempts ==>
                    Candidate(origin, boundary, draws[k]).Some? && !Clear(Candidate(origin, boundary, draws[k]).value, o.positions))
              && (forall p :: p in o.positions && p !in placed ==>
                    exists k :: attempts <= k < o.attempts && Candidate(origin, boundary, draws[k]) == Some(p))
    decreases Max0(MaxAttempts(count) - attempts)
  {
    if |placed| < count && attempts < MaxAttempts(count) {
      match Candidate(origin, boundary, draws[attempts])
      case None =>
      case Some(p) =>
        var next := if Clear(p, placed) then placed + {p} else placed;
        SearchDraws(count, origin, boundary, draws, next, attempts + 1);
        var r := Search(count, origin, boundary, draws, next, attempts + 1);
        if r.Success? {
          var o := r.value;
          assert !Clear(p, o.positions) by {
            if Clear(p, placed) {
              assert p in o.positions && Close(p, p);
            } else {
              var q :| q in placed && Close(p, q);
              assert q in o.positions;
            }
          }
          forall q | q in o.positions && q !in placed
            ensures exists k :: attempts <= k < o.attempts && Candidate(origin, boundary, draws[k]) == Some(q)
          {
            if q !in next {
              var k :| attempts + 1 <= k < o.attempts && Candidate(origin, boundary, draws[k]) == Some(q);
            } else {
              assert Candidate(origin, boundary, draws[attempts]) == Some(q);
            }
          }
        }
    }
  }

  /**
   * A region that is a single point (boundary (0, 0)) holds one bot only:
   * every later candidate is that same point and is rejected, so a request
   * for two or more bots ends with the attempt budget spent and one bot placed.
   */
  lemma {:induction false} PointRegionPlacesOne(count: int, origin: Pos, draws: seq<(nat, nat)>,
                                                placed: set<Pos>, attempts: nat)
    requires MaxAttempts(count) <= |draws| && 2 <= count
    requires placed == {origin} && attempts <= MaxAttempts(count)
    ensures Search(count, origin, (0, 0), draws, placed, attempts) == Success(Outcome({origin}, MaxAttempts(count)))
    decreases MaxAttempts(count) - attempts
  {
    if attempts < MaxAttempts(count) {
      assert Candidate(origin, (0, 0), draws[attempts]) == Some(origin);
      assert !Clear(origin, placed) by { assert Close(origin, origin); }
      PointRegionPlacesOne(count, origin, draws, placed, attempts + 1);
    }
  }

  lemma PointRegionSpawn(count: int, origin: Pos, draws: seq<(nat, nat)>)
    requires MaxAttempts(count) <= |draws| && 2 <= count
    ensures Search(count, origin, (0, 0), draws, {}, 0) == Success(Outcome({origin}, MaxAttempts(count)))
  {
    assert Candidate(origin, (0, 0), draws[0]) == Some(origin);
    assert {} + {origin} == {origin};
    PointRegionPlacesOne(count, origin, draws, {origin}, 1);
  }

  /**
   * The rejection-sampling loop of `_generateOptimizedSpawnPositions`: a
   * mutable set of accepted points and an attempt counter. It computes
   * exactly what `Search` describes.
   */
  method Sample(count: int, origin: Pos, boundary: Pos, draws: seq<(nat, nat)>)
    returns (r: Result<Outcome, SpawnError>)
    requires MaxAttempts(count) <= |draws|
    ensures r == Search(count, origin, boundary, draws, {}, 0)
  {
    var positions: set<Pos> := {};
    var maxAttempts := MaxAttempts(count);
    var attempts := 0;
    while |positions| < count && attempts < maxAttempts
      invariant attempts <= Max0(maxAttempts)
      invariant Search(count, origin, boundary, draws, positions, attempts)
             == Search(count, origin, boundary, draws, {}, 0)
      decreases maxAttempts - attempts
    {
      ghost var c := Candidate(origin, boundary, draws[attempts]);
      var dx := RandInt(0, boundary.0, draws[attempts].0);
      if dx.None? {
        return Failure(EmptyRange);
      }
      var dy := RandInt(0, boundary.1, draws[attempts].1);
      if dy.None? {
        return Failure(EmptyRange);
      }
      var p := (origin.0 + dx.value, origin.1 + dy.value);
      assert c == Some(p);
      if Clear(p, positions) {
        positions := positions + {p};
      }
      attempts := attempts + 1;
    }
    r := Success(Outcome(positions, attempts));
  }

  /**
   * `_generateOptimizedSpawnPositions`: the sampling loop, then `list(positions)`.
   */
  method GenerateSpawnPositions(count: int, origin: Pos, boundary: Pos, draws: seq<(nat, nat)>)
    returns (r: Result<seq<Pos>, SpawnError>, attempts: nat)
    requires MaxAttempts(count) <= |draws|
    ensures r.Failure? <==> Search(count, origin, boundary, draws, {}, 0).Failure?
    ensures r.Failure? <==> 0 < count && (boundary.0 < 0 || boundary.1 < 0)
    ensures r.Success? ==> Search(count, origin, boundary, draws, {}, 0) == Success(Outcome(Elements(r.value), attempts))
    ensures r.Success? ==>
      && |r.value| <= Max0(count)
      && attempts <= Max0(MaxAttempts(count))
      && (forall i, j :: 0 <= i < j < |r.value| ==> r.value[i] != r.value[j])
      && (forall i :: 0 <= i < |r.value| ==> InRect(r.value[i], origin, boundary))
      && (forall i, j :: 0 <= i < j < |r.value| ==> !Close(r.value[i], r.value[j]))
    ensures r.Success? && |r.value| < count ==> attempts == MaxAttempts(count)
    ensures r.Success? ==> forall k :: 0 <= k < attempts ==>
      Candidate(origin, boundary, draws[k]).Some? && !Clear(Candidate(origin, boundary, draws[k]).value, Elements(r.value))
    ensures r.Success? ==> forall i :: 0 <= i < |r.value| ==>
      exists k :: 0 <= k < attempts && Candidate(origin, boundary, draws[k]) == Some(r.value[i])
  {
    SearchFailsIff(count, origin, boundary, draws, {}, 0);
    SearchProperties(count, origin, boundary, draws, {}, 0);
    SearchExit(count, origin, boundary, draws, {}, 0);
    SearchDraws(count, origin, boundary, draws, {}, 0);
    var sampled := Sample(count, origin, boundary, draws);
    if sampled.Failure? {
      return Failure(sampled.error), 0;
    }
    attempts := sampled.value.attempts;
    var list := ListOf(sampled.value.positions);
    assert forall i :: 0 <= i < |list| ==> list[i] in sampled.value.positions;
    r := Success(list);
  }
}
