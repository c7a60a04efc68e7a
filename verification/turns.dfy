/** The controller's per-frame `Update`: readiness regeneration for both
    sides, then enemy auto-play in roster order with a defeat check after
    every enemy action. The frame time and the random draws are
    parameters. */
module Turns {
  import opened CSharp
  import opened Lists
  import opened Moves
  import opened Units
  import opened Sweep
  import opened Resolution
  import opened Battle

  /** The two random draws an enemy action makes: the index of its move
      and the index of a single random target. */
  datatype Roll = Roll(move: nat, target: nat)

  /** The draws of the `k`-th enemy of the frame; draws past the end of
      `rolls` are zero. */
  function Draw(rolls: seq<Roll>, k: nat): Roll {
    if k < |rolls| then rolls[k] else Roll(0, 0)
  }

  /** `units'` holds the same units as `units`, with the same definitions
      and move lists: only health and readiness may differ. */
  predicate SameKind(units: map<Id, Unit>, units': map<Id, Unit>) {
    && units'.Keys == units.Keys
    && forall id :: id in units ==> units'[id].data == units[id].data && units'[id].moves == units[id].moves
  }

  /** The `foreach` over the player roster calling `RegenAction`: only
      the meters of listed units move, and each stays in range. */
  function RegenAll(units: map<Id, Unit>, ids: seq<Id>, dt: real): (r: map<Id, Unit>)
    requires AllIn(ids, units)
    ensures r.Keys == units.Keys
    ensures forall id :: id in units ==> r[id] == units[id].(action := r[id].action)
    ensures forall id :: id in units && id !in ids ==> r[id] == units[id]
    ensures forall id :: id in units && InRange(units[id]) ==> InRange(r[id])
    decreases |ids|
  {
    if |ids| == 0 then units
    else RegenAll(units[ids[0] := RegenAction(units[ids[0]], dt)], ids[1..], dt)
  }

  /** On a roster without repeats every unit regenerates exactly once. */
  lemma {:induction false} RegenAllOnce(units: map<Id, Unit>, ids: seq<Id>, dt: real)
    requires AllIn(ids, units)
    requires NoDup(ids)
    ensures forall id :: id in ids ==> RegenAll(units, ids, dt)[id] == RegenAction(units[id], dt)
    decreases |ids|
  {
    if |ids| > 0 {
      NoDupTail(ids);
      var units' := units[ids[0] := RegenAction(units[ids[0]], dt)];
      RegenAllOnce(units', ids[1..], dt);
      assert ids == [ids[0]] + ids[1..];
    }
  }

  /** A frame of zero length changes no meter that lies in range. */
  lemma {:induction false} ZeroFrameRegen(units: map<Id, Unit>, ids: seq<Id>)
    requires AllIn(ids, units)
    requires forall id :: id in ids ==> InRange(units[id])
    ensures RegenAll(units, ids, 0.0) == units
    decreases |ids|
  {
    if |ids| > 0 {
      assert ids[0] in ids;
      assert RegenAction(units[ids[0]], 0.0) == units[ids[0]];
      assert units[ids[0] := units[ids[0]]] == units;
      forall id | id in ids[1..] ensures InRange(units[id]) {
        assert id in ids;
      }
      ZeroFrameRegen(units, ids[1..]);
    }
  }

  /** What an enemy that is ready does with its move and its targets:
      `PerformEnemyMove`, which removes the dead from the player roster
      only, then `ResetActionValue` on the actor, then the defeat check. */
  function Act(b: Battle, actor: Id, move: Move, targets: seq<Id>): (r: Battle)
    requires Wired(b) && actor in b.units
    requires AllIn(targets, b.units)
    ensures Wired(r) && SameKind(b.units, r.units)
    ensures r == b.(units := r.units, players := r.players, state := r.state, outcome := r.outcome)
    ensures forall id :: id in r.players ==> id in b.players
    ensures r.units[actor].action == 0.0
    ensures forall id :: id in b.units && id != actor ==> r.units[id].action == b.units[id].action
    ensures r.state == Finished <==> b.state == Finished || |r.players| == 0
    ensures |r.players| == 0 ==> r.outcome == Defeat
    ensures |r.players| > 0 ==> r.state == b.state && r.outcome == b.outcome
    ensures var applied := Perform(move, targets, b.units, b.players);
            && r.players == applied.roster
            && r.units == applied.units[actor := ResetActionValue(applied.units[actor])]
  {
    var applied := Perform(move, targets, b.units, b.players);
    var units := applied.units[actor := ResetActionValue(applied.units[actor])];
    var b' := b.(units := units, players := applied.roster);
    if |b'.players| == 0 then EndBattle(b', false) else b'
  }

  /** One pass of the enemy `foreach`: the enemy regenerates and, if it is
      then ready, acts with the move at the drawn index of its own list
      and the targets drawn for it. */
  function EnemyTurn(b: Battle, actor: Id, dt: real, roll: Roll): (r: Result<Battle>)
    requires Wired(b) && actor in b.units
    ensures var u := RegenAction(b.units[actor], dt);
            && (!IsActionReady(u) ==> r == Ok(b.(units := b.units[actor := u])))
            && (IsActionReady(u) ==> (r.Ok? <==> |u.moves| > 0 && SelectRandomTargets(b, actor, u.moves[roll.move % |u.moves|], roll.target).Ok?))
    ensures r.Ok? ==> Wired(r.value) && SameKind(b.units, r.value.units)
    ensures r.Ok? ==> r.value == b.(units := r.value.units, players := r.value.players, state := r.value.state, outcome := r.value.outcome)
    ensures r.Ok? ==> forall id :: id in r.value.players ==> id in b.players
    ensures r.Ok? && |r.value.players| > 0 ==> r.value.state == b.state && r.value.outcome == b.outcome
    ensures var u := RegenAction(b.units[actor], dt);
            var b1 := b.(units := b.units[actor := u]);
            IsActionReady(u) && r.Ok?
            ==> var move := u.moves[roll.move % |u.moves|];
                r.value == Act(b1, actor, move, SelectRandomTargets(b1, actor, move, roll.target).value)
  {
    var u := RegenAction(b.units[actor], dt);
    var b1 := b.(units := b.units[actor := u]);
    if !IsActionReady(u) then Ok(b1)
    else
      var move :- GetRandomMoveData(u, roll.move);
      var targets :- SelectRandomTargets(b1, actor, move, roll.target);
      Ok(Act(b1, actor, move, targets))
  }

  /** The enemy `foreach`, from position `k` of the roster as it was when
      the loop started; the enemy roster itself never changes during it. */
  function EnemyLoop(b: Battle, order: seq<Id>, k: nat, dt: real, rolls: seq<Roll>): (r: Result<Battle>)
    requires Wired(b) && AllIn(order, b.units)
    requires k <= |order|
    ensures r.Ok? ==> Wired(r.value) && SameKind(b.units, r.value.units)
    ensures r.Ok? ==> r.value == b.(units := r.value.units, players := r.value.players, state := r.value.state, outcome := r.value.outcome)
    ensures r.Ok? ==> forall id :: id in r.value.players ==> id in b.players
    decreases |order| - k
  {
    if k == |order| then Ok(b)
    else
      var b' :- EnemyTurn(b, order[k], dt, Draw(rolls, k));
      EnemyLoop(b', order, k + 1, dt, rolls)
  }

  /** `Update`: nothing happens while the battle is paused or over;
      otherwise every player unit regenerates, then every enemy takes its
      turn. */
  function Update(b: Battle, dt: real, rolls: seq<Roll>): (r: Result<Battle>)
    requires Wired(b)
    ensures b.state != Active ==> r == Ok(b)
    ensures r.Ok? ==> Wired(r.value) && SameKind(b.units, r.value.units)
    ensures r.Ok? ==> r.value == b.(units := r.value.units, players := r.value.players, state := r.value.state, outcome := r.value.outcome)
    ensures r.Ok? ==> forall id :: id in r.value.players ==> id in b.players
  {
    if b.state == Paused || b.state == Finished then Ok(b)
    else
      assert b.state == Active;
      var b1 := b.(units := RegenAll(b.units, b.players, dt));
      EnemyLoop(b1, b1.enemies, 0, dt, rolls)
  }
}
