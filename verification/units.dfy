/** A combatant: its definition, its move list, and the two runtime meters
    it owns, health and action readiness. */
module Units {
  import opened CSharp
  import opened Unity
  import opened Moves

  datatype Unit = Unit(data: UnitData, moves: seq<Move>, health: Int32, action: real)

  /** Health and readiness lie within the bounds of the unit's definition. */
  predicate InRange(u: Unit) {
    && 0 <= u.health <= u.data.maxHealth
    && 0.0 <= u.action <= u.data.maxActionValue
  }

  /** The unit may act: its readiness has reached the maximum exactly. */
  predicate IsActionReady(u: Unit) {
    u.action == u.data.maxActionValue
  }

  /** A unit as it enters the battle: full health and an empty readiness
      meter. The field is assigned directly, not through the clamping
      setter. */
  function Spawn(data: UnitData, moves: seq<Move>): (r: Unit)
    ensures r.health == data.maxHealth && r.action == 0.0
    ensures r.data == data && r.moves == moves
    ensures 0 <= data.maxHealth && 0.0 <= data.maxActionValue ==> InRange(r)
    ensures 0.0 < data.maxActionValue ==> !IsActionReady(r)
  {
    Unit(data, moves, data.maxHealth, 0.0)
  }

  /** The `CurrentHealth` setter: every assignment is clamped into
      `[0, MaxHealth]`. */
  function SetHealth(u: Unit, value: Int32): (r: Unit)
    ensures 0 <= u.data.maxHealth ==> 0 <= r.health <= u.data.maxHealth
    ensures 0 <= value <= u.data.maxHealth ==> r.health == value
    ensures r == u.(health := r.health)
  {
    u.(health := Clamp(value, 0, u.data.maxHealth))
  }

  /** `CurrentHealth -= amount`, with C#'s unchecked 32-bit subtraction. */
  function TakeDamage(u: Unit, amount: Int32): (r: Unit)
    ensures 0 <= u.data.maxHealth ==> 0 <= r.health <= u.data.maxHealth
    ensures r == u.(health := r.health)
  {
    SetHealth(u, Wrap32(u.health - amount))
  }

  /** `CurrentHealth += amount`, with C#'s unchecked 32-bit addition. */
  function HealHealth(u: Unit, amount: Int32): (r: Unit)
    ensures 0 <= u.data.maxHealth ==> 0 <= r.health <= u.data.maxHealth
    ensures r == u.(health := r.health)
  {
    SetHealth(u, Wrap32(u.health + amount))
  }

  /** Damage of a non-negative amount lowers health by that amount, stopping
      at zero. */
  lemma DamageLowersHealth(u: Unit, amount: Int32)
    requires InRange(u)
    requires amount >= 0
    ensures TakeDamage(u, amount).health == if u.health <= amount then 0 else u.health - amount
  {
  }

  /** Healing a non-negative amount raises health by that amount, stopping at
      the maximum, as long as the sum fits in an `int`. */
  lemma HealRaisesHealth(u: Unit, amount: Int32)
    requires InRange(u)
    requires amount >= 0
    requires u.health + amount <= MaxInt32
    ensures HealHealth(u, amount).health
         == if u.health + amount >= u.data.maxHealth then u.data.maxHealth else u.health + amount
  {
  }

  /** Negative damage heals and negative healing damages: the two operations
      are mirror images of each other. */
  lemma DamageHealMirror(u: Unit, amount: Int32)
    requires amount != MinInt32
    ensures TakeDamage(u, -amount) == HealHealth(u, amount)
    ensures HealHealth(u, -amount) == TakeDamage(u, amount)
  {
  }

  /** The additions are not checked: healing a unit whose health is already
      `int.MaxValue` wraps the sum to a negative number, which the setter
      clamps to zero. */
  lemma HealOverflowKills(u: Unit)
    requires u.health == MaxInt32
    ensures HealHealth(u, 1).health == 0
  {
  }

  /** `RegenAction`: nothing happens once the meter is full; otherwise it
      grows by `Speed * dt` and is clamped into `[0, MaxActionValue]`. */
  function RegenAction(u: Unit, dt: real): (r: Unit)
    ensures IsActionReady(u) ==> r == u
    ensures 0.0 <= u.data.maxActionValue ==> 0.0 <= r.action <= u.data.maxActionValue
    ensures r == u.(action := r.action)
  {
    if u.action == u.data.maxActionValue then u
    else u.(action := ClampReal(u.action + u.data.speed * dt, 0.0, u.data.maxActionValue))
  }

  /** A meter that is not yet full grows by the elapsed time times the
      speed, and becomes ready exactly when that reaches the maximum. */
  lemma RegenFills(u: Unit, dt: real)
    requires InRange(u)
    requires !IsActionReady(u)
    requires u.data.speed * dt >= 0.0
    ensures RegenAction(u, dt).action
         == if u.action + u.data.speed * dt >= u.data.maxActionValue then u.data.maxActionValue
            else u.action + u.data.speed * dt
    ensures IsActionReady(RegenAction(u, dt)) <==> u.action + u.data.speed * dt >= u.data.maxActionValue
  {
  }

  /** Regeneration over a sequence of frames. */
  function RegenFrames(u: Unit, dts: seq<real>): Unit
    decreases |dts|
  {
    if |dts| == 0 then u else RegenFrames(RegenAction(u, dts[0]), dts[1..])
  }

  /** Once ready, a unit stays ready, untouched, however many frames pass. */
  lemma {:induction false} ReadyStaysReady(u: Unit, dts: seq<real>)
    requires IsActionReady(u)
    ensures RegenFrames(u, dts) == u
    decreases |dts|
  {
    if |dts| > 0 {
      ReadyStaysReady(RegenAction(u, dts[0]), dts[1..]);
    }
  }

  /** `ResetActionValue`: the meter is emptied after the unit acts. */
  function ResetActionValue(u: Unit): (r: Unit)
    ensures r.action == 0.0
    ensures r == u.(action := r.action)
    ensures 0.0 < u.data.maxActionValue ==> !IsActionReady(r)
    ensures 0.0 <= u.data.maxActionValue && 0 <= u.health <= u.data.maxHealth ==> InRange(r)
  {
    u.(action := 0.0)
  }

  /** `GetMoveData(index)`: the list indexer, which throws out of range. */
  function GetMoveData(u: Unit, index: int): (r: Result<Move>)
    ensures r.Ok? <==> 0 <= index < |u.moves|
    ensures r.Ok? ==> r.value == u.moves[index]
  {
    At(u.moves, index)
  }

  /** `GetRandomMoveData`: the move at a random index. On an empty list the
      engine draws 0 and the indexer throws. */
  function GetRandomMoveData(u: Unit, roll: nat): (r: Result<Move>)
    ensures r.Ok? <==> |u.moves| > 0
    ensures r.Ok? ==> r.value in u.moves
  {
    At(u.moves, RandomRange(|u.moves|, roll))
  }

  /** Every move of the list can be the random pick. */
  lemma RandomMoveCovers(u: Unit, i: nat)
    requires i < |u.moves|
    ensures GetRandomMoveData(u, i) == Ok(u.moves[i])
  {
    RandomRangeCovers(|u.moves|, i);
  }
}
