/** The immutable records units and moves are configured with. Only the
    fields the battle logic reads are kept. */
module Moves {
  import opened CSharp

  /** Whom a move is aimed at, seen from the acting unit's side. */
  datatype Target = Ally | Enemy | Self

  datatype TargetNumber = Single | All

  /** What a move does; `Block` is declared but has no effect. */
  datatype Effect = Damage | Heal | Block

  /** A move definition. */
  datatype Move = Move(name: string, effect: Effect, value: Int32, target: Target, count: TargetNumber)

  /** A unit definition: maximum health, the readiness a unit must reach to
      act, and the rate at which readiness fills per second. */
  datatype UnitData = UnitData(maxHealth: Int32, maxActionValue: real, speed: real)
}
