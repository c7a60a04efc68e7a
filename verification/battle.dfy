/** The battle controller's state and the target rules it applies: the two
    rosters, the battle state, the selected player unit, the held targets
    and their cursor, and the selection state of the UI it drives. */
module Battle {
  import opened CSharp
  import opened Unity
  import opened Cursor
  import opened Moves
  import opened Units
  import opened Ui
  import opened Sweep

  datatype BattleState = Active | Paused | Finished

  /** The message `EndBattle` showed, if it ran. */
  datatype Outcome = Undecided | Victory | Defeat

  /** The controller's fields. Units are never deleted from `units`: a
      killed unit leaves only the roster the move's loop prunes, so an ally
      killed by friendly fire stays listed on its own side. */
  datatype Battle = Battle(
    units: map<Id, Unit>,
    players: seq<Id>,
    enemies: seq<Id>,
    state: BattleState,
    selectedUnit: int,
    targets: seq<Id>,
    targetIndex: int,
    ui: Ui,
    outcome: Outcome)

  /** Every roster entry and held target names a unit. */
  predicate Wired(b: Battle) {
    && AllIn(b.players, b.units)
    && AllIn(b.enemies, b.units)
    && AllIn(b.targets, b.units)
  }

  /** `Start` of the controller, after every unit's own `Start` put it at
      full health with an empty meter. `panelOpen` is whether the scene
      starts with the move panel active: setting the UI state then resets
      the move cursor while no move is listed, which divides by zero. The
      first player unit is selected, so an empty player roster throws. */
  function Start(units: map<Id, Unit>, players: seq<Id>, enemies: seq<Id>, panelOpen: bool): (r: Result<Battle>)
    requires AllIn(players, units) && AllIn(enemies, units)
    ensures r.Ok? <==> !panelOpen && |players| > 0
    ensures r.Ok? ==> && Wired(r.value)
                      && r.value.units.Keys == units.Keys
                      && (forall id :: id in units ==>
                            r.value.units[id].health == units[id].data.maxHealth && r.value.units[id].action == 0.0)
                      && r.value.state == Active && r.value.ui.state == UnitSelect
                      && r.value.selectedUnit == 0 && r.value.targets == [] && r.value.targetIndex == -1
                      && r.value.outcome == Undecided
    ensures r.Ok? ==> r.value.players == players && r.value.enemies == enemies
    ensures r.Ok? ==> forall id :: id in units ==>
                        r.value.units[id] == units[id].(health := units[id].data.maxHealth, action := 0.0)
    ensures r.Ok? ==> r.value.ui == Ui(UnitSelect, 0, 0, false)
  {
    var spawned := map id | id in units :: Spawn(units[id].data, units[id].moves);
    var ui :- SetState(Ui(UnitSelect, 0, 0, panelOpen), UnitSelect);
    var first :- At(players, 0);
    Ok(Battle(spawned, players, enemies, Active, 0, [], -1, ui, Undecided))
  }

  /** `EndBattle`: the battle is over and the matching message shows. */
  function EndBattle(b: Battle, playerVictory: bool): (r: Battle)
    ensures r.state == Finished
    ensures r.outcome == if playerVictory then Victory else Defeat
    ensures r == b.(state := r.state, outcome := r.outcome)
  {
    b.(state := Finished, outcome := if playerVictory then Victory else Defeat)
  }

  /** `ClearCurrentTargets` followed by the player-side rules of
      `GetTargets`: a single enemy target defaults to the first enemy, a
      single ally or self target to the selected player unit, and an
      all-target move holds a whole roster, except that `All` with `Self`
      holds nothing. */
  function GetTargets(b: Battle, move: Move): (r: Result<Battle>)
    ensures r.Ok? <==> (move.count == Single ==> if move.target == Enemy then |b.enemies| > 0
                                                  else 0 <= b.selectedUnit < |b.players|)
    ensures r.Ok? ==> r.value == b.(targets := r.value.targets, targetIndex := r.value.targetIndex)
    ensures r.Ok? && move.count == Single && move.target == Enemy
            ==> r.value.targets == [b.enemies[0]] && r.value.targetIndex == 0
    ensures r.Ok? && move.count == Single && move.target != Enemy
            ==> r.value.targets == [b.players[b.selectedUnit]] && r.value.targetIndex == b.selectedUnit
    ensures r.Ok? && move.count == All
            ==> && r.value.targetIndex == -1
                && r.value.targets == match move.target
                                      case Ally => b.players
                                      case Enemy => b.enemies
                                      case Self => []
  {
    var cleared := b.(targets := [], targetIndex := -1);
    match move.count
    case Single =>
      if move.target == Enemy then
        var e :- At(b.enemies, 0);
        Ok(cleared.(targets := [e], targetIndex := 0))
      else
        var p :- At(b.players, b.selectedUnit);
        Ok(cleared.(targets := [p], targetIndex := b.selectedUnit))
    case All =>
      match move.target
      case Ally => Ok(cleared.(targets := b.players))
      case Enemy => Ok(cleared.(targets := b.enemies))
      case Self => Ok(cleared)
  }

  /** `SelectRandomTargets`, the enemy-side rules, seen from the enemy: its
      enemies are the player roster and its allies the enemy roster. A
      single target is drawn at `roll` from the roster; `All` with `Self`
      yields no target. */
  function SelectRandomTargets(b: Battle, actor: Id, move: Move, roll: nat): (r: Result<seq<Id>>)
    ensures r.Ok? <==> (move.count == Single ==> match move.target
                                                  case Enemy => |b.players| > 0
                                                  case Ally => |b.enemies| > 0
                                                  case Self => true)
    ensures r.Ok? && move.count == Single ==> |r.value| == 1
    ensures r.Ok? && move.count == Single && move.target == Enemy ==> r.value[0] in b.players
    ensures r.Ok? && move.count == Single && move.target == Ally ==> r.value[0] in b.enemies
    ensures r.Ok? && move.target == Self ==> r.value == if move.count == Single then [actor] else []
    ensures r.Ok? && move.count == All && move.target == Enemy ==> r.value == b.players
    ensures r.Ok? && move.count == All && move.target == Ally ==> r.value == b.enemies
  {
    match move.count
    case Single =>
      (match move.target
       case Enemy =>
         var p :- At(b.players, RandomRange(|b.players|, roll));
         Ok([p])
       case Ally =>
         var e :- At(b.enemies, RandomRange(|b.enemies|, roll));
         Ok([e])
       case Self => Ok([actor]))
    case All =>
      match move.target
      case Enemy => Ok(b.players)
      case Ally => Ok(b.enemies)
      case Self => Ok([])
  }

  /** Every member of the roster can be the random single target. */
  lemma RandomTargetCovers(b: Battle, actor: Id, move: Move, i: nat)
    requires move.count == Single && move.target != Self
    requires i < |if move.target == Enemy then b.players else b.enemies|
    ensures SelectRandomTargets(b, actor, move, i)
         == Ok([(if move.target == Enemy then b.players else b.enemies)[i]])
  {
    RandomRangeCovers(|if move.target == Enemy then b.players else b.enemies|, i);
  }

  /** The roster a single, non-self move of the player picks its target
      from: its own side for `Ally`, the enemy side for `Enemy`. */
  function CursorRoster(b: Battle, move: Move): seq<Id> {
    if move.target == Ally then b.players else b.enemies
  }

  /** `MoveCurrentTarget`: for a single move that is not `Self`, the target
      cursor steps cyclically through the roster and the held targets
      become the one unit under it; any other move ignores navigation. */
  function MoveCurrentTarget(b: Battle, move: Move, d: Direction): (r: Result<Battle>)
    ensures move.count != Single || move.target == Self ==> r == Ok(b)
    ensures move.count == Single && move.target != Self && |CursorRoster(b, move)| == 0 ==> r.Err?
    ensures r.Ok? && Wired(b) ==> Wired(r.value)
    ensures r.Ok? && move.count == Single && move.target != Self
            ==> var n := |CursorRoster(b, move)|;
                && 0 <= r.value.targetIndex < n
                && r.value.targets == [CursorRoster(b, move)[r.value.targetIndex]]
                && r.value == b.(targets := r.value.targets, targetIndex := r.value.targetIndex)
    ensures r.Ok? && move.count == Single && move.target != Self && b.targetIndex >= 0
            ==> r.value.targetIndex == Step(b.targetIndex, |CursorRoster(b, move)|, d).value
  {
    if move.count != Single || move.target == Self then Ok(b)
    else
      var roster := CursorRoster(b, move);
      var index :- Step(b.targetIndex, |roster|, d);
      var t :- At(roster, index);
      Ok(b.(targetIndex := index, targets := [t]))
  }

  /** A step from any index at or above -1, which is where the target
      cursor rests before the first single target, lands in the range. */
  lemma StepFromAnywhere(i: int, n: int, d: Direction)
    requires i >= -1 && n > 0
    ensures 0 <= Step(i, n, d).value < n
  {
    if n == 1 {
      assert -1 < Rem(i + Delta(d) + n, n) < 1;
    }
  }

  /** From any cursor position at or above -1, navigation over a non-empty
      roster succeeds. */
  lemma MoveCurrentTargetSucceeds(b: Battle, move: Move, d: Direction)
    requires b.targetIndex >= -1
    requires |CursorRoster(b, move)| > 0
    ensures MoveCurrentTarget(b, move, d).Ok?
  {
    StepFromAnywhere(b.targetIndex, |CursorRoster(b, move)|, d);
  }

  /** Stepping the target cursor up and back down, or down and back up,
      restores the held target. */
  lemma TargetCursorInverse(b: Battle, move: Move, d: Direction, e: Direction)
    requires move.count == Single && move.target != Self
    requires 0 <= b.targetIndex < |CursorRoster(b, move)|
    requires d != e
    ensures MoveCurrentTarget(b, move, d).Ok?
    ensures var b' := MoveCurrentTarget(b, move, d).value;
            MoveCurrentTarget(b', move, e).Ok?
            && MoveCurrentTarget(b', move, e).value.targetIndex == b.targetIndex
            && MoveCurrentTarget(b', move, e).value.targets == [CursorRoster(b, move)[b.targetIndex]]
  {
    StepInverse(b.targetIndex, |CursorRoster(b, move)|);
  }
}
