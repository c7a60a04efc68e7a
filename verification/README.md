# Battle core of the turn-based Unity demo, in Dafny

This project models the battle logic of a small Unity turn-based battle demo and
proves properties of it. The battle logic is one state machine spread across three
classes:

- the battle controller (`BattleManager`) holds:
  - the two rosters;
  - the battle state (`Active`, `Paused`, `Finished`);
  - the selected player unit;
  - the held targets and the target cursor;
- a unit (`Unit`) owns:
  - a health value clamped into `[0, MaxHealth]`;
  - an action-readiness meter that fills with time, gates acting, and is emptied
    after the unit acts;
- the UI manager (`UIManager`) holds the menu state and the cyclic move cursor.
  The controller reads and writes both.

The model is functional. A `Battle` value holds:

- an id-keyed map of units;
- the rosters and held targets as sequences of ids;
- the state enums;
- the cursors;
- a `Ui` record with the menu state, move cursor, number of listed moves, and
  whether the move panel is open.

Every public entry point is a pure function from a battle to a `Result<Battle>`:
`Start`, `Update`, `Select`, `Cancel`, and `Navigate` for `NavigateUp` and
`NavigateDown`. C#'s exceptions are explicit `Err` results:
`ArgumentOutOfRange` for the `ArgumentOutOfRangeException` of the `List<T>` indexer,
and `DivideByZero` for `%` by zero.

The engine's inputs are parameters:

- `Time.deltaTime` is `dt: real`;
- every `Random.Range(0, n)` is a caller-supplied draw `roll`, used as
  `roll % n`, with one `Roll(move, target)` per enemy per frame.

C# `int` arithmetic is written out: unchecked 32-bit wrap-around for
`CurrentHealth -= amount` and `+= amount`, and the truncating `%` of the cursors.

Modules, in dependency order:

| file | module | contents |
|---|---|---|
| csharp.dfy | `CSharp` | `Int32`, wrap-around, truncating `%`, list indexer, `Result` |
| unity.dfy | `Unity` | `Mathf.Clamp`, `Random.Range` |
| lists.dfy | `Lists` | `List.Remove` (first occurrence), filtering, no-repeat lemmas |
| cursor.dfy | `Cursor` | the `(i + n + d) % n` cursor step and its wrap-around |
| moves.dfy | `Moves` | move and unit definitions |
| units.dfy | `Units` | a unit's health and readiness operations |
| ui.dfy | `Ui` | the `UIState` and `SelectedMove` setters, `SetMoveList` counting |
| sweep.dfy | `Sweep` | the reverse loop with in-place removal, over any value type |
| resolution.dfy | `Resolution` | `PerformMove` and `PerformEnemyMove` on units |
| battle.dfy | `Battle` | battle state, `Start`, `EndBattle`, target rules, target cursor |
| turns.dfy | `Turns` | `Update`: regeneration and the enemy loop |
| controls.dfy | `Controls` | `Select`, `Cancel`, navigation |
| invariant.dfy | `Invariant` | the battle invariant and its preservation by every entry point |
| update_facts.dfy | `UpdateFacts` | what a frame promises about enemy turns and defeat |
| scenarios.dfy | `Scenarios` | concrete battles: victory, area attack, the quirks below |

Behaviours of the code that the model keeps as written:

- A killed unit leaves one fixed roster only:
  - the enemy roster when the player acts (BattleManager.cs:177);
  - the player roster when an enemy acts (BattleManager.cs:78).

  So an ally killed by friendly fire stays in its roster, although its game
  object has been destroyed (see "Left out").
- A move with target count `All` and target `Self` resolves to no target.
- The enemy loop goes on after a defeat. A later enemy with a single-target attack
  then indexes the empty player roster and throws.
- The unit cursor is not moved back when player units die. The next `Select` in
  unit selection can then index past the end of the roster and throw.
- Other inputs that throw:
  - a ready unit with no moves throws on `Select`: the move cursor is reset modulo
    zero moves;
  - a scene that starts with the move panel open throws in `Start`;
  - the `SelectedMove` setter throws when the wrapped value is negative, which
    needs an assignment below `-numMoves`. The controller only ever assigns
    `0` or the cursor plus or minus one, so this never happens in a battle.
- The code differs from a plain reading of the menus on one point. `Cancel` in
  target selection and the final `Select` do not clear the held target list: only
  the target selectors on screen are cleared (BattleManager.cs:158, 210). The held
  list is cleared only by the next `GetTargets`. The model follows the code, and
  `Scenarios.CancelKeepsTargetsReselectIgnoresThem` shows that the stale list
  cannot influence the next target resolution.

## Model

| member | source | states |
|---|---|---|
| CSharp.Wrap32 | Assets/Scripts/Unit.cs:62-72 | the unchecked sum agrees with the exact one modulo 2^32 and equals it when it fits in an `int` |
| CSharp.Rem | Assets/Scripts/BattleManager.cs:257 | C#'s `%` keeps the sign of the dividend, lies strictly inside `(-|n|, |n|)`, agrees with the mathematical remainder on non-negative dividends, and is the dividend minus `|n|` times the quotient truncated toward zero, which fixes its value |
| CSharp.At | Assets/Scripts/BattleManager.cs:139 | a list indexer succeeds exactly for `0 <= i < Count` and then returns the element at `i` |
| Unity.Clamp | Assets/Scripts/Unit.cs:25 | the result lies in `[min, max]`, is the value itself when that is in range, `min` below the range and `max` above it |
| Unity.ClampReal | Assets/Scripts/Unit.cs:85 | the float clamp lies in `[min, max]`, leaves an in-range value alone, gives `min` below the range and `max` above it |
| Unity.RandomRange | Assets/Scripts/Unit.cs:110 | a draw over `n > 0` choices lies in `[0, n)` |
| Unity.RandomRangeCovers | Assets/Scripts/Unit.cs:110 | every index in `[0, n)` is reachable by some draw |
| Lists.RemoveFirst | Assets/Scripts/BattleManager.cs:176-177 | `List.Remove` drops one element: the length drops by one when the value is present, and the list is unchanged when it is absent |
| Lists.RemoveFirstCount | Assets/Scripts/BattleManager.cs:176-177 | `List.Remove` takes exactly one copy of the value out of the multiset of elements |
| Lists.RemoveFirstIsWithout | Assets/Scripts/BattleManager.cs:176-177 | on a list without repeats, removing the first occurrence is filtering the value out |
| Lists.WithoutAt | Assets/Scripts/BattleManager.cs:77-78 | on a list without repeats, removing the element at position `i` keeps the elements before it followed by those after it |
| Cursor.Wrap | Assets/Scripts/UIManager.cs:64 | `(value + n) % n` throws exactly when `n == 0` and lands in `[0, n)` for `value >= -n` |
| Cursor.WrapValue | Assets/Scripts/BattleManager.cs:257 | for `-n <= value < n` the wrap brings a negative position in at the right end and leaves the others in place |
| Cursor.Step | Assets/Scripts/BattleManager.cs:255-259 | a one-position cursor step throws exactly on an empty range and otherwise lands in `[0, n)` from any position `>= 0` |
| Cursor.StepWrapsAround | Assets/Scripts/BattleManager.cs:215-253 | up from the first position gives the last, down from the last gives the first |
| Cursor.WrapBelow | Assets/Scripts/UIManager.cs:64 | a value more than `n` below zero wraps to a negative index, since C#'s `%` keeps the dividend's sign |
| Cursor.StepInside | Assets/Scripts/BattleManager.cs:215-253 | inside the range, up and down move by exactly one |
| Cursor.StepInverse | Assets/Scripts/BattleManager.cs:255-259 | up then down, and down then up, return to the start |
| Units.Spawn | Assets/Scripts/Unit.cs:29-33 | a unit starts at full health with an empty meter, within bounds, and not ready when its meter has positive size |
| Units.SetHealth | Assets/Scripts/Unit.cs:20-27 | every assignment to `CurrentHealth` lands in `[0, MaxHealth]`, keeps an in-range value, and touches nothing else |
| Units.TakeDamage | Assets/Scripts/Unit.cs:62-66 | damage keeps health in `[0, MaxHealth]` and changes nothing but health |
| Units.HealHealth | Assets/Scripts/Unit.cs:68-72 | healing keeps health in `[0, MaxHealth]` and changes nothing but health |
| Units.DamageLowersHealth | Assets/Scripts/Unit.cs:62-66 | non-negative damage lowers health by exactly the amount, stopping at zero |
| Units.HealRaisesHealth | Assets/Scripts/Unit.cs:68-72 | non-negative healing that fits in an `int` raises health by exactly the amount, stopping at the maximum |
| Units.DamageHealMirror | Assets/Scripts/Unit.cs:62-72 | damage of `-a` is healing of `a`, and healing of `-a` is damage of `a` |
| Units.HealOverflowKills | Assets/Scripts/Unit.cs:68-72 | healing a unit at `int.MaxValue` wraps to a negative sum, which the setter clamps to zero |
| Units.IsActionReady | Assets/Scripts/Unit.cs:91-94 | a unit is ready exactly when its meter equals its maximum, compared with `==` as in the code; `Units.RegenFills` and `Units.ReadyStaysReady` state when it becomes and stays ready |
| Units.RegenAction | Assets/Scripts/Unit.cs:79-89 | a full meter is left alone, the meter stays in `[0, MaxActionValue]`, and nothing but the meter changes |
| Units.RegenFills | Assets/Scripts/Unit.cs:79-89 | a meter that is not full grows by `Speed * dt` up to the maximum, and is ready afterwards exactly when that reaches the maximum |
| Units.ReadyStaysReady | Assets/Scripts/Unit.cs:81-82 | a ready unit stays ready, unchanged, through any sequence of frames |
| Units.ResetActionValue | Assets/Scripts/Unit.cs:96-101 | the meter is emptied, so the unit is not ready when its meter has positive size, and nothing else changes |
| Units.GetMoveData | Assets/Scripts/Unit.cs:103-106 | succeeds exactly for an index into the move list and returns that move |
| Units.GetRandomMoveData | Assets/Scripts/Unit.cs:108-111 | succeeds exactly on a non-empty move list and returns one of the unit's own moves |
| Units.RandomMoveCovers | Assets/Scripts/Unit.cs:108-111 | every move of the list can be the random pick |
| Ui.SetSelectedMove | Assets/Scripts/UIManager.cs:58-67 | the move cursor setter throws a division by zero when no move is listed; when at most four moves are listed, any assignment `>= -numMoves` stores `(value + numMoves) % numMoves`, which lies in `[0, numMoves)`; the slot lookup it calls throws for an assignment between `-2 * numMoves` and `-numMoves`; a stored value always names one of the four slots |
| Ui.MoveCursorWraps | Assets/Scripts/UIManager.cs:58-67 | decrementing from the first move selects the last, incrementing from the last selects the first |
| Ui.MoveCursorInverse | Assets/Scripts/UIManager.cs:58-67 | with at most four moves listed, setting the move cursor one up and then one down, or the reverse, gives back the same menu |
| Ui.SetState | Assets/Scripts/UIManager.cs:29-56 | the getter returns the state assigned; the cursor is reset, and may throw, only when entering unit selection with the panel open or move selection with it closed; every other transition keeps the cursor |
| Ui.PanelTracksState | Assets/Scripts/UIManager.cs:34-54 | after any assignment the panel is open exactly when the state is not unit selection |
| Ui.CountShown | Assets/Scripts/UIManager.cs:99-112 | the slot loop from slot `i` counts the moves it shows in slots `i..3` |
| Ui.SetMoveList | Assets/Scripts/UIManager.cs:95-113 | the number of listed moves is `min(|moves|, 4)` and nothing else changes |
| Ui.OnlyFirstFourSelectable | Assets/Scripts/UIManager.cs:95-113 | after the list is set, every value the cursor setter stores indexes one of the first four moves |
| Sweep.Run | Assets/Scripts/BattleManager.cs:165-186 | the reverse loop with in-place removal, over any value type; `Sweep.RunFrame` and `Sweep.RunAll` state its frame and its exact result |
| Sweep.RunFrame | Assets/Scripts/BattleManager.cs:165-186 | the loop keeps the unit ids, leaves units outside the held list untouched, and only removes elements from the two lists |
| Sweep.RunAll | Assets/Scripts/BattleManager.cs:165-186 | on a list without repeats the reverse loop hits every id once and removes exactly the dead from the walked list and the roster, with survivors in order |
| Resolution.Hit | Assets/Scripts/BattleManager.cs:170-184 | a damage move applies `TakeDamage` of the move's value, a heal applies `HealHealth`, a block changes nothing; the hit changes health only and keeps it in bounds |
| Resolution.Perform | Assets/Scripts/BattleManager.cs:165-186 | applying a move changes health values only, touches no unit outside the held list, and only shrinks the held list and the roster |
| Resolution.RunHealthOnly | Assets/Scripts/BattleManager.cs:165-186 | even with repeated targets the loop changes nothing but health |
| Resolution.KilledByMove | Assets/Scripts/BattleManager.cs:172-179 | the units the loop removes are exactly the targets the move kills |
| Resolution.PerformSpec | Assets/Scripts/BattleManager.cs:165-186 | without repeats each target is hit once; the held list and the roster lose exactly the killed targets and keep the survivors in order |
| Resolution.NonDamageRemovesNothing | Assets/Scripts/BattleManager.cs:181-183 | a heal or block removes no unit from either list, and a block changes no unit |
| Battle.Start | Assets/Scripts/BattleManager.cs:29-41 | the battle starts active in unit selection with the first unit selected, no held targets, target index -1, every unit keeping its data and moves at full health with an empty meter, the rosters exactly the scene's, and the menu in unit selection with both counters zero and the panel closed; it throws exactly on an empty player roster or an open panel |
| Battle.EndBattle | Assets/Scripts/BattleManager.cs:188-196 | the battle is finished with the outcome of the message shown, and nothing else changes |
| Battle.GetTargets | Assets/Scripts/BattleManager.cs:287-325 | after clearing, a single enemy target is the first enemy at index 0, a single ally or self target is the selected unit at its index, `All` holds the whole roster of its side in order or nothing for `Self`; it throws exactly when the roster indexed is too short |
| Battle.SelectRandomTargets | Assets/Scripts/BattleManager.cs:89-130 | an enemy's single target is one unit of the player or enemy roster, or itself; `All` gives the whole roster of the side or nothing for `Self`; it throws exactly on an empty roster for a single draw |
| Battle.RandomTargetCovers | Assets/Scripts/BattleManager.cs:93-102 | every member of the roster can be the random single target |
| Battle.CursorRoster | Assets/Scripts/BattleManager.cs:261-279 | a single non-self player move walks the player roster for `Ally` and the enemy roster for `Enemy`; `Battle.MoveCurrentTarget` states the cursor step over it |
| Battle.MoveCurrentTarget | Assets/Scripts/BattleManager.cs:261-279 | a no-op for `All` or `Self` moves; otherwise it throws on an empty roster, and on success holds exactly the roster element at the new index, which is the cursor step of the old one |
| Battle.StepFromAnywhere | Assets/Scripts/BattleManager.cs:268-273 | from the resting index -1 or any index above, a step over a non-empty roster lands in range |
| Battle.MoveCurrentTargetSucceeds | Assets/Scripts/BattleManager.cs:261-279 | target navigation from any index `>= -1` over a non-empty roster never throws |
| Battle.TargetCursorInverse | Assets/Scripts/BattleManager.cs:261-279 | stepping the target cursor one way and back restores the index and the held target |
| Turns.RegenAll | Assets/Scripts/BattleManager.cs:47-50 | regenerating a roster changes only the meters of its units and keeps them in bounds |
| Turns.Draw | Assets/Scripts/BattleManager.cs:56-57 | the `k`-th enemy of the frame uses the `k`-th supplied pair of draws, for its move and for its single target |
| Turns.RegenAllOnce | Assets/Scripts/BattleManager.cs:47-50 | on a roster without repeats every unit regenerates exactly once |
| Turns.ZeroFrameRegen | Assets/Scripts/Unit.cs:79-89 | a frame of zero length changes no in-range meter |
| Turns.Act | Assets/Scripts/BattleManager.cs:56-61 | an enemy action keeps every unit's kind, prunes only the player roster, empties the actor's meter, leaves other meters, ends the battle in defeat exactly when the player roster is empty, and its units and player roster are those of `Perform` of the move on the targets, with the actor's meter then emptied |
| Turns.EnemyTurn | Assets/Scripts/BattleManager.cs:51-63 | an enemy that is not ready after regenerating only regenerates; a ready one throws exactly when it has no move or its single draw meets an empty roster, and otherwise is `Act` of the move at the drawn index on the targets `SelectRandomTargets` draws; the player roster only shrinks |
| Turns.EnemyLoop | Assets/Scripts/BattleManager.cs:51-63 | the enemy loop keeps every unit's kind, changes only units, the player roster, the state and the outcome, and only shrinks the player roster |
| Turns.Update | Assets/Scripts/BattleManager.cs:43-64 | a paused or finished battle is left unchanged; a frame changes only units, the player roster, state and outcome |
| Controls.SelectedUnit | Assets/Scripts/BattleManager.cs:139 | the selected unit exists exactly when the cursor lies inside the player roster |
| Controls.PendingMove | Assets/Scripts/BattleManager.cs:146 | the move under the cursor exists exactly when both the unit and move cursors are in range |
| Controls.SelectUnit | Assets/Scripts/BattleManager.cs:138-144 | a unit that is not ready changes nothing; a ready one pauses the battle and opens move selection with the panel shown, listing `min(|moves|, 4)` moves, with the move cursor reset to 0 if the panel was closed and kept otherwise; it throws on a stale cursor or a ready unit without moves |
| Controls.SelectMove | Assets/Scripts/BattleManager.cs:145-151 | it succeeds exactly when the move under the cursor exists and its targets resolve; the battle is then that of `GetTargets`, and the UI enters target selection with the panel shown, keeping the move cursor and the move count |
| Controls.SelectTarget | Assets/Scripts/BattleManager.cs:152-161 | the move is applied to the held targets with the enemy roster pruned, the actor's meter is emptied, the player roster is untouched, the battle resumes in unit selection, and it is won exactly when no enemy is left; the unit cursor and the target cursor are kept, and the UI is that of the `UIState` setter entering unit selection |
| Controls.Select | Assets/Scripts/BattleManager.cs:132-163 | a finished battle ignores `Select`; otherwise unit selection runs `SelectUnit`, move selection `SelectMove` and target selection `SelectTarget`, and the rosters stay wired |
| Controls.Cancel | Assets/Scripts/BattleManager.cs:198-213 | a finished battle or unit selection ignores it; move selection returns to unit selection and resumes the battle; target selection returns to move selection with the battle state and held targets kept |
| Controls.MoveUnitCursor | Assets/Scripts/BattleManager.cs:255-259 | the unit cursor becomes the cyclic step of the old one and lands inside the roster |
| Controls.Navigate | Assets/Scripts/BattleManager.cs:215-253 | a finished battle ignores navigation; navigation never changes units, rosters, battle state or menu state; in unit selection it steps the unit cursor, in move selection it sets the move cursor one up or down and fails exactly when that setter does, in target selection it steps the target cursor for the selected move |
| Invariant.StartInv | Assets/Scripts/BattleManager.cs:29-41 | a well-formed scene starts in the invariant |
| Invariant.SelectUnitInv | Assets/Scripts/BattleManager.cs:138-144 | `Select` in unit selection preserves the invariant |
| Invariant.SelectMoveInv | Assets/Scripts/BattleManager.cs:145-151 | `Select` in move selection preserves the invariant |
| Invariant.PerformKeeps | Assets/Scripts/BattleManager.cs:165-186 | applying a move keeps every meter in bounds and both lists without repeats |
| Invariant.SelectTargetInv | Assets/Scripts/BattleManager.cs:152-161 | `Select` in target selection preserves the invariant |
| Invariant.SelectInv | Assets/Scripts/BattleManager.cs:132-163 | `Select` preserves the invariant whenever it does not throw |
| Invariant.SelectFaults | Assets/Scripts/BattleManager.cs:138-146 | under the invariant `Select` throws exactly on a stale unit cursor or a ready unit without moves |
| Invariant.CancelInv | Assets/Scripts/BattleManager.cs:198-213 | under the invariant `Cancel` never throws and preserves the invariant |
| Invariant.NavigateInv | Assets/Scripts/BattleManager.cs:215-253 | under the invariant navigation never throws and preserves the invariant |
| Invariant.UnitCursorRoundTrip | Assets/Scripts/BattleManager.cs:255-259 | in unit selection with an in-range cursor, one step and one step back give back the same battle |
| Invariant.MoveCursorRoundTrip | Assets/Scripts/BattleManager.cs:224-226 | in move selection with an in-range cursor over at most four moves, one step and one step back give back the same battle |
| Invariant.TargetCursorRoundTrip | Assets/Scripts/BattleManager.cs:261-280 | in target selection for a single non-self move, one step and one step back hold the same target under the same index |
| Invariant.NavigateRoundTrip | Assets/Scripts/BattleManager.cs:215-253 | one step up and one down (or down and up) restores the unit cursor, the move cursor, or the held single target and its cursor |
| Invariant.ActInv | Assets/Scripts/BattleManager.cs:56-61 | an enemy action preserves the invariant of the enemy loop |
| Invariant.RandomTargetsNoDup | Assets/Scripts/BattleManager.cs:89-130 | random targets never list a unit twice |
| Invariant.EnemyTurnInv | Assets/Scripts/BattleManager.cs:51-63 | one enemy turn preserves the loop invariant |
| Invariant.EnemyLoopInv | Assets/Scripts/BattleManager.cs:51-63 | the whole enemy loop preserves the loop invariant |
| Invariant.UpdateInv | Assets/Scripts/BattleManager.cs:43-64 | `Update` preserves the invariant whenever it does not throw |
| UpdateFacts.EnemyActsWithOwnMove | Assets/Scripts/BattleManager.cs:54-59 | an enemy ready after regenerating acts with one of its own moves on units of the battle |
| UpdateFacts.EnemyTurnSettles | Assets/Scripts/BattleManager.cs:51-63 | after its turn an enemy is not ready and no other meter moved |
| UpdateFacts.EnemyLoopSettles | Assets/Scripts/BattleManager.cs:51-63 | the loop leaves every enemy it visits not ready and every other meter where it was |
| UpdateFacts.NoEnemyLeftReady | Assets/Scripts/BattleManager.cs:43-64 | after a frame no enemy of the roster is ready |
| UpdateFacts.EnemyTurnKeepsOthers | Assets/Scripts/BattleManager.cs:51-63 | an enemy turn moves no meter but the acting enemy's |
| UpdateFacts.EnemyLoopKeepsOthers | Assets/Scripts/BattleManager.cs:51-63 | the enemy loop moves no meter of a unit it does not visit |
| UpdateFacts.UpdateRegeneratesPlayers | Assets/Scripts/BattleManager.cs:43-64 | a running frame leaves every player unit's meter exactly one regeneration step further, whatever the enemies do |
| UpdateFacts.EnemyTurnTracksDefeat | Assets/Scripts/BattleManager.cs:56-61 | one enemy turn keeps "finished exactly when the player roster is empty, and then lost" |
| UpdateFacts.EnemyLoopTracksDefeat | Assets/Scripts/BattleManager.cs:51-63 | the whole loop keeps that defeat bookkeeping |
| UpdateFacts.UpdateDefeat | Assets/Scripts/BattleManager.cs:43-64 | a running frame ends the battle exactly when the player roster is empty, only ever in defeat, and otherwise keeps it active with its outcome |
| UpdateFacts.OutcomeKept | Assets/Scripts/BattleManager.cs:51-63 | while the battle is not finished the loop keeps the outcome |
| UpdateFacts.FinishedStays | Assets/Scripts/BattleManager.cs:51-63 | once lost, the battle stays finished for the rest of the loop |
| Scenarios.SingleEnemyFrame | Assets/Scripts/BattleManager.cs:43-64 | with one enemy a running frame is player regeneration followed by that enemy's turn |
| Scenarios.OneHitVictory | Assets/Scripts/BattleManager.cs:132-163 | three `Select`s with a lethal strike on the lone enemy empty the enemy roster and win the battle |
| Scenarios.QuakeTurn | Assets/Scripts/BattleManager.cs:51-63 | an enemy that fills its meter hits both player units with its area attack |
| Scenarios.QuakeHitsBoth | Assets/Scripts/BattleManager.cs:66-87 | an area attack of five on two units of ten leaves both at five and in the roster, and empties the attacker's meter |
| Scenarios.AreaAttackLeavesBothAlive | Assets/Scripts/BattleManager.cs:43-64 | an area attack of five on two units of ten leaves both at five, in the roster, with the battle active |
| Scenarios.CancelKeepsTargetsReselectIgnoresThem | Assets/Scripts/BattleManager.cs:198-213 | `Cancel` in target selection keeps the held list, and the next `Select` gives the same result whatever list and index are held |
| Scenarios.BitePrunes | Assets/Scripts/BattleManager.cs:66-87 | a lethal single hit removes the victim from the player roster at its position and touches no other unit |
| Scenarios.BiteKills | Assets/Scripts/BattleManager.cs:51-63 | a ready enemy's lethal bite removes the drawn player unit and changes no other unit |
| Scenarios.KillUnderCursor | Assets/Scripts/BattleManager.cs:139 | killing the last player unit under the cursor leaves the cursor one past the roster, and the next `Select` throws |
| Scenarios.StaleUnitCursor | Assets/Scripts/BattleManager.cs:139 | in a concrete battle, a frame in which the selected unit dies leaves `Select` throwing |
| Scenarios.BiteOnNoOne | Assets/Scripts/BattleManager.cs:93-98 | a ready enemy's single-target bite throws once the player roster is empty |
| Scenarios.BiteThenThrow | Assets/Scripts/BattleManager.cs:51-63 | two ready biters over one weakened player unit: the first kills it, the loop goes on, and the second enemy's draw throws |
| Scenarios.LoopRunsAfterDefeat | Assets/Scripts/BattleManager.cs:51-63 | after the first enemy kills the last player unit, the second enemy's single-target draw throws |
| Scenarios.FriendlyFireKeepsAllyInRoster | Assets/Scripts/BattleManager.cs:174-177 | a player's damage move that kills an ally takes it off the held list but leaves it in the player roster |

## Left out

- `InputManager.cs`: it only forwards four button presses to `Select`, `Cancel`, `NavigateUp` and `NavigateDown`, which are modelled directly.
- Rendering: panel activation as visuals, text fields, target selectors, victory and defeat messages, health and action bar scaling and colours. `EndBattle`'s message is kept as the `outcome` field.
- Transforms, the camera, `WorldToScreenPoint`, `GetTargetPositions`: positions do not affect the battle logic.
- `Destroy(unit.gameObject)`: a killed unit stays in the id map and leaves the one roster the loop removes it from. A unit killed by a move of its own side (an ally killed by friendly fire) is destroyed but stays in its own roster (BattleManager.cs:174-178, 75-79). In the model it stays a live participant: it keeps regenerating, can be selected, can act and can be targeted. In Unity its game object is gone, so the later `SetActionUI` of `RegenAction` (Unit.cs:86) and the `.transform` reads of the cursors (BattleManager.cs:223, 243, 258), the held target's position in `MoveCurrentTarget` (BattleManager.cs:278) and the loop of `GetTargetPositions` (BattleManager.cs:332) would touch a destroyed object. That failure is not modelled.
- Stamina (`RegenStamina`, `MaxStamina`, `Regen`) and `Attack`: no logic reads them.
- Float arithmetic: readiness is a `real`, so float rounding is not modelled. Readiness is still compared with `==`, as in the code.
- Unity lifecycle ordering between components' `Start` methods: `Battle.Start` takes the units after their own `Start`, and the initial panel activity is a parameter.
- Effects that happen before an exception: after a throw Unity keeps whatever fields were already assigned. The model returns `Err` and drops the partial state.
- Index arithmetic overflow: the cursors compute `i + n + d` in 32-bit `int`. Roster sizes and cursor values near `int.MaxValue` are not modelled.
- Turns.Draw: draws past the end of the supplied `rolls` are zero. Callers supply one roll per enemy.
- Resolution.PerformSpec: states the exact result only when neither the held list nor the roster repeats a unit. With repeats, `Resolution.Perform` and `Resolution.RunHealthOnly` state only the frame and the health-only change. The invariant shows that repeats never arise.
- Battle.MoveCurrentTarget: its own contract does not say when it succeeds for an arbitrary stored index. `Battle.MoveCurrentTargetSucceeds` states success for every index `>= -1`, which is all the invariant allows.
