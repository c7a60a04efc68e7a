/** The selection state held by the UI manager: which menu is open, the move
    cursor, and how many moves the open menu shows. */
module Ui {
  import opened CSharp
  import opened Cursor
  import opened Moves

  datatype UIState = UnitSelect | MoveSelect | TargetSelect

  /** `panelOpen` is whether the move-list panel is active. */
  datatype Ui = Ui(state: UIState, selectedMove: int, numMoves: int, panelOpen: bool)

  /** The move-list panel has four slots. */
  const MoveSlots: nat := 4

  /** The panel is open exactly when a menu past unit selection is shown. */
  predicate Consistent(ui: Ui) {
    ui.panelOpen <==> ui.state != UnitSelect
  }

  /** The `SelectedMove` setter: the assigned value is wrapped into the
      number of moves shown, and the menu slot at the wrapped index is then
      highlighted. The wrap throws when no move is shown, and the slot
      lookup throws when the wrapped index lies outside the four slots,
      which happens for a value more than `numMoves` below zero. */
  function SetSelectedMove(ui: Ui, value: int): (r: Result<Ui>)
    ensures ui.numMoves == 0 ==> r == Err(DivideByZero)
    ensures r.Ok? ==> r.value == ui.(selectedMove := r.value.selectedMove) && 0 <= r.value.selectedMove < MoveSlots
    ensures 0 < ui.numMoves <= MoveSlots && value >= -ui.numMoves ==> r.Ok? && r.value.selectedMove < ui.numMoves
    ensures 0 < ui.numMoves <= MoveSlots && value >= -ui.numMoves
            ==> r == Ok(ui.(selectedMove := (value + ui.numMoves) % ui.numMoves))
    ensures 0 < ui.numMoves && -2 * ui.numMoves < value < -ui.numMoves ==> r == Err(ArgumentOutOfRange)
  {
    WrapBelow(value, ui.numMoves);
    var m :- Wrap(value, ui.numMoves);
    if 0 <= m < MoveSlots then Ok(ui.(selectedMove := m)) else Err(ArgumentOutOfRange)
  }

  /** Decrementing the cursor from the first move selects the last one, and
      incrementing it from the last move selects the first. */
  lemma MoveCursorWraps(ui: Ui)
    requires 0 < ui.numMoves <= MoveSlots
    ensures ui.selectedMove == 0 ==> SetSelectedMove(ui, ui.selectedMove - 1) == Ok(ui.(selectedMove := ui.numMoves - 1))
    ensures ui.selectedMove == ui.numMoves - 1 ==> SetSelectedMove(ui, ui.selectedMove + 1) == Ok(ui.(selectedMove := 0))
  {
    StepWrapsAround(ui.numMoves);
  }

  /** Moving the move cursor one way and then back restores the menu. */
  lemma MoveCursorInverse(ui: Ui, d: Direction, e: Direction)
    requires 0 <= ui.selectedMove < ui.numMoves <= MoveSlots && d != e
    ensures SetSelectedMove(ui, ui.selectedMove + Delta(d)).Ok?
    ensures var ui' := SetSelectedMove(ui, ui.selectedMove + Delta(d)).value;
            SetSelectedMove(ui', ui'.selectedMove + Delta(e)) == Ok(ui)
  {
    StepInverse(ui.selectedMove, ui.numMoves);
    assert SetSelectedMove(ui, ui.selectedMove + Delta(d)) == Ok(ui.(selectedMove := Step(ui.selectedMove, ui.numMoves, d).value));
  }

  /** The `UIState` setter. Entering unit selection with the panel open, or
      move selection with it closed, resets the move cursor; the panel is
      then shown for every state but unit selection. */
  function SetState(ui: Ui, value: UIState): (r: Result<Ui>)
    ensures r.Ok? ==> r.value.state == value && Consistent(r.value)
    ensures r.Ok? ==> r.value.numMoves == ui.numMoves
    ensures value == UnitSelect && ui.panelOpen ==> (r.Ok? <==> ui.numMoves != 0) && (r.Ok? ==> r.value.selectedMove == 0)
    ensures value == MoveSelect && !ui.panelOpen ==> (r.Ok? <==> ui.numMoves != 0) && (r.Ok? ==> r.value.selectedMove == 0)
    ensures (value == UnitSelect && !ui.panelOpen) || (value == MoveSelect && ui.panelOpen) || value == TargetSelect
            ==> r.Ok? && r.value.selectedMove == ui.selectedMove
  {
    var alreadyActive := ui.panelOpen;
    match value
    case UnitSelect =>
      var cursor :- if alreadyActive then SetSelectedMove(ui, 0) else Ok(ui);
      Ok(cursor.(panelOpen := false, state := value))
    case MoveSelect =>
      var shown := ui.(panelOpen := true);
      var cursor :- if !alreadyActive then SetSelectedMove(shown, 0) else Ok(shown);
      Ok(cursor.(state := value))
    case TargetSelect =>
      Ok(ui.(panelOpen := true, state := value))
  }

  /** Once the UI state has been set, the panel flag carries no information
      of its own: it is open exactly when the previous state was not unit
      selection. */
  lemma PanelTracksState(ui: Ui, value: UIState)
    requires SetState(ui, value).Ok?
    ensures SetState(ui, value).value.panelOpen <==> value != UnitSelect
  {
  }

  /** Number of the panel's slots `i .. MoveSlots-1` that show a move: the
      loop of `SetMoveList` counting from slot `i`. */
  function CountShown(moves: seq<Move>, i: nat): (r: nat)
    requires i <= MoveSlots
    ensures r == Min(|moves|, MoveSlots) - Min(|moves|, i)
    decreases MoveSlots - i
  {
    if i == MoveSlots then 0
    else if i >= |moves| then CountShown(moves, i + 1)
    else 1 + CountShown(moves, i + 1)
  }

  function Min(a: int, b: int): int {
    if a < b then a else b
  }

  /** `SetMoveList`: the menu shows the first four moves of the list. */
  function SetMoveList(ui: Ui, moves: seq<Move>): (r: Ui)
    ensures r.numMoves == Min(|moves|, MoveSlots)
    ensures r == ui.(numMoves := r.numMoves)
  {
    ui.(numMoves := CountShown(moves, 0))
  }

  /** A move beyond the fourth is never selectable: after the list is set,
      every cursor value the setter can store indexes one of the first four
      moves. */
  lemma OnlyFirstFourSelectable(ui: Ui, moves: seq<Move>, value: int)
    requires |moves| > 0
    requires value >= -Min(|moves|, MoveSlots)
    ensures SetSelectedMove(SetMoveList(ui, moves), value).Ok?
    ensures var m := SetSelectedMove(SetMoveList(ui, moves), value).value.selectedMove;
            0 <= m < MoveSlots && m < |moves|
  {
  }
}
