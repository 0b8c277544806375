/**
 * The Game class: a nine-cell board updated in place, the win scan, the
 * validated player move, the bot's rejection-sampled move and the round
 * loop of `run`. Console output is replaced by returned values; the
 * player's lines arrive already parsed (None stands for a line that is not
 * an integer) and the random source is a sequence of draws in 0..8.
 */
module TicTacToe {
  import opened Wrappers
  import opened Board

  /** What the validation of one player input decides. */
  datatype MoveCheck =
    | Accepted(index: CellIndex)
    | NotAnInteger     // "Invalid input. Please enter an integer."
    | OutOfRange       // "Invalid input."
    | AlreadyTaken     // "That positions is already taken!"

  /**
   * One pass of the input validation: the 1-based position becomes an
   * index, which must lie in 0..8 and address a cell holding neither mark.
   */
  function CheckInput(b: seq<Cell>, input: Option<int>): (r: MoveCheck)
    requires IsBoard(b)
    ensures r.Accepted? <==> input.Some? && 1 <= input.value <= 9 && b[input.value - 1] == Empty
    ensures r.Accepted? ==> r.index == input.value - 1
    ensures r == NotAnInteger <==> input.None?
    ensures r == OutOfRange <==> input.Some? && !(1 <= input.value <= 9)
    ensures r == AlreadyTaken <==> input.Some? && 1 <= input.value <= 9 && b[input.value - 1] != Empty
  {
    match input
    case None => NotAnInteger
    case Some(n) =>
      var index := n - 1;
      if index < 0 || index >= 9 then OutOfRange
      else if b[index] == O || b[index] == X then AlreadyTaken
      else
        assert b[index] == Empty;
        Accepted(index)
  }

  // ---------------------------------------------------------------------
  // The game of `run` on values: a reference the methods below are proved
  // to compute. Each turn takes the first input (or draw) that it can use.

  /** What one turn took: how many inputs or draws, and the cell chosen, if any. */
  datatype Turn = Turn(used: nat, cell: Option<CellIndex>)

  /** The player's turn: the first input that `CheckInput` accepts. */
  function FirstAccepted(b: seq<Cell>, inputs: seq<Option<int>>): (t: Turn)
    requires IsBoard(b)
    ensures t.used <= |inputs|
    ensures t.cell.None? ==> t.used == |inputs|
    ensures t.cell.Some? ==> t.used >= 1 && CheckInput(b, inputs[t.used - 1]) == Accepted(t.cell.value)
    ensures t.cell.Some? ==> b[t.cell.value] == Empty
  {
    if inputs == [] then Turn(0, None)
    else match CheckInput(b, inputs[0])
      case Accepted(i) => Turn(1, Some(i))
      case _ =>
        var t := FirstAccepted(b, inputs[1..]);
        Turn(t.used + 1, t.cell)
  }

  /**
   * `FirstAccepted` is the only turn that takes its inputs in order: given
   * how many inputs were taken, every one before the accepted one rejected
   * (all of them, when none was accepted), the turn is `FirstAccepted`.
   */
  lemma {:induction false} FirstAcceptedIs(b: seq<Cell>, inputs: seq<Option<int>>, used: nat, move: Option<CellIndex>)
    requires IsBoard(b) && used <= |inputs|
    requires move.None? ==> used == |inputs|
    requires move.Some? ==> used >= 1 && CheckInput(b, inputs[used - 1]) == Accepted(move.value)
    requires forall k :: 0 <= k < used && (move.None? || k < used - 1) ==> !CheckInput(b, inputs[k]).Accepted?
    ensures FirstAccepted(b, inputs) == Turn(used, move)
    decreases |inputs|
  {
    if inputs == [] {
    } else if CheckInput(b, inputs[0]).Accepted? {
      assert !(0 < used && (move.None? || 0 < used - 1));
    } else {
      assert used != 0 && (move.Some? ==> used != 1);
      forall k | 0 <= k < used - 1 && (move.None? || k < used - 2)
        ensures !CheckInput(b, inputs[1..][k]).Accepted?
      {
        assert inputs[1..][k] == inputs[k + 1];
      }
      FirstAcceptedIs(b, inputs[1..], used - 1, move);
    }
  }

  /** The bot's turn: the first draw that addresses an Empty cell. */
  function FirstEmpty(b: seq<Cell>, draws: seq<CellIndex>): (t: Turn)
    requires IsBoard(b)
    ensures t.used <= |draws|
    ensures t.cell.None? ==> t.used == |draws|
    ensures t.cell.Some? ==> t.used >= 1 && t.cell.value == draws[t.used - 1] && b[t.cell.value] == Empty
  {
    if draws == [] then Turn(0, None)
    else if b[draws[0]] == Empty then Turn(1, Some(draws[0]))
    else
      var t := FirstEmpty(b, draws[1..]);
      Turn(t.used + 1, t.cell)
  }

  /**
   * `FirstEmpty` is the only turn that takes its draws in order: every draw
   * before the chosen one (all of them, when none was chosen) hit a mark.
   */
  lemma {:induction false} FirstEmptyIs(b: seq<Cell>, draws: seq<CellIndex>, used: nat, choice: Option<CellIndex>)
    requires IsBoard(b) && used <= |draws|
    requires choice.None? ==> used == |draws|
    requires choice.Some? ==> used >= 1 && choice.value == draws[used - 1] && b[choice.value] == Empty
    requires forall k :: 0 <= k < used && (choice.None? || k < used - 1) ==> b[draws[k]] != Empty
    ensures FirstEmpty(b, draws) == Turn(used, choice)
    decreases |draws|
  {
    if draws == [] {
    } else if b[draws[0]] == Empty {
      assert !(0 < used && (choice.None? || 0 < used - 1));
    } else {
      assert used != 0 && (choice.Some? ==> used != 1);
      forall k | 0 <= k < used - 1 && (choice.None? || k < used - 2)
        ensures b[draws[1..][k]] != Empty
      {
        assert draws[1..][k] == draws[k + 1];
      }
      FirstEmptyIs(b, draws[1..], used - 1, choice);
    }
  }

  /** What one round did: its outcome (None: the game goes on), what it took, the cells played. */
  datatype RoundRecord = RoundRecord(result: Option<Outcome>, inputsUsed: nat, drawsUsed: nat, moves: seq<CellIndex>)

  /**
   * One round: the player's turn, the win check, the tie check, the bot's
   * turn on the board the player left, the win check.
   */
  function RoundOf(b: seq<Cell>, inputs: seq<Option<int>>, draws: seq<CellIndex>): (r: RoundRecord)
    requires IsBoard(b)
    ensures r.inputsUsed <= |inputs| && r.drawsUsed <= |draws|
    ensures r.result.None? ==> r.inputsUsed >= 1 && r.drawsUsed >= 1 && |r.moves| == 2
    ensures r.result == Some(InProgress) ==> r.inputsUsed == |inputs| || r.drawsUsed == |draws|
    ensures r.result == Some(PlayerWin) || r.result == Some(Tie) ==> |r.moves| == 1 && r.drawsUsed == 0
    ensures r.result == Some(BotWin) ==> |r.moves| == 2 && r.drawsUsed >= 1
  {
    var player := FirstAccepted(b, inputs);
    if player.cell.None? then RoundRecord(Some(InProgress), player.used, 0, [])
    else
      var afterPlayer := b[player.cell.value := X];
      if HasWin(afterPlayer) then RoundRecord(Some(PlayerWin), player.used, 0, [player.cell.value])
      else if IsFull(afterPlayer) then RoundRecord(Some(Tie), player.used, 0, [player.cell.value])
      else
        var bot := FirstEmpty(afterPlayer, draws);
        if bot.cell.None? then RoundRecord(Some(InProgress), player.used, bot.used, [player.cell.value])
        else if HasWin(afterPlayer[bot.cell.value := O]) then
          RoundRecord(Some(BotWin), player.used, bot.used, [player.cell.value, bot.cell.value])
        else RoundRecord(None, player.used, bot.used, [player.cell.value, bot.cell.value])
  }

  /** What a whole game did: its outcome, what it took, the cells played. */
  datatype GameRecord = GameRecord(outcome: Outcome, inputsUsed: nat, drawsUsed: nat, moves: seq<CellIndex>)

  /**
   * The whole game from board `b`, move by move: the player's half here, the
   * bot's half in BotGame, until a half decides the game or runs out of
   * inputs or draws.
   */
  function PlayGame(b: seq<Cell>, inputs: seq<Option<int>>, draws: seq<CellIndex>): (g: GameRecord)
    requires IsBoard(b)
    ensures g.inputsUsed <= |inputs| && g.drawsUsed <= |draws|
    decreases |inputs|, 1
  {
    var player := FirstAccepted(b, inputs);
    if player.cell.None? then GameRecord(InProgress, player.used, 0, [])
    else
      var afterPlayer := b[player.cell.value := X];
      if HasWin(afterPlayer) then GameRecord(PlayerWin, player.used, 0, [player.cell.value])
      else if IsFull(afterPlayer) then GameRecord(Tie, player.used, 0, [player.cell.value])
      else Resumed(player.used, 0, [player.cell.value], BotGame(afterPlayer, inputs[player.used..], draws))
  }

  /** The game from board `b` when the bot is to move. */
  function BotGame(b: seq<Cell>, inputs: seq<Option<int>>, draws: seq<CellIndex>): (g: GameRecord)
    requires IsBoard(b)
    ensures g.inputsUsed <= |inputs| && g.drawsUsed <= |draws|
    decreases |inputs|, 2
  {
    var bot := FirstEmpty(b, draws);
    if bot.cell.None? then GameRecord(InProgress, 0, bot.used, [])
    else
      var afterBot := b[bot.cell.value := O];
      if HasWin(afterBot) then GameRecord(BotWin, 0, bot.used, [bot.cell.value])
      else Resumed(0, bot.used, [bot.cell.value], PlayGame(afterBot, inputs, draws[bot.used..]))
  }

  /** A game from the player's turn stays open only when the inputs or the draws ran out. */
  lemma {:induction false} OpenGameRanOut(b: seq<Cell>, inputs: seq<Option<int>>, draws: seq<CellIndex>)
    requires IsBoard(b)
    ensures var g := PlayGame(b, inputs, draws);
      g.outcome == InProgress ==> g.inputsUsed == |inputs| || g.drawsUsed == |draws|
    decreases |inputs|, 1
  {
    var player := FirstAccepted(b, inputs);
    if player.cell.Some? {
      var afterPlayer := b[player.cell.value := X];
      if !HasWin(afterPlayer) && !IsFull(afterPlayer) {
        OpenBotGameRanOut(afterPlayer, inputs[player.used..], draws);
      }
    }
  }

  /** A game from the bot's turn stays open only when the inputs or the draws ran out. */
  lemma {:induction false} OpenBotGameRanOut(b: seq<Cell>, inputs: seq<Option<int>>, draws: seq<CellIndex>)
    requires IsBoard(b)
    ensures var g := BotGame(b, inputs, draws);
      g.outcome == InProgress ==> g.inputsUsed == |inputs| || g.drawsUsed == |draws|
    decreases |inputs|, 2
  {
    var bot := FirstEmpty(b, draws);
    if bot.cell.Some? && !HasWin(b[bot.cell.value := O]) {
      OpenGameRanOut(b[bot.cell.value := O], inputs, draws[bot.used..]);
    }
  }

  /**
   * The game is its first round followed, when that round leaves it open, by
   * the game from the board the round left on what the round did not take.
   */
  lemma RoundStep(b: seq<Cell>, inputs: seq<Option<int>>, draws: seq<CellIndex>)
    requires IsBoard(b)
    ensures var r := RoundOf(b, inputs, draws);
      && (r.result.Some? ==> PlayGame(b, inputs, draws) == GameRecord(r.result.value, r.inputsUsed, r.drawsUsed, r.moves))
      && (r.result.None? ==>
            PlayGame(b, inputs, draws) ==
            Resumed(r.inputsUsed, r.drawsUsed, r.moves, PlayGame(Play(b, r.moves), inputs[r.inputsUsed..], draws[r.drawsUsed..])))
  {
    var r := RoundOf(b, inputs, draws);
    var player := FirstAccepted(b, inputs);
    if player.cell.Some? {
      var m := player.cell.value;
      var afterPlayer := b[m := X];
      if !HasWin(afterPlayer) && !IsFull(afterPlayer) {
        var ins := inputs[player.used..];
        var bot := FirstEmpty(afterPlayer, draws);
        if bot.cell.None? {
          assert BotGame(afterPlayer, ins, draws) == GameRecord(InProgress, 0, bot.used, []);
        } else {
          var c := bot.cell.value;
          if HasWin(afterPlayer[c := O]) {
            assert BotGame(afterPlayer, ins, draws) == GameRecord(BotWin, 0, bot.used, [c]);
          } else {
            var rest := PlayGame(afterPlayer[c := O], ins, draws[bot.used..]);
            assert BotGame(afterPlayer, ins, draws) == Resumed(0, bot.used, [c], rest);
            assert Play(b, [m, c]) == afterPlayer[c := O] by {
              assert [m, c][..1] == [m] && [m][..0] == [];
              assert Play(b, [m]) == Play(b, [])[m := Mark(0)];
              assert Play(b, [m, c]) == Play(b, [m])[c := Mark(1)];
            }
            calc {
              PlayGame(b, inputs, draws);
              Resumed(player.used, 0, [m], Resumed(0, bot.used, [c], rest));
              { ResumedTwice(player.used, 0, [m], 0, bot.used, [c], rest); assert [m] + [c] == [m, c]; }
              Resumed(player.used, bot.used, [m, c], rest);
            }
          }
        }
      }
    }
  }

  /** A game `rest` that follows rounds which took `inputsUsed` inputs and `drawsUsed` draws and played `played`. */
  function Resumed(inputsUsed: nat, drawsUsed: nat, played: seq<CellIndex>, rest: GameRecord): (g: GameRecord)
  {
    GameRecord(rest.outcome, inputsUsed + rest.inputsUsed, drawsUsed + rest.drawsUsed, played + rest.moves)
  }

  /** A game after no rounds is the game itself. */
  lemma ResumedNothing(g: GameRecord)
    ensures Resumed(0, 0, [], g) == g
  {
    assert [] + g.moves == g.moves;
  }

  /**
   * Proof helper: resuming twice is resuming once after both sets of rounds;
   * the counts add and the move lists concatenate.
   */
  lemma ResumedTwice(inputsUsed: nat, drawsUsed: nat, played: seq<CellIndex>,
                     inputsUsed': nat, drawsUsed': nat, played': seq<CellIndex>, rest: GameRecord)
    ensures Resumed(inputsUsed, drawsUsed, played, Resumed(inputsUsed', drawsUsed', played', rest)) ==
            Resumed(inputsUsed + inputsUsed', drawsUsed + drawsUsed', played + played', rest)
  {
    assert played + (played' + rest.moves) == played + played' + rest.moves;
  }

  /**
   * The game from `start` is the rounds that took `inputsUsed` inputs and
   * `drawsUsed` draws, played `played` and left `b`, followed by the game
   * from `b` on the inputs and draws they did not take.
   */
  ghost predicate Resumes(start: seq<Cell>, inputs: seq<Option<int>>, draws: seq<CellIndex>,
                          b: seq<Cell>, inputsUsed: nat, drawsUsed: nat, played: seq<CellIndex>)
    requires IsBoard(start) && IsBoard(b) && inputsUsed <= |inputs| && drawsUsed <= |draws|
  {
    PlayGame(start, inputs, draws) ==
    Resumed(inputsUsed, drawsUsed, played, PlayGame(b, inputs[inputsUsed..], draws[drawsUsed..]))
  }

  /**
   * When the game from the board some rounds left is decided at once, the
   * whole game is decided with it: its totals are those rounds' plus the
   * last one's.
   */
  lemma GameEnds(start: seq<Cell>, inputs: seq<Option<int>>, draws: seq<CellIndex>,
                 b: seq<Cell>, inputsUsed: nat, drawsUsed: nat, played: seq<CellIndex>,
                 used: nat, drawn: nat, roundMoves: seq<CellIndex>,
                 outcome: Outcome, inputsUsed': nat, drawsUsed': nat, moves: seq<CellIndex>)
    requires IsBoard(start) && IsBoard(b) && inputsUsed <= |inputs| && drawsUsed <= |draws|
    requires Resumes(start, inputs, draws, b, inputsUsed, drawsUsed, played)
    requires PlayGame(b, inputs[inputsUsed..], draws[drawsUsed..]) == GameRecord(outcome, used, drawn, roundMoves)
    requires inputsUsed' == inputsUsed + used && drawsUsed' == drawsUsed + drawn
    requires moves == played + roundMoves
    ensures PlayGame(start, inputs, draws) == GameRecord(outcome, inputsUsed', drawsUsed', moves)
  {
  }

  /**
   * Rounds that leave the game open keep it in the same form, further on:
   * the game from `b` went on by `used` inputs, `drawn` draws and the moves
   * `roundMoves` to `after`; `inputsUsed'`, `drawsUsed'` and `moves` are the
   * totals since `start`.
   */
  lemma GameGoesOn(start: seq<Cell>, inputs: seq<Option<int>>, draws: seq<CellIndex>,
                   b: seq<Cell>, inputsUsed: nat, drawsUsed: nat, played: seq<CellIndex>,
                   used: nat, drawn: nat, roundMoves: seq<CellIndex>,
                   after: seq<Cell>, inputsUsed': nat, drawsUsed': nat, moves: seq<CellIndex>)
    requires IsBoard(start) && IsBoard(b) && IsBoard(after)
    requires inputsUsed' == inputsUsed + used <= |inputs| && drawsUsed' == drawsUsed + drawn <= |draws|
    requires Resumes(start, inputs, draws, b, inputsUsed, drawsUsed, played)
    requires PlayGame(b, inputs[inputsUsed..], draws[drawsUsed..]) ==
             Resumed(used, drawn, roundMoves, PlayGame(after, inputs[inputsUsed..][used..], draws[drawsUsed..][drawn..]))
    requires moves == played + roundMoves
    ensures Resumes(start, inputs, draws, after, inputsUsed', drawsUsed', moves)
  {
    assert inputs[inputsUsed..][used..] == inputs[inputsUsed'..];
    assert draws[drawsUsed..][drawn..] == draws[drawsUsed'..];
    var rest := PlayGame(after, inputs[inputsUsed'..], draws[drawsUsed'..]);
    ResumedTwice(inputsUsed, drawsUsed, played, used, drawn, roundMoves, rest);
  }

  class Game {
    /** The nine cells; the list is fixed, its cells change. */
    const positions: array<Cell>

    ghost predicate Valid() { positions.Length == 9 }

    /** A fresh game: every cell Empty. */
    constructor ()
      ensures Valid() && fresh(positions)
      ensures forall i :: 0 <= i < 9 ==> positions[i] == Empty
      ensures RoundStart(positions[..])
    {
      positions := new Cell[9](_ => Empty);
      new;
      assert positions[..] == [Empty, Empty, Empty, Empty, Empty, Empty, Empty, Empty, Empty];
      CountBounded(positions[..], X);
      CountBounded(positions[..], O);
    }

    /** checkForWin: scan the table, stop at the first complete line. */
    method CheckForWin() returns (won: bool)
      requires Valid()
      ensures won == HasWin(positions[..])
    {
      var combos := WinCombinations();
      for i := 0 to |combos|
        invariant forall j :: 0 <= j < i ==> !LineComplete(positions[..], combos[j])
      {
        var combo := combos[i];
        if positions[combo[0]] == positions[combo[1]] && positions[combo[2]] == positions[combo[0]]
           && positions[combo[0]] != Empty
        {
          assert LineComplete(positions[..], combo);
          return true;
        }
      }
      return false;
    }

    /**
     * The input validation loop: inputs are taken in order until one is
     * accepted, and "X" is written there. `used` is the number of inputs
     * taken; `move` is None when the inputs ran out first (end of input),
     * and then the board is unchanged. The loop can only end on a free
     * cell, and the caller guarantees there is one.
     */
    method PlayerTurn(inputs: seq<Option<int>>) returns (used: nat, move: Option<CellIndex>)
      requires Valid()
      requires !IsFull(positions[..])
      modifies positions
      ensures used <= |inputs|
      ensures move.None? ==> used == |inputs| && positions[..] == old(positions[..])
      ensures move.Some? ==> used >= 1 && CheckInput(old(positions[..]), inputs[used - 1]) == Accepted(move.value)
      ensures move.Some? ==> old(positions[move.value]) == Empty && positions[..] == old(positions[..])[move.value := X]
      ensures forall k :: 0 <= k < used && (move.None? || k < used - 1) ==>
                !CheckInput(old(positions[..]), inputs[k]).Accepted?
      ensures Turn(used, move) == FirstAccepted(old(positions[..]), inputs)
    {
      ghost var before := positions[..];
      used := 0;
      while used < |inputs|
        invariant used <= |inputs|
        invariant positions[..] == old(positions[..])
        invariant forall k :: 0 <= k < used ==> !CheckInput(old(positions[..]), inputs[k]).Accepted?
      {
        var check := CheckInput(positions[..], inputs[used]);
        used := used + 1;
        if check.Accepted? {
          FirstAcceptedIs(before, inputs, used, Some(check.index));
          positions[check.index] := X;
          return used, Some(check.index);
        }
      }
      move := None;
      FirstAcceptedIs(before, inputs, used, move);
    }

    /**
     * The bot's move: draw indices until one addresses an Empty cell, then
     * write "O" there. `choice` is None only when the supply of draws ran
     * out first, and then the board is unchanged.
     */
    method BotTurn(draws: seq<CellIndex>) returns (used: nat, choice: Option<CellIndex>)
      requires Valid()
      requires !IsFull(positions[..])
      modifies positions
      ensures used <= |draws|
      ensures choice.None? ==> used == |draws| && positions[..] == old(positions[..])
      ensures choice.Some? ==> used >= 1 && choice.value == draws[used - 1]
      ensures choice.Some? ==> old(positions[choice.value]) == Empty && positions[..] == old(positions[..])[choice.value := O]
      ensures forall k :: 0 <= k < used && (choice.None? || k < used - 1) ==> old(positions[draws[k]]) != Empty
      ensures Turn(used, choice) == FirstEmpty(old(positions[..]), draws)
    {
      ghost var before := positions[..];
      var botChoice: Option<CellIndex> := None;
      used := 0;
      while botChoice.None? || positions[botChoice.value] != Empty
        invariant used <= |draws|
        invariant botChoice.Some? <==> used >= 1
        invariant botChoice.Some? ==> botChoice.value == draws[used - 1]
        invariant forall k :: 0 <= k < used - 1 ==> positions[draws[k]] != Empty
        decreases |draws| - used
      {
        if used == |draws| {
          FirstEmptyIs(before, draws, used, None);
          return used, None;
        }
        botChoice := Some(draws[used]);
        used := used + 1;
      }
      FirstEmptyIs(before, draws, used, botChoice);
      positions[botChoice.value] := O;
      choice := botChoice;
    }

    /**
     * The player's half of a round: the validation loop, then the win check
     * and the tie check. `result` is None when the game goes on to the
     * bot's move; Some(InProgress) means the inputs ran out.
     */
    method PlayerHalf(inputs: seq<Option<int>>) returns (result: Option<Outcome>, used: nat, move: Option<CellIndex>)
      requires Valid() && RoundStart(positions[..])
      modifies positions
      ensures used <= |inputs|
      ensures move.None? ==> result == Some(InProgress) && used == |inputs| && positions[..] == old(positions[..])
      ensures move.Some? ==> used >= 1 && CheckInput(old(positions[..]), inputs[used - 1]) == Accepted(move.value)
      ensures move.Some? ==> old(positions[move.value]) == Empty && positions[..] == old(positions[..])[move.value := X]
      ensures forall k :: 0 <= k < used && (move.None? || k < used - 1) ==>
                !CheckInput(old(positions[..]), inputs[k]).Accepted?
      ensures result.None? ==> move.Some? && !HasWin(positions[..]) && !IsFull(positions[..])
      ensures result.Some? ==> result.value == Status(positions[..])
      ensures move.Some? && result.Some? ==> result.value == PlayerWin || result.value == Tie
      ensures result == Some(PlayerWin) ==> move.Some? && AllWinsAre(positions[..], X)
      ensures move.Some? ==> Count(positions[..], X) == Count(positions[..], O) + 1
      ensures Turn(used, move) == FirstAccepted(old(positions[..]), inputs)
      ensures move.Some? ==> (result == Some(PlayerWin) <==> HasWin(positions[..]))
      ensures move.Some? ==> (result == Some(Tie) <==> !HasWin(positions[..]) && IsFull(positions[..]))
    {
      ghost var before := positions[..];
      EqualCountsLeaveAnEmptyCell(before);
      used, move := PlayerTurn(inputs);
      if move.None? {
        StatusOfPlayedBoard(before);
        return Some(InProgress), used, move;
      }
      PlaceCounts(before, move.value, X);
      NewWinBelongsToMover(before, move.value, X);
      StatusOfPlayedBoard(positions[..]);

      var won := CheckForWin();
      if won {
        return Some(PlayerWin), used, move;
      }
      if Empty !in positions[..] {
        return Some(Tie), used, move;
      }
      result := None;
    }

    /**
     * The bot's half of a round: rejection sampling for an Empty cell, then
     * the win check. `result` is None when the game goes on to the next
     * round; Some(InProgress) means the draws ran out.
     */
    method BotHalf(draws: seq<CellIndex>) returns (result: Option<Outcome>, used: nat, choice: Option<CellIndex>)
      requires Valid() && !HasWin(positions[..]) && !IsFull(positions[..])
      requires Count(positions[..], X) == Count(positions[..], O) + 1
      modifies positions
      ensures used <= |draws|
      ensures choice.None? ==> result == Some(InProgress) && used == |draws| && positions[..] == old(positions[..])
      ensures choice.Some? ==> used >= 1 && choice.value == draws[used - 1]
      ensures choice.Some? ==> old(positions[choice.value]) == Empty && positions[..] == old(positions[..])[choice.value := O]
      ensures forall k :: 0 <= k < used && (choice.None? || k < used - 1) ==> old(positions[draws[k]]) != Empty
      ensures result.None? ==> choice.Some? && RoundStart(positions[..])
      ensures result.Some? ==> result.value == Status(positions[..])
      ensures choice.Some? && result.Some? ==> result.value == BotWin
      ensures result == Some(BotWin) ==> choice.Some? && AllWinsAre(positions[..], O)
      ensures choice.Some? ==> Count(positions[..], X) == Count(positions[..], O)
      ensures Turn(used, choice) == FirstEmpty(old(positions[..]), draws)
      ensures choice.Some? ==> (result == Some(BotWin) <==> HasWin(positions[..]))
    {
      ghost var before := positions[..];
      used, choice := BotTurn(draws);
      if choice.None? {
        StatusOfPlayedBoard(before);
        return Some(InProgress), used, choice;
      }
      PlaceCounts(before, choice.value, O);
      NewWinBelongsToMover(before, choice.value, O);
      StatusOfPlayedBoard(positions[..]);

      var won := CheckForWin();
      if won {
        return Some(BotWin), used, choice;
      }
      result := None;
    }

    /**
     * One round of `run`: the player's half, then, unless that decided the
     * game, the bot's half. `roundMoves` are the cells played this round.
     * `result` is None when the round ends with the game still open,
     * otherwise the outcome, which is the status of the board;
     * Some(InProgress) means the inputs or the draws ran out.
     */
    method Round(inputs: seq<Option<int>>, draws: seq<CellIndex>)
      returns (result: Option<Outcome>, inputsUsed: nat, drawsUsed: nat, ghost roundMoves: seq<CellIndex>)
      requires Valid() && RoundStart(positions[..])
      modifies positions
      ensures inputsUsed <= |inputs| && drawsUsed <= |draws| && |roundMoves| <= 2
      ensures positions[..] == Play(old(positions[..]), roundMoves)
      ensures LegalPlay(old(positions[..]), roundMoves)
      ensures KeepsMarks(old(positions[..]), positions[..])
      ensures |roundMoves| == 0 ==> result == Some(InProgress) && inputsUsed == |inputs|
      ensures |roundMoves| >= 1 ==>
                inputsUsed >= 1 && CheckInput(old(positions[..]), inputs[inputsUsed - 1]) == Accepted(roundMoves[0])
      ensures |roundMoves| == 2 ==> drawsUsed >= 1 && roundMoves[1] == draws[drawsUsed - 1]
      ensures forall k :: 0 <= k < inputsUsed && (|roundMoves| == 0 || k < inputsUsed - 1) ==>
                !CheckInput(old(positions[..]), inputs[k]).Accepted?
      ensures |roundMoves| >= 1 ==> forall k :: 0 <= k < drawsUsed && (|roundMoves| == 1 || k < drawsUsed - 1) ==>
                old(positions[..])[roundMoves[0] := X][draws[k]] != Empty
      ensures result == Some(PlayerWin) || result == Some(Tie) || |roundMoves| == 0 ==> drawsUsed == 0
      ensures result.None? ==> |roundMoves| == 2 && RoundStart(positions[..])
      ensures result.Some? ==> result.value == Status(positions[..])
      ensures result == Some(InProgress) ==> inputsUsed == |inputs| || drawsUsed == |draws|
      ensures result == Some(PlayerWin) ==> |roundMoves| == 1 && AllWinsAre(positions[..], X)
      ensures result == Some(BotWin) ==> |roundMoves| == 2 && AllWinsAre(positions[..], O)
      ensures result == Some(Tie) ==> |roundMoves| == 1
      ensures Count(positions[..], X) == Count(positions[..], O) + (if |roundMoves| == 1 then 1 else 0)
      ensures result == Some(InProgress) ==> |roundMoves| == 0 || (|roundMoves| == 1 && drawsUsed == |draws|)
      ensures RoundRecord(result, inputsUsed, drawsUsed, roundMoves) == RoundOf(old(positions[..]), inputs, draws)
    {
      ghost var before := positions[..];
      var move;
      result, inputsUsed, move := PlayerHalf(inputs);
      drawsUsed, roundMoves := 0, [];
      if move.None? {
        return;
      }
      LegalPlayExtends(before, [], move.value);
      PlaceKeepsMarks(before, move.value, X, before);
      roundMoves := [move.value];
      if result.Some? {
        return;
      }

      ghost var afterPlayer := positions[..];
      var choice;
      result, drawsUsed, choice := BotHalf(draws);
      if choice.None? {
        return;
      }
      LegalPlayExtends(before, roundMoves, choice.value);
      PlaceKeepsMarks(afterPlayer, choice.value, O, before);
      roundMoves := roundMoves + [choice.value];
    }

    /**
     * One pass of `run`'s loop: the round that reads the inputs and draws
     * from `inputsUsed` and `drawsUsed` on. `played` are the moves made from
     * `start` before this round and `moves` those and the moves of this
     * round; the facts `Round` states about its own moves hold of the whole
     * game. The round itself, what it read and what it played, is `RoundOf`
     * of the board it starts from. The game so far is the reference game cut
     * after `played`; after this round it is cut one round later, or it is
     * the whole game.
     */
    method NextRound(ghost start: seq<Cell>, ghost played: seq<CellIndex>,
                     inputs: seq<Option<int>>, draws: seq<CellIndex>, inputsUsed: nat, drawsUsed: nat)
      returns (result: Option<Outcome>, inputsUsed': nat, drawsUsed': nat, ghost moves: seq<CellIndex>)
      requires Valid() && RoundStart(positions[..])
      requires IsBoard(start) && |played| % 2 == 0
      requires PlayedFrom(start, played, positions[..])
      requires inputsUsed <= |inputs| && drawsUsed <= |draws|
      requires Resumes(start, inputs, draws, positions[..], inputsUsed, drawsUsed, played)
      modifies positions
      ensures inputsUsed <= inputsUsed' <= |inputs| && drawsUsed <= drawsUsed' <= |draws|
      ensures PlayedFrom(start, moves, positions[..])
      ensures result.None? ==> inputsUsed' > inputsUsed && |moves| % 2 == 0 && RoundStart(positions[..])
      ensures result.Some? ==> GameStopped(positions[..], result.value, |moves|)
      ensures result == Some(InProgress) ==> inputsUsed' == |inputs| || drawsUsed' == |draws|
      ensures result.Some? ==> PlayGame(start, inputs, draws) == GameRecord(result.value, inputsUsed', drawsUsed', moves)
      ensures result.None? ==> Resumes(start, inputs, draws, positions[..], inputsUsed', drawsUsed', moves)
      ensures |played| <= |moves|
      ensures RoundRecord(result, inputsUsed' - inputsUsed, drawsUsed' - drawsUsed, moves[|played|..]) ==
              RoundOf(old(positions[..]), inputs[inputsUsed..], draws[drawsUsed..])
    {
      ghost var before := positions[..];
      ghost var roundMoves;
      var used, drawn;
      result, used, drawn, roundMoves := Round(inputs[inputsUsed..], draws[drawsUsed..]);
      inputsUsed', drawsUsed' := inputsUsed + used, drawsUsed + drawn;
      ghost var after := positions[..];
      moves := played + roundMoves;
      assert after == Play(start, moves) by {
        PlayConcat(start, played, roundMoves);
      }
      assert LegalPlay(start, moves) by {
        LegalPlayConcat(start, played, roundMoves);
      }
      assert KeepsMarks(start, after) by {
        KeepsMarksTransitive(start, before, after);
      }
      assert |moves| % 2 == (if |roundMoves| == 1 then 1 else 0) by {
        WholeRoundsKeepParity(|played|, |roundMoves|, |moves|);
      }
      if result.Some? {
        assert GameStopped(after, result.value, |moves|) by {
          StatusOfPlayedBoard(after);
        }
        assert PlayGame(start, inputs, draws) == GameRecord(result.value, inputsUsed', drawsUsed', moves) by {
          RoundStep(before, inputs[inputsUsed..], draws[drawsUsed..]);
          GameEnds(start, inputs, draws, before, inputsUsed, drawsUsed, played, used, drawn, roundMoves,
                   result.value, inputsUsed', drawsUsed', moves);
        }
      } else {
        assert Resumes(start, inputs, draws, after, inputsUsed', drawsUsed', moves) by {
          RoundStep(before, inputs[inputsUsed..], draws[drawsUsed..]);
          GameGoesOn(start, inputs, draws, before, inputsUsed, drawsUsed, played, used, drawn, roundMoves,
                     after, inputsUsed', drawsUsed', moves);
        }
      }
      assert RoundRecord(result, inputsUsed' - inputsUsed, drawsUsed' - drawsUsed, moves[|played|..]) ==
             RoundRecord(result, used, drawn, roundMoves) by {
        assert moves[|played|..] == roundMoves;
      }
    }

    /**
     * The loop of `run`: rounds until one decides the game. The ghost
     * `moves` is the game played, the player's cells and the bot's
     * alternating; no move follows a win, and the outcome is the status of
     * the final board. InProgress means the inputs or the draws ran out.
     * The outcome, what was read and the moves are those of the reference
     * game PlayGame.
     */
    method Run(inputs: seq<Option<int>>, draws: seq<CellIndex>)
      returns (outcome: Outcome, inputsUsed: nat, drawsUsed: nat, ghost moves: seq<CellIndex>)
      requires Valid() && RoundStart(positions[..])
      modifies positions
      ensures inputsUsed <= |inputs| && drawsUsed <= |draws|
      ensures PlayedFrom(old(positions[..]), moves, positions[..])
      ensures GameStopped(positions[..], outcome, |moves|)
      ensures outcome == InProgress ==> inputsUsed == |inputs| || drawsUsed == |draws|
      ensures PlayGame(old(positions[..]), inputs, draws) == GameRecord(outcome, inputsUsed, drawsUsed, moves)
    {
      ghost var start := positions[..];
      inputsUsed, drawsUsed, moves := 0, 0, [];
      assert inputs[0..] == inputs && draws[0..] == draws;
      ResumedNothing(PlayGame(start, inputs, draws));
      while true
        invariant inputsUsed <= |inputs| && drawsUsed <= |draws|
        invariant RoundStart(positions[..])
        invariant PlayedFrom(start, moves, positions[..])
        invariant |moves| % 2 == 0
        invariant Resumes(start, inputs, draws, positions[..], inputsUsed, drawsUsed, moves)
        decreases |inputs| - inputsUsed
      {
        var result;
        result, inputsUsed, drawsUsed, moves := NextRound(start, moves, inputs, draws, inputsUsed, drawsUsed);
        if result.Some? {
          outcome := result.value;
          return;
        }
      }
    }
  }
}
