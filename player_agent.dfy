/** The learning agent of PlayerAgent.cs, as far as it is logic of its own:
    when the player may act, how a discrete action becomes a move, how the
    keyboard produces such an action, the fixed-width observation vectors,
    and the completion reward.

    The ML-Agents runtime (reward accumulation, EndEpisode, statistics,
    DecisionRequester) and the Player component (its movement and flags)
    are not part of this model: the flags are an input, a move handed to
    Player.AttemptMove is returned, and a reward is returned instead of
    being added. */
module Agent {
  import opened Grid
  import opened Game

  datatype ObservationMode = PlayerToSheepToExit | PlayerRelative

  /** The width of an observation vector, padded with zeros up to it. */
  const TotalObservers: int := 44

  /** The reward for bringing every sheep through the exit. */
  const FinishReward: int := 5

  /** The flags of the Player component that gate the agent. */
  datatype PlayerFlags = PlayerFlags(isMoving: bool, levelFinished: bool, gameOver: bool)

  function Max(a: int, b: int): int
  {
    if a >= b then a else b
  }

  function Sign(n: int): (s: int)
    ensures s == -1 || s == 0 || s == 1
    ensures (s < 0 <==> n < 0) && (s > 0 <==> n > 0)
  {
    if n < 0 then -1 else if n > 0 then 1 else 0
  }

  /** PlayerAgent.CanMove: the player may act unless it is moving, the level
      is finished, the game is over or a level is being set up. */
  function CanMove(p: PlayerFlags, doingSetup: bool): (ok: bool)
    ensures ok <==> !p.isMoving && !p.levelFinished && !p.gameOver && !doingSetup
  {
    !(p.isMoving || p.levelFinished || p.gameOver || doingSetup)
  }

  /** The switch of OnActionReceived: lastAction 1 to 4 is a one-cell move
      left, right, down or up; every other value (0 included) moves nothing. */
  function DecodeAction(lastAction: int): (m: Option<Cell>)
    ensures m.Some? <==> 1 <= lastAction <= 4
    ensures m.Some? ==> IsUnitCardinal(m.value)
  {
    if lastAction == 1 then Some(Cell(-1, 0))
    else if lastAction == 2 then Some(Cell(1, 0))
    else if lastAction == 3 then Some(Cell(0, -1))
    else if lastAction == 4 then Some(Cell(0, 1))
    else None
  }

  /** The four actions are the four directions of the sheep's grid, in the
      order left, right, down, up. */
  lemma DecodeActionDirections()
    ensures DecodeAction(1) == Some(Delta(Left)) && DecodeAction(2) == Some(Delta(Right))
    ensures DecodeAction(3) == Some(Delta(Down)) && DecodeAction(4) == Some(Delta(Up))
  {
  }

  /** The action the keyboard branch of Heuristic emits for the raw axes h
      and v: horizontal input wins over vertical, and no input is -1. Its
      decoding (after OnActionReceived's +1) is the one-cell move the keys
      point to. */
  function KeyboardAction(h: int, v: int): (a: int)
    ensures -1 <= a <= 3
    ensures h == 0 && v == 0 <==> a == -1
    ensures DecodeAction(a + 1) ==
              if h != 0 then Some(Cell(Sign(h), 0))
              else if v != 0 then Some(Cell(0, Sign(v)))
              else None
  {
    if h < 0 then 0
    else if h > 0 then 1
    else if v < 0 then 2
    else if v > 0 then 3
    else -1
  }

  /** Keys that point the way an action moves produce that action again. */
  lemma KeyboardActionInvertsDecode(a: int)
    requires 0 <= a <= 3
    ensures DecodeAction(a + 1).Some?
    ensures KeyboardAction(DecodeAction(a + 1).value.x, DecodeAction(a + 1).value.y) == a
  {
  }

  /** PlayerAgent.HandleFinishlevel: the completion reward unless the level
      is being restarted. */
  function FinishLevelReward(restart: bool): (r: int)
    ensures r >= 0
    ensures r > 0 <==> !restart
    ensures !restart ==> r == FinishReward
  {
    if restart then 0 else FinishReward
  }

  class PlayerAgent {
    var mode: ObservationMode
    var lastAction: int

    constructor ()
      ensures mode == PlayerToSheepToExit && lastAction == 0
    {
      mode := PlayerToSheepToExit;
      lastAction := 0;
    }

    /** OnEpisodeBegin: every episode is a new level. */
    method OnEpisodeBegin(gm: GameManager, boardExit: Cell)
      modifies gm
      ensures gm.level == old(gm.level) + 1
      ensures gm.doingSetup && gm.sheep == [] && gm.score == 0 && gm.endScore == 0
      ensures gm.playerMovesSinceSheepMove == 0 && gm.exit == boardExit
      ensures gm.sheepMoving == old(gm.sheepMoving) && gm.heuristicModeSet == old(gm.heuristicModeSet)
      ensures gm.Valid() && gm.Balanced()
    {
      gm.CreateNewLevel(boardExit);
    }

    /** OnActionReceived: when the player may act, records action + 1 as
        lastAction and returns the move it hands to Player.AttemptMove, if
        any; otherwise it changes nothing and moves nothing. */
    method OnActionReceived(action: int, flags: PlayerFlags, gm: GameManager) returns (move: Option<Cell>)
      modifies this`lastAction
      ensures !CanMove(flags, gm.doingSetup) ==> move == None && lastAction == old(lastAction)
      ensures CanMove(flags, gm.doingSetup) ==> lastAction == action + 1
      ensures CanMove(flags, gm.doingSetup) ==> move == DecodeAction(action + 1)
      ensures move.Some? ==> IsUnitCardinal(move.value)
    {
      if !CanMove(flags, gm.doingSetup) {
        return None;
      }
      lastAction := action + 1;
      move := DecodeAction(lastAction);
    }

    /** Heuristic, keyboard branch: switches the game to its human-playable
        timings, repeats lastAction while the player may not act, and
        otherwise encodes the raw axes h and v. */
    method Heuristic(h: int, v: int, flags: PlayerFlags, gm: GameManager) returns (action: int)
      modifies gm`heuristicModeSet
      ensures gm.heuristicModeSet
      ensures !CanMove(flags, gm.doingSetup) ==> action == lastAction
      ensures CanMove(flags, gm.doingSetup) ==> action == KeyboardAction(h, v)
    {
      gm.HandleHeuristicMode();
      if !CanMove(flags, gm.doingSetup) {
        return lastAction;
      }
      var horizontal := h;
      var vertical := v;
      if horizontal != 0 {
        vertical := 0;
      }
      var out := 0;
      if horizontal == 0 && vertical == 0 {
        out := 0;
      } else if horizontal < 0 {
        out := 1;
      } else if horizontal > 0 {
        out := 2;
      } else if vertical < 0 {
        out := 3;
      } else if vertical > 0 {
        out := 4;
      }
      action := out - 1;
    }

    /** CollectObservationsPlayerSheepExit for sheep at sheepPos (roster
        order): per sheep the sheep-minus-player and sheep-minus-exit
        vectors, then zeros up to the fixed width; a longer roster is not
        cut off. */
    method CollectObservationsPlayerSheepExit(sheepPos: seq<Cell>, player: Cell, exit: Cell) returns (obs: seq<int>)
      ensures |obs| == Max(TotalObservers, 4 * |sheepPos|)
      ensures |sheepPos| <= 11 ==> |obs| == TotalObservers
      ensures forall i :: 0 <= i < |sheepPos| ==>
                obs[4 * i] == sheepPos[i].x - player.x && obs[4 * i + 1] == sheepPos[i].y - player.y &&
                obs[4 * i + 2] == sheepPos[i].x - exit.x && obs[4 * i + 3] == sheepPos[i].y - exit.y
      ensures forall k :: 4 * |sheepPos| <= k < |obs| ==> obs[k] == 0
    {
      obs := [];
      var count := 0;
      var i := 0;
      while i < |sheepPos|
        invariant 0 <= i <= |sheepPos|
        invariant count == 4 * i && |obs| == count
        invariant forall j :: 0 <= j < i ==>
                    obs[4 * j] == sheepPos[j].x - player.x && obs[4 * j + 1] == sheepPos[j].y - player.y &&
                    obs[4 * j + 2] == sheepPos[j].x - exit.x && obs[4 * j + 3] == sheepPos[j].y - exit.y
      {
        var s := sheepPos[i];
        obs := obs + [s.x - player.x, s.y - player.y];
        obs := obs + [s.x - exit.x, s.y - exit.y];
        count := count + 4;
        i := i + 1;
      }
      obs := PadWithZeros(obs, count);
    }

    /** CollectObservationsPlayerRelative for sheep at sheepPos (roster
        order): the exit's own position, then per sheep the
        sheep-minus-player vector, then zeros up to the fixed width. */
    method CollectObservationsPlayerRelative(sheepPos: seq<Cell>, player: Cell, exit: Cell) returns (obs: seq<int>)
      ensures |obs| == Max(TotalObservers, 2 + 2 * |sheepPos|)
      ensures |sheepPos| <= 21 ==> |obs| == TotalObservers
      ensures obs[0] == exit.x && obs[1] == exit.y
      ensures forall i :: 0 <= i < |sheepPos| ==>
                obs[2 + 2 * i] == sheepPos[i].x - player.x && obs[3 + 2 * i] == sheepPos[i].y - player.y
      ensures forall k :: 2 + 2 * |sheepPos| <= k < |obs| ==> obs[k] == 0
    {
      obs := [exit.x, exit.y];
      var count := 2;
      var i := 0;
      while i < |sheepPos|
        invariant 0 <= i <= |sheepPos|
        invariant count == 2 + 2 * i && |obs| == count
        invariant obs[0] == exit.x && obs[1] == exit.y
        invariant forall j :: 0 <= j < i ==>
                    obs[2 + 2 * j] == sheepPos[j].x - player.x && obs[3 + 2 * j] == sheepPos[j].y - player.y
      {
        var s := sheepPos[i];
        obs := obs + [s.x - player.x, s.y - player.y];
        count := count + 2;
        i := i + 1;
      }
      obs := PadWithZeros(obs, count);
    }

    /** The padding loop shared by both layouts: TotalObservers - count zeros,
        none when the vector is already at least that long. */
    method PadWithZeros(prefix: seq<int>, count: int) returns (obs: seq<int>)
      requires count == |prefix|
      ensures |obs| == Max(TotalObservers, count)
      ensures obs[..count] == prefix
      ensures forall k :: count <= k < |obs| ==> obs[k] == 0
    {
      obs := prefix;
      var i := 0;
      while i < TotalObservers - count
        invariant 0 <= i && |obs| == count + i
        invariant i <= Max(0, TotalObservers - count)
        invariant obs[..count] == prefix
        invariant forall k :: count <= k < |obs| ==> obs[k] == 0
      {
        obs := obs + [0];
        i := i + 1;
      }
    }

    /** CollectObservations: the layout selected by mode. */
    method CollectObservations(sheepPos: seq<Cell>, player: Cell, exit: Cell) returns (obs: seq<int>)
      ensures |sheepPos| <= 11 ==> |obs| == TotalObservers
      ensures mode == PlayerToSheepToExit ==> |obs| == Max(TotalObservers, 4 * |sheepPos|)
      ensures mode == PlayerToSheepToExit ==> forall i :: 0 <= i < |sheepPos| ==>
                obs[4 * i] == sheepPos[i].x - player.x && obs[4 * i + 1] == sheepPos[i].y - player.y &&
                obs[4 * i + 2] == sheepPos[i].x - exit.x && obs[4 * i + 3] == sheepPos[i].y - exit.y
      ensures mode == PlayerToSheepToExit ==> forall k :: 4 * |sheepPos| <= k < |obs| ==> obs[k] == 0
      ensures mode == PlayerRelative ==> |obs| == Max(TotalObservers, 2 + 2 * |sheepPos|)
      ensures mode == PlayerRelative ==> obs[..2] == [exit.x, exit.y]
      ensures mode == PlayerRelative ==> forall i :: 0 <= i < |sheepPos| ==>
                obs[2 + 2 * i] == sheepPos[i].x - player.x && obs[3 + 2 * i] == sheepPos[i].y - player.y
      ensures mode == PlayerRelative ==> forall k :: 2 + 2 * |sheepPos| <= k < |obs| ==> obs[k] == 0
    {
      match mode
      case PlayerToSheepToExit =>
        obs := CollectObservationsPlayerSheepExit(sheepPos, player, exit);
      case PlayerRelative =>
        obs := CollectObservationsPlayerRelative(sheepPos, player, exit);
    }
  }
}
