/** The level bookkeeping of GameManager.cs: the level counter, the roster of
    sheep, score against endScore, the setup flag and the gate that starts
    the sheep phase; and the exit event of Sheep.cs, which ties a sheep to it.

    Presentation (level text and image, GameOver text, test statistics),
    the board provider (SetupScene, which spawns the sheep of a level, and
    Exit, which is given here as a cell) and the float timing settings are
    not part of this model. */
module Game {
  import opened Grid
  import opened SheepBehaviour

  /** GameManager.playerMovesPerSheepMove */
  const PlayerMovesPerSheepMove: int := 0

  /** The index of the first occurrence of x in xs, or |xs| when x is absent. */
  function IndexOf<T(==)>(xs: seq<T>, x: T): (i: nat)
    ensures i <= |xs|
    ensures i < |xs| <==> x in xs
    ensures i < |xs| ==> xs[i] == x
    ensures forall j :: 0 <= j < i ==> xs[j] != x
    decreases |xs|
  {
    if xs == [] then 0
    else if xs[0] == x then 0
    else 1 + IndexOf(xs[1..], x)
  }

  /** List.Remove: drops the first occurrence of x; no change when x is absent. */
  function RemoveFirst<T(==)>(xs: seq<T>, x: T): (r: seq<T>)
    ensures x !in xs ==> r == xs
    ensures x in xs ==> r == xs[..IndexOf(xs, x)] + xs[IndexOf(xs, x) + 1..]
    ensures x in xs ==> |r| == |xs| - 1
    decreases |xs|
  {
    if xs == [] then []
    else if xs[0] == x then xs[1..]
    else
      var rest := RemoveFirst(xs[1..], x);
      assert xs == [xs[0]] + xs[1..];
      assert x in xs ==> x in xs[1..];
      [xs[0]] + rest
  }

  /** Removing x takes exactly one copy of x out of the roster and keeps the others. */
  lemma {:induction false} RemoveFirstMultiset<T>(xs: seq<T>, x: T)
    requires x in xs
    ensures multiset(RemoveFirst(xs, x)) == multiset(xs) - multiset{x}
    decreases |xs|
  {
    assert xs == [xs[0]] + xs[1..];
    if xs[0] != x {
      RemoveFirstMultiset(xs[1..], x);
      assert RemoveFirst(xs, x) == [xs[0]] + RemoveFirst(xs[1..], x);
    }
  }

  /** Removing a sheep just registered, and registered only once, restores
      the roster it was added to. */
  lemma {:induction false} RemoveFirstUndoesAppend<T>(xs: seq<T>, x: T)
    requires x !in xs
    ensures RemoveFirst(xs + [x], x) == xs
    decreases |xs|
  {
    if xs == [] {
      assert [] + [x] == [x];
    } else {
      assert (xs + [x])[0] == xs[0];
      assert (xs + [x])[1..] == xs[1..] + [x];
      RemoveFirstUndoesAppend(xs[1..], x);
      assert xs == [xs[0]] + xs[1..];
    }
  }

  predicate Distinct<T(==)>(xs: seq<T>)
  {
    forall i, j :: 0 <= i < j < |xs| ==> xs[i] != xs[j]
  }

  /** Removal keeps a roster free of duplicates, and leaves no copy of x behind in it. */
  lemma RemoveFirstDistinct<T>(xs: seq<T>, x: T)
    requires Distinct(xs)
    ensures Distinct(RemoveFirst(xs, x))
    ensures x !in RemoveFirst(xs, x)
  {
  }

  /** Update returns early when this is false; otherwise it starts the sheep phase. */
  function SheepPhaseGate(movesSince: int, sheepMoving: bool, doingSetup: bool): (start: bool)
    ensures movesSince >= PlayerMovesPerSheepMove ==> (start <==> !sheepMoving && !doingSetup)
  {
    !(movesSince < PlayerMovesPerSheepMove || sheepMoving || doingSetup)
  }

  /** Sheep s has made exactly one Sheep.MoveSheep step since the old
      state: its state is that step's effect, its active flag is kept, its
      record of AttemptMove calls and base moves grew by that step's
      directions, and a record agreeing with the cadence still agrees. */
  twostate predicate MovedOnce(s: Sheep, player: Cell, free: Cell -> bool, exit: Cell)
    reads s
  {
    && s.State() == MoveSheepEffect(old(s.State()), player, free, exit)
    && s.active == old(s.active)
    && s.attempts == old(s.attempts) + MoveSheepAttempts(old(s.pos), player, free)
    && s.baseMoves == old(s.baseMoves) + MoveSheepBaseMoves(old(s.State()), player, free)
    && (old(s.Cadence()) ==> s.Cadence())
  }

  /** The level manager. Only one instance exists in the game; here it is
      passed explicitly to whoever uses it. */
  class GameManager {
    var level: int
    /** The roster: every sheep registered and not yet through the exit. */
    var sheep: seq<Sheep>
    var sheepMoving: bool
    var doingSetup: bool
    var exit: Cell
    var score: int
    var endScore: int
    var playerMovesSinceSheepMove: int
    var heuristicModeSet: bool

    /** The move counter is only ever assigned 0. */
    ghost predicate Valid()
      reads this
    {
      playerMovesSinceSheepMove == 0
    }

    /** Each registered sheep is either still on the roster or already scored. */
    ghost predicate Balanced()
      reads this
    {
      score + |sheep| == endScore
    }

    /** Awake: field defaults, a new roster, then InitGame for level 1. */
    constructor (boardExit: Cell)
      ensures Valid() && Balanced()
      ensures level == 1 && sheep == [] && score == 0 && endScore == 0
      ensures doingSetup && !sheepMoving && !heuristicModeSet && exit == boardExit
    {
      level, sheep, sheepMoving, doingSetup := 1, [], false, true;
      exit, score, endScore := boardExit, 0, 0;
      playerMovesSinceSheepMove, heuristicModeSet := 0, false;
      new;
      InitGame(boardExit);
    }

    /** InitGame: blocks the player during setup, empties the roster and
        zeroes the score, the target score and the move counter. The board
        provider then places the level, whose sheep register themselves
        later through AddSheepToList. */
    method InitGame(boardExit: Cell)
      modifies this
      ensures doingSetup && sheep == [] && score == 0 && endScore == 0
      ensures playerMovesSinceSheepMove == 0 && exit == boardExit
      ensures level == old(level) && sheepMoving == old(sheepMoving)
      ensures heuristicModeSet == old(heuristicModeSet)
      ensures Valid() && Balanced()
    {
      doingSetup := true;
      sheep := [];
      score := 0;
      endScore := 0;
      exit := boardExit;
      playerMovesSinceSheepMove := 0;
    }

    /** CreateNewLevel: the next level, then the InitGame reset. */
    method CreateNewLevel(boardExit: Cell)
      modifies this
      ensures level == old(level) + 1
      ensures doingSetup && sheep == [] && score == 0 && endScore == 0
      ensures playerMovesSinceSheepMove == 0 && exit == boardExit
      ensures sheepMoving == old(sheepMoving) && heuristicModeSet == old(heuristicModeSet)
      ensures Valid() && Balanced()
    {
      level := level + 1;
      InitGame(boardExit);
    }

    /** HandleHeuristicMode: switches to the slower human-playable timings
        once; every later call changes nothing. */
    method HandleHeuristicMode()
      modifies this`heuristicModeSet
      ensures heuristicModeSet
      ensures old(heuristicModeSet) ==> unchanged(this)
    {
      if !heuristicModeSet {
        heuristicModeSet := true;
      }
    }

    /** HideLevelImage: ends the setup phase. */
    method HideLevelImage()
      modifies this`doingSetup, this`playerMovesSinceSheepMove
      ensures !doingSetup && playerMovesSinceSheepMove == 0
    {
      doingSetup := false;
      playerMovesSinceSheepMove := 0;
    }

    /** AddSheepToList: appends to the roster and raises the target score. */
    method AddSheepToList(s: Sheep)
      modifies this`sheep, this`endScore
      ensures sheep == old(sheep) + [s] && endScore == old(endScore) + 1
      ensures old(Balanced()) ==> Balanced()
    {
      sheep := sheep + [s];
      endScore := endScore + 1;
    }

    /** RemoveSheepFromList: drops the first occurrence of s, if any. */
    method RemoveSheepFromList(s: Sheep)
      modifies this`sheep
      ensures sheep == RemoveFirst(old(sheep), s)
      ensures Distinct(old(sheep)) ==> Distinct(sheep) && s !in sheep
    {
      if Distinct(sheep) {
        RemoveFirstDistinct(sheep, s);
      }
      sheep := RemoveFirst(sheep, s);
    }

    /** CheckIfGameOver: one more sheep scored; the level is complete (the
        player is told so) once the score reaches the target. */
    method CheckIfGameOver() returns (levelComplete: bool)
      modifies this`score
      ensures score == old(score) + 1
      ensures levelComplete <==> score >= endScore
    {
      score := score + 1;
      levelComplete := score >= endScore;
    }

    /** The MoveSheep coroutine, run without its delays: every sheep on the
        roster, in roster order, flees the player once; sheepMoving is set
        for the duration. */
    method MoveSheep(player: Cell, free: Cell -> bool)
      modifies this`sheepMoving, sheep
      ensures !sheepMoving
      ensures Distinct(sheep) ==> forall i :: 0 <= i < |sheep| ==> MovedOnce(sheep[i], player, free, exit)
    {
      sheepMoving := true;
      ghost var distinct := Distinct(sheep);
      var i := 0;
      while i < |sheep|
        invariant 0 <= i <= |sheep|
        invariant distinct ==> forall j :: 0 <= j < i ==> MovedOnce(sheep[j], player, free, exit)
        invariant distinct ==> forall j :: i <= j < |sheep| ==> unchanged(sheep[j])
      {
        var mover := sheep[i];
        assert distinct ==> forall j :: 0 <= j < |sheep| && j != i ==> sheep[j] != mover;
        mover.MoveSheep(player, free, exit);
        i := i + 1;
      }
      sheepMoving := false;
    }

    /** Update: starts the sheep phase exactly when no sheep phase is running
        and the level is not being set up. */
    method Update(player: Cell, free: Cell -> bool) returns (started: bool)
      requires Valid()
      modifies this`sheepMoving, this`playerMovesSinceSheepMove, sheep
      ensures Valid()
      ensures started <==> !old(sheepMoving) && !old(doingSetup)
      ensures !started ==> sheepMoving == old(sheepMoving)
      ensures !started ==> forall s :: s in sheep ==> unchanged(s)
      ensures started ==> !sheepMoving
      ensures started && Distinct(sheep) ==> forall i :: 0 <= i < |sheep| ==> MovedOnce(sheep[i], player, free, exit)
    {
      if !SheepPhaseGate(playerMovesSinceSheepMove, sheepMoving, doingSetup) {
        started := false;
        return;
      }
      started := true;
      playerMovesSinceSheepMove := 0;
      MoveSheep(player, free);
    }
  }

  /** Sheep.Start: a sheep spawned at start registers itself with the
      manager. A new sheep is never already on the roster, so a roster
      without duplicates keeps none. */
  method SheepStart(gm: GameManager, start: Cell) returns (s: Sheep)
    modifies gm`sheep, gm`endScore
    ensures fresh(s) && s.pos == start && !s.skipMove && s.active
    ensures s.distToExit == 0 && s.attempts == [] && s.baseMoves == [] && s.Cadence()
    ensures gm.sheep == old(gm.sheep) + [s] && gm.endScore == old(gm.endScore) + 1
    ensures Distinct(old(gm.sheep)) ==> Distinct(gm.sheep)
    ensures old(gm.Balanced()) ==> gm.Balanced()
  {
    s := new Sheep(start);
    gm.AddSheepToList(s);
  }

  /** Sheep.OnTriggerEnter2D: a sheep touching the exit is deactivated,
      taken off the roster and scored. When it was on the roster the
      bookkeeping stays balanced, and the level is complete exactly when the
      roster is now empty. */
  method SheepOnTriggerEnter2D(gm: GameManager, s: Sheep, touchesExit: bool) returns (levelComplete: bool)
    modifies gm`sheep, gm`score, s`active
    ensures !touchesExit ==> !levelComplete && unchanged(gm) && unchanged(s)
    ensures touchesExit ==> !s.active && gm.sheep == RemoveFirst(old(gm.sheep), s)
    ensures touchesExit ==> gm.score == old(gm.score) + 1 && (levelComplete <==> gm.score >= gm.endScore)
    ensures touchesExit && s in old(gm.sheep) && old(gm.Balanced()) ==>
              gm.Balanced() && (levelComplete <==> gm.sheep == [])
    ensures touchesExit && Distinct(old(gm.sheep)) ==> Distinct(gm.sheep) && s !in gm.sheep
  {
    levelComplete := false;
    if touchesExit {
      s.active := false;
      gm.RemoveSheepFromList(s);
      levelComplete := gm.CheckIfGameOver();
    }
  }
}
