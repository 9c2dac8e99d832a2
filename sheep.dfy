/** The sheep of Sheep.cs: which way a sheep flees from the player, and the
    skip-move cadence that lets it act only on every second move command.

    MovingObject, the engine base class, is not part of this model. Its
    raycast test CanMove is a predicate `free` over cells (a direction can be
    taken when the cell one step away is free) and its AttemptMove moves the
    sheep one cell when that cell is free and leaves it in place otherwise. */
module SheepBehaviour {
  import opened Grid

  /** MoveSheep gives up when Vector3.Distance(sheep, player) > 3; on integer
      cells that is a squared distance above 9. */
  const FleeRadiusSq: nat := 9

  /** The array the directions are sorted in, in declaration order. */
  const AllDirs: seq<Dir> := [Up, Down, Left, Right]

  /** The comparator's key: squared distance from the candidate cell to the player. */
  function Key(pos: Cell, player: Cell, d: Dir): nat
  {
    SqDist(Step(pos, d), player)
  }

  /** MovingObject.CanMove(d.x, d.y) for a sheep standing at pos. */
  predicate CanMove(pos: Cell, free: Cell -> bool, d: Dir)
  {
    free(Step(pos, d))
  }

  predicate NonIncreasing(s: seq<Dir>, key: Dir -> int)
  {
    forall i, j :: 0 <= i < j < |s| ==> key(s[i]) >= key(s[j])
  }

  /** One insertion step of the sort: t goes in front of the first element
      with a strictly smaller key, so ties keep their input order. */
  function Insert(t: Dir, s: seq<Dir>, key: Dir -> int): (r: seq<Dir>)
    ensures |r| == |s| + 1
    ensures forall x :: x in r <==> x == t || x in s
    ensures NonIncreasing(s, key) ==> NonIncreasing(r, key)
  {
    if s == [] then [t]
    else if key(t) > key(s[0]) then [t] + s
    else
      var rest := Insert(t, s[1..], key);
      assert s == [s[0]] + s[1..];
      assert forall x :: x in s <==> x == s[0] || x in s[1..];
      assert NonIncreasing(s, key) ==> forall j :: 0 <= j < |rest| ==> key(s[0]) >= key(rest[j]) by {
        if NonIncreasing(s, key) {
          forall j | 0 <= j < |rest| ensures key(s[0]) >= key(rest[j]) {
            assert rest[j] in rest;
            if rest[j] != t {
              var m :| 0 <= m < |s[1..]| && s[1..][m] == rest[j];
              assert s[1..][m] == s[m + 1];
            }
          }
        }
      }
      [s[0]] + rest
  }

  /** Array.Sort on the four directions with a farthest-first comparator.
      The model sorts by a stable insertion sort; Array.Sort's order among
      ties is not claimed. */
  function InsertionSort(s: seq<Dir>, key: Dir -> int): (r: seq<Dir>)
    ensures |r| == |s|
    ensures forall x :: x in r <==> x in s
    ensures NonIncreasing(r, key)
  {
    if s == [] then []
    else
      assert s == s[..|s| - 1] + [s[|s| - 1]];
      assert forall x :: x in s <==> x == s[|s| - 1] || x in s[..|s| - 1];
      Insert(s[|s| - 1], InsertionSort(s[..|s| - 1], key), key)
  }

  /** Insertion adds exactly one copy of t and keeps every other element
      with its multiplicity. */
  lemma {:induction false} InsertPermutes(t: Dir, s: seq<Dir>, key: Dir -> int)
    ensures multiset(Insert(t, s, key)) == multiset(s) + multiset{t}
    decreases |s|
  {
    if s != [] && key(t) <= key(s[0]) {
      InsertPermutes(t, s[1..], key);
      assert s == [s[0]] + s[1..];
    }
  }

  /** The sort is a permutation of its input: the same elements, each as
      often as before. */
  lemma {:induction false} InsertionSortPermutes(s: seq<Dir>, key: Dir -> int)
    ensures multiset(InsertionSort(s, key)) == multiset(s)
    decreases |s|
  {
    if s != [] {
      InsertionSortPermutes(s[..|s| - 1], key);
      InsertPermutes(s[|s| - 1], InsertionSort(s[..|s| - 1], key), key);
      assert s == s[..|s| - 1] + [s[|s| - 1]];
    }
  }

  /** The direction array of MoveSheep after sorting: a permutation of the
      four directions (four entries, each direction present), farthest from
      the player first. */
  function SortDirections(pos: Cell, player: Cell): (r: seq<Dir>)
    ensures |r| == 4
    ensures forall d: Dir :: d in r
    ensures forall i, j :: 0 <= i < j < |r| ==> Key(pos, player, r[i]) >= Key(pos, player, r[j])
  {
    assert AllDirs[0] == Up && AllDirs[1] == Down && AllDirs[2] == Left && AllDirs[3] == Right;
    InsertionSort(AllDirs, d => Key(pos, player, d))
  }

  /** Index of the first direction of ds the sheep can take (|ds| if none):
      the foreach loop of MoveSheep that breaks at the first match. */
  function FirstMovable(ds: seq<Dir>, pos: Cell, free: Cell -> bool): (i: nat)
    ensures i <= |ds|
    ensures i < |ds| ==> CanMove(pos, free, ds[i])
    ensures forall j :: 0 <= j < i ==> !CanMove(pos, free, ds[j])
    decreases |ds|
  {
    if ds == [] then 0
    else if CanMove(pos, free, ds[0]) then 0
    else 1 + FirstMovable(ds[1..], pos, free)
  }

  /** The direction MoveSheep hands to AttemptMove, or None when it hands
      over nothing (player out of range, or every direction blocked). */
  function ChooseDirection(pos: Cell, player: Cell, free: Cell -> bool): (r: Option<Dir>)
    ensures SqDist(pos, player) > FleeRadiusSq ==> r == None
    ensures r.Some? ==> CanMove(pos, free, r.value)
  {
    if SqDist(pos, player) > FleeRadiusSq then None
    else
      var ds := SortDirections(pos, player);
      var i := FirstMovable(ds, pos, free);
      if i < |ds| then Some(ds[i]) else None
  }

  /** Nothing is chosen exactly when the player is out of range or no
      direction can be taken. */
  lemma ChooseDirectionNone(pos: Cell, player: Cell, free: Cell -> bool)
    ensures ChooseDirection(pos, player, free) == None <==>
            SqDist(pos, player) > FleeRadiusSq || forall d: Dir :: !CanMove(pos, free, d)
  {
    if SqDist(pos, player) <= FleeRadiusSq {
      var ds := SortDirections(pos, player);
      var i := FirstMovable(ds, pos, free);
      if i == |ds| {
        forall d: Dir ensures !CanMove(pos, free, d) {
          assert d in ds;
          var k :| 0 <= k < |ds| && ds[k] == d;
        }
      }
    }
  }

  /** Greedy maximality: the chosen direction leads at least as far from
      the player as every other direction the sheep can take. */
  lemma ChooseDirectionFarthest(pos: Cell, player: Cell, free: Cell -> bool, d: Dir)
    requires ChooseDirection(pos, player, free).Some?
    requires CanMove(pos, free, d)
    ensures Key(pos, player, d) <= Key(pos, player, ChooseDirection(pos, player, free).value)
  {
    var ds := SortDirections(pos, player);
    var i := FirstMovable(ds, pos, free);
    assert d in ds;
    var k :| 0 <= k < |ds| && ds[k] == d;
    assert k == i || Key(pos, player, ds[i]) >= Key(pos, player, ds[k]);
  }

  /** A direction that the sheep can take and that leads strictly farther
      from the player than every other direction is the one chosen. */
  lemma ChooseDirectionStrictFarthest(pos: Cell, player: Cell, free: Cell -> bool, d: Dir)
    requires SqDist(pos, player) <= FleeRadiusSq
    requires CanMove(pos, free, d)
    requires forall e: Dir :: e != d ==> Key(pos, player, e) < Key(pos, player, d)
    ensures ChooseDirection(pos, player, free) == Some(d)
  {
    ChooseDirectionNone(pos, player, free);
    ChooseDirectionFarthest(pos, player, free, d);
  }

  /** A sheep at (5,5) with the player just below it at (5,4) flees up
      whenever the cell above is free. */
  lemma FleesUpFromPlayerBelow(free: Cell -> bool)
    requires free(Cell(5, 6))
    ensures ChooseDirection(Cell(5, 5), Cell(5, 4), free) == Some(Up)
  {
    assert Key(Cell(5, 5), Cell(5, 4), Up) == 4;
    assert Key(Cell(5, 5), Cell(5, 4), Down) == 0;
    assert Key(Cell(5, 5), Cell(5, 4), Left) == 2;
    assert Key(Cell(5, 5), Cell(5, 4), Right) == 2;
    ChooseDirectionStrictFarthest(Cell(5, 5), Cell(5, 4), free, Up);
  }

  /** The fields of a sheep that its move routines change. */
  datatype SheepState = SheepState(pos: Cell, skipMove: bool, distToExit: nat)

  /** MovingObject.AttemptMove: one step when the target cell is free. */
  function BaseMove(pos: Cell, d: Dir, free: Cell -> bool): Cell
  {
    if CanMove(pos, free, d) then Step(pos, d) else pos
  }

  /** The new state after one Sheep.AttemptMove call. */
  function AttemptMoveEffect(s: SheepState, d: Dir, free: Cell -> bool, exit: Cell): (t: SheepState)
    ensures t.skipMove == !s.skipMove
  {
    if s.skipMove then s.(skipMove := false)
    else
      var p := BaseMove(s.pos, d, free);
      SheepState(p, true, SqDist(p, exit))
  }

  /** The new state after one Sheep.MoveSheep call. */
  function MoveSheepEffect(s: SheepState, player: Cell, free: Cell -> bool, exit: Cell): SheepState
  {
    match ChooseDirection(s.pos, player, free)
    case None => s
    case Some(d) => AttemptMoveEffect(s, d, free, exit)
  }

  /** The directions one Sheep.MoveSheep call hands to AttemptMove: the
      chosen one, if any. */
  function MoveSheepAttempts(pos: Cell, player: Cell, free: Cell -> bool): (r: seq<Dir>)
    ensures |r| <= 1
    ensures r == [] <==> ChooseDirection(pos, player, free).None?
  {
    match ChooseDirection(pos, player, free)
    case None => []
    case Some(d) => [d]
  }

  /** The directions one Sheep.MoveSheep call hands on to the base move:
      the chosen one, when skipMove is clear. */
  function MoveSheepBaseMoves(s: SheepState, player: Cell, free: Cell -> bool): (r: seq<Dir>)
    ensures r != [] ==> !s.skipMove && r == MoveSheepAttempts(s.pos, player, free)
    ensures !s.skipMove ==> r == MoveSheepAttempts(s.pos, player, free)
  {
    if s.skipMove then [] else MoveSheepAttempts(s.pos, player, free)
  }

  /** Out of range or boxed in, a sheep's MoveSheep leaves its whole state
      (position, skipMove, distToExit) unchanged. */
  lemma MoveSheepIdle(s: SheepState, player: Cell, free: Cell -> bool, exit: Cell)
    requires SqDist(s.pos, player) > FleeRadiusSq || forall d: Dir :: !CanMove(s.pos, free, d)
    ensures MoveSheepEffect(s, player, free, exit) == s
  {
    ChooseDirectionNone(s.pos, player, free);
  }

  /** Successive AttemptMove calls with the directions ds, starting from
      skipMove = skip: the final skipMove and the directions handed on to
      the base move, in order. */
  function RunCadence(skip: bool, ds: seq<Dir>): (bool, seq<Dir>)
    decreases |ds|
  {
    if ds == [] then (skip, [])
    else
      var rest := RunCadence(!skip, ds[1..]);
      (rest.0, (if skip then [] else [ds[0]]) + rest.1)
  }

  /** One more AttemptMove call extends a run as AttemptMove's contract
      says: skipMove flips, and the direction reaches the base move exactly
      when skipMove was clear. */
  lemma {:induction false} RunCadenceOneMore(skip: bool, ds: seq<Dir>, d: Dir)
    ensures RunCadence(skip, ds + [d]).0 == !RunCadence(skip, ds).0
    ensures RunCadence(skip, ds + [d]).1 ==
            RunCadence(skip, ds).1 + (if RunCadence(skip, ds).0 then [] else [d])
    decreases |ds|
  {
    if ds == [] {
      assert [] + [d] == [d];
      assert [d][1..] == [];
    } else {
      assert (ds + [d])[0] == ds[0];
      assert (ds + [d])[1..] == ds[1..] + [d];
      RunCadenceOneMore(!skip, ds[1..], d);
      var head: seq<Dir> := if skip then [] else [ds[0]];
      var tail := RunCadence(!skip, ds[1..]);
      assert head + (tail.1 + (if tail.0 then [] else [d])) == (head + tail.1) + (if tail.0 then [] else [d]);
    }
  }

  /** Half-rate cadence: from skipMove = false, N successive AttemptMove
      calls reach the base move ceil(N/2) times, on calls 1, 3, 5, ...,
      and leave skipMove set exactly when N is odd. */
  lemma {:induction false} CadenceHalfRate(ds: seq<Dir>)
    ensures |RunCadence(false, ds).1| == (|ds| + 1) / 2
    ensures forall k :: 0 <= k < |RunCadence(false, ds).1| ==> RunCadence(false, ds).1[k] == ds[2 * k]
    ensures RunCadence(false, ds).0 == (|ds| % 2 == 1)
    decreases |ds|
  {
    if |ds| == 1 {
      assert ds[1..] == [];
      assert [ds[0]] + [] == [ds[0]];
    } else if |ds| >= 2 {
      CadenceHalfRate(ds[2..]);
      var r2 := RunCadence(false, ds[2..]);
      assert ds[1..][1..] == ds[2..];
      assert RunCadence(true, ds[1..]) == (r2.0, [] + r2.1);
      assert [] + r2.1 == r2.1;
      var moved := [ds[0]] + r2.1;
      assert RunCadence(false, ds) == (r2.0, moved);
      forall k | 0 <= k < |moved| ensures moved[k] == ds[2 * k] {
        if k > 0 {
          assert moved[k] == r2.1[k - 1];
          assert r2.1[k - 1] == ds[2..][2 * (k - 1)];
          assert ds[2..][2 * (k - 1)] == ds[2 * k];
        }
      }
    }
  }

  /** A sheep: a MovingObject with the skip-move cadence. The ghost fields
      record the calls it makes, for stating how often it moves. */
  class Sheep {
    var pos: Cell
    var skipMove: bool
    var distToExit: nat
    /** gameObject.activeSelf */
    var active: bool
    /** Directions handed to this sheep's AttemptMove, in order. */
    ghost var attempts: seq<Dir>
    /** Directions handed on to the base MovingObject.AttemptMove, in order. */
    ghost var baseMoves: seq<Dir>

    /** The recorded calls agree with the cadence: replaying every
        AttemptMove call so far from a fresh sheep gives the current
        skipMove and exactly the base moves made. */
    ghost predicate Cadence()
      reads this
    {
      RunCadence(false, attempts) == (skipMove, baseMoves)
    }

    constructor (start: Cell)
      ensures pos == start && !skipMove && distToExit == 0 && active
      ensures attempts == [] && baseMoves == []
      ensures Cadence()
    {
      pos, skipMove, distToExit, active := start, false, 0, true;
      attempts, baseMoves := [], [];
    }

    function State(): SheepState
      reads this
    {
      SheepState(pos, skipMove, distToExit)
    }

    /** Sheep.AttemptMove: with skipMove set it only clears skipMove; otherwise
        it makes exactly one base move, sets skipMove and records the new
        (squared) distance to the exit. */
    method AttemptMove(d: Dir, free: Cell -> bool, exit: Cell)
      modifies this
      ensures old(skipMove) ==>
        !skipMove && pos == old(pos) && distToExit == old(distToExit) && baseMoves == old(baseMoves)
      ensures !old(skipMove) ==>
        skipMove && pos == BaseMove(old(pos), d, free) && distToExit == SqDist(pos, exit) &&
        baseMoves == old(baseMoves) + [d]
      ensures State() == AttemptMoveEffect(old(State()), d, free, exit)
      ensures attempts == old(attempts) + [d] && active == old(active)
      ensures old(Cadence()) ==> Cadence()
    {
      RunCadenceOneMore(false, attempts, d);
      attempts := attempts + [d];
      if skipMove {
        skipMove := false;
        assert baseMoves + [] == baseMoves;
        return;
      }
      baseMoves := baseMoves + [d];
      if CanMove(pos, free, d) {
        pos := Step(pos, d);
      }
      skipMove := true;
      distToExit := SqDist(pos, exit);
    }

    /** Sheep.MoveSheep: out of range it does nothing; otherwise it calls
        AttemptMove once, with the first direction of the sorted array that
        the sheep can take, or not at all when every direction is blocked. */
    method MoveSheep(player: Cell, free: Cell -> bool, exit: Cell)
      modifies this
      ensures SqDist(old(pos), player) > FleeRadiusSq ==>
        State() == old(State()) && attempts == old(attempts) && baseMoves == old(baseMoves)
      ensures attempts == old(attempts) + MoveSheepAttempts(old(pos), player, free)
      ensures baseMoves == old(baseMoves) + MoveSheepBaseMoves(old(State()), player, free)
      ensures State() == MoveSheepEffect(old(State()), player, free, exit)
      ensures active == old(active)
      ensures old(Cadence()) ==> Cadence()
    {
      if SqDist(pos, player) > FleeRadiusSq {
        return;
      }
      var directions := SortDirections(pos, player);
      var i := 0;
      while i < |directions|
        invariant 0 <= i <= |directions|
        invariant forall j :: 0 <= j < i ==> !CanMove(pos, free, directions[j])
        invariant unchanged(this)
        invariant Cadence() == old(Cadence())
      {
        if CanMove(pos, free, directions[i]) {
          assert FirstMovable(directions, pos, free) == i;
          AttemptMove(directions[i], free, exit);
          return;
        }
        i := i + 1;
      }
      assert FirstMovable(directions, pos, free) == |directions|;
    }
  }

  /** The half-rate cadence of a sheep object: a sheep whose record agrees
      with the cadence (every sheep, by the constructor, AttemptMove and
      MoveSheep) has made ceil(N/2) base moves after N AttemptMove calls,
      on calls 1, 3, 5, ..., and has skipMove set exactly when N is odd. */
  lemma SheepHalfRate(s: Sheep)
    requires s.Cadence()
    ensures |s.baseMoves| == (|s.attempts| + 1) / 2
    ensures forall k :: 0 <= k < |s.baseMoves| ==> s.baseMoves[k] == s.attempts[2 * k]
    ensures s.skipMove == (|s.attempts| % 2 == 1)
  {
    CadenceHalfRate(s.attempts);
  }
}
