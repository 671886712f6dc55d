/** The engine on 32-bit words, as checkers_engine.cpp writes it, and the proof that each of its bitboard
    expressions denotes the set of spots the rules of module Rules give. */
module Engine {
  import opened Board
  import opened Rules

  // The fields pieces[WHITE], pieces[BLACK], kings and turn.
  datatype Words = Words(white: Bitboard, black: Bitboard, kings: Bitboard, turn: Side)

  function PiecesOf(e: Words, c: Side): Bitboard {
    if c == White then e.white else e.black
  }

  function All(e: Words): Bitboard {
    Or(Or(e.white, e.black), e.kings)
  }

  /** The position a state of the engine stands for. */
  function Abs(e: Words): Position {
    Position(Spots(e.white), Spots(e.black), Spots(e.kings), e.turn)
  }

  // ---------- Move generation ----------

  function StepWord(b: Bitboard, d: Direction, empty: Bitboard): Bitboard {
    And(Shift(And(b, MovesMask(d)), d), empty)
  }

  function JumpWord(b: Bitboard, d: Direction, opponent: Bitboard, empty: Bitboard): Bitboard {
    And(Shift(And(Shift(And(b, AttacksMask(d)), d), opponent), d), empty)
  }

  function ManMoves(e: Words, b: Bitboard): Bitboard {
    var empty := Not(All(e));
    if e.turn == White then Or(StepWord(b, NorthEast, empty), StepWord(b, NorthWest, empty))
    else Or(StepWord(b, SouthEast, empty), StepWord(b, SouthWest, empty))
  }

  function KingMoves(e: Words, b: Bitboard): Bitboard {
    var empty := Not(All(e));
    Or(Or(Or(StepWord(b, NorthEast, empty), StepWord(b, NorthWest, empty)),
          StepWord(b, SouthEast, empty)), StepWord(b, SouthWest, empty))
  }

  function ManCaptureMoves(e: Words, b: Bitboard): Bitboard {
    var empty := Not(All(e));
    if e.turn == White then Or(JumpWord(b, NorthEast, e.black, empty), JumpWord(b, NorthWest, e.black, empty))
    else Or(JumpWord(b, SouthEast, e.white, empty), JumpWord(b, SouthWest, e.white, empty))
  }

  function KingCaptureMoves(e: Words, b: Bitboard): Bitboard {
    var empty, opponent := Not(All(e)), PiecesOf(e, Opponent(e.turn));
    Or(Or(Or(JumpWord(b, NorthEast, opponent, empty), JumpWord(b, NorthWest, opponent, empty)),
          JumpWord(b, SouthEast, opponent, empty)), JumpWord(b, SouthWest, opponent, empty))
  }

  function Captures(e: Words): Bitboard {
    Or(KingCaptureMoves(e, And(PiecesOf(e, e.turn), e.kings)),
       ManCaptureMoves(e, And(PiecesOf(e, e.turn), Not(e.kings))))
  }

  // ---------- Generation refines geometry ----------

  lemma EmptySpots(e: Words)
    ensures forall s: Spot :: s in Spots(Not(All(e))) <==> s !in Occupied(Abs(e))
  {
    hide Spots, Or, Not;
    SpotsOr(Or(e.white, e.black), e.kings);
    SpotsOr(e.white, e.black);
    SpotsNot(All(e));
  }

  lemma StepWordIsStep(e: Words, b: Bitboard, d: Direction)
    ensures Spots(StepWord(b, d, Not(All(e)))) == StepTargets(Abs(e), Spots(b), {d})
  {
    hide Spots, And, Not, Shift, MovesMask, HasNext, Next, All, Occupied;
    var movers := And(b, MovesMask(d));
    SpotsAnd(b, MovesMask(d));
    SpotsOfMasks(d);
    ShiftFollowsBoard(movers, d);
    SpotsAnd(Shift(movers, d), Not(All(e)));
    EmptySpots(e);
  }

  // The neighbours of a set of spots, when the image is taken one step at a time.
  function Neighbours(from: set<Spot>, d: Direction): set<Spot> {
    set s | s in from && HasNext(s, d) :: Next(s, d)
  }

  lemma NeighboursOfNeighbours(from: set<Spot>, d: Direction)
    requires forall s :: s in from ==> HasLanding(s, d)
    ensures forall s :: s in Neighbours(from, d) ==> HasNext(s, d)
    ensures Neighbours(Neighbours(from, d), d) == set s | s in from :: Landing(s, d)
  {
    hide HasNext, Next;
    var near := Neighbours(from, d);
    var far := Neighbours(near, d);
    var landings := set s | s in from :: Landing(s, d);
    forall t | t in far ensures t in landings {
      var m :| m in near && HasNext(m, d) && Next(m, d) == t;
      var s :| s in from && HasNext(s, d) && Next(s, d) == m;
      assert Landing(s, d) == t;
    }
    forall t | t in landings ensures t in far {
      var s :| s in from && Landing(s, d) == t;
      assert Next(s, d) in near;
    }
  }

  lemma AttackedSpots(b: Bitboard, d: Direction, opponent: Bitboard, attackers: set<Spot>)
    requires attackers == set s | s in Spots(b) && HasLanding(s, d) && Next(s, d) in Spots(opponent)
    ensures Spots(And(Shift(And(b, AttacksMask(d)), d), opponent)) == Neighbours(attackers, d)
  {
    hide Spots, And, Shift, AttacksMask, HasNext, Next;
    SpotsAnd(b, AttacksMask(d));
    SpotsOfMasks(d);
    ShiftFollowsBoard(And(b, AttacksMask(d)), d);
    SpotsAnd(Shift(And(b, AttacksMask(d)), d), opponent);
  }

  lemma LandedSpots(b: Bitboard, d: Direction, opponent: Bitboard, attackers: set<Spot>)
    requires attackers == set s | s in Spots(b) && HasLanding(s, d) && Next(s, d) in Spots(opponent)
    ensures Spots(Shift(And(Shift(And(b, AttacksMask(d)), d), opponent), d)) == set s | s in attackers :: Landing(s, d)
  {
    hide Spots, And, Shift, AttacksMask, HasNext, Next, Landing;
    AttackedSpots(b, d, opponent, attackers);
    NeighboursOfNeighbours(attackers, d);
    ShiftFollowsBoard(And(Shift(And(b, AttacksMask(d)), d), opponent), d);
  }

  lemma JumpTargetsOneWay(p: Position, from: set<Spot>, d: Direction, attackers: set<Spot>)
    requires attackers == set s | s in from && HasLanding(s, d) && Next(s, d) in Theirs(p)
    ensures JumpTargets(p, from, {d}) == (set s | s in attackers :: Landing(s, d)) - Occupied(p)
  {
    hide HasNext, Next, Landing, Occupied, Theirs;
  }

  lemma JumpWordIsJump(e: Words, b: Bitboard, d: Direction, opponent: Bitboard)
    requires opponent == PiecesOf(e, Opponent(e.turn))
    ensures Spots(JumpWord(b, d, opponent, Not(All(e)))) == JumpTargets(Abs(e), Spots(b), {d})
  {
    hide Spots, And, Not, Shift, AttacksMask, HasNext, Next, Landing, All, Occupied, JumpTargets;
    var attackers := set s | s in Spots(b) && HasLanding(s, d) && Next(s, d) in Spots(opponent);
    LandedSpots(b, d, opponent, attackers);
    JumpTargetsOneWay(Abs(e), Spots(b), d, attackers);
    SpotsAnd(Shift(And(Shift(And(b, AttacksMask(d)), d), opponent), d), Not(All(e)));
    EmptySpots(e);
  }

  lemma TargetsUnion(p: Position, from: set<Spot>, d: Direction, e: Direction)
    ensures StepTargets(p, from, {d, e}) == StepTargets(p, from, {d}) + StepTargets(p, from, {e})
    ensures JumpTargets(p, from, {d, e}) == JumpTargets(p, from, {d}) + JumpTargets(p, from, {e})
  {
    hide CanStep, CanJump, Next, Landing;
  }

  lemma TargetsEverywhere(p: Position, from: set<Spot>)
    ensures StepTargets(p, from, EVERYWHERE) ==
            StepTargets(p, from, {NorthWest, NorthEast}) + StepTargets(p, from, {SouthEast, SouthWest})
    ensures JumpTargets(p, from, EVERYWHERE) ==
            JumpTargets(p, from, {NorthWest, NorthEast}) + JumpTargets(p, from, {SouthEast, SouthWest})
  {
    hide CanStep, CanJump, Next, Landing;
  }

  /** man_moves and king_moves are the empty diagonal neighbours. */
  lemma MovesRefine(e: Words, b: Bitboard)
    ensures Spots(ManMoves(e, b)) == StepTargets(Abs(e), Spots(b), Forward(e.turn))
    ensures Spots(KingMoves(e, b)) == StepTargets(Abs(e), Spots(b), EVERYWHERE)
  {
    hide Spots, Or, Not, All, StepWord, StepTargets;
    var empty := Not(All(e));
    var ne, nw := StepWord(b, NorthEast, empty), StepWord(b, NorthWest, empty);
    var se, sw := StepWord(b, SouthEast, empty), StepWord(b, SouthWest, empty);
    StepWordIsStep(e, b, NorthEast);
    StepWordIsStep(e, b, NorthWest);
    StepWordIsStep(e, b, SouthEast);
    StepWordIsStep(e, b, SouthWest);
    SpotsOr(ne, nw);
    SpotsOr(se, sw);
    SpotsOr(Or(ne, nw), se);
    SpotsOr(Or(Or(ne, nw), se), sw);
    TargetsUnion(Abs(e), Spots(b), NorthWest, NorthEast);
    TargetsUnion(Abs(e), Spots(b), SouthEast, SouthWest);
    TargetsEverywhere(Abs(e), Spots(b));
  }

  /** man_capture_moves and king_capture_moves are the empty squares behind a neighbouring opponent. */
  lemma CaptureMovesRefine(e: Words, b: Bitboard)
    ensures Spots(ManCaptureMoves(e, b)) == JumpTargets(Abs(e), Spots(b), Forward(e.turn))
    ensures Spots(KingCaptureMoves(e, b)) == JumpTargets(Abs(e), Spots(b), EVERYWHERE)
  {
    hide Spots, Or, Not, All, JumpWord, JumpTargets;
    var empty, opponent := Not(All(e)), PiecesOf(e, Opponent(e.turn));
    var ne, nw := JumpWord(b, NorthEast, opponent, empty), JumpWord(b, NorthWest, opponent, empty);
    var se, sw := JumpWord(b, SouthEast, opponent, empty), JumpWord(b, SouthWest, opponent, empty);
    JumpWordIsJump(e, b, NorthEast, opponent);
    JumpWordIsJump(e, b, NorthWest, opponent);
    JumpWordIsJump(e, b, SouthEast, opponent);
    JumpWordIsJump(e, b, SouthWest, opponent);
    SpotsOr(ne, nw);
    SpotsOr(se, sw);
    SpotsOr(Or(ne, nw), se);
    SpotsOr(Or(Or(ne, nw), se), sw);
    TargetsUnion(Abs(e), Spots(b), NorthWest, NorthEast);
    TargetsUnion(Abs(e), Spots(b), SouthEast, SouthWest);
    TargetsEverywhere(Abs(e), Spots(b));
  }

  /** captures() is non-zero exactly when the side to move can capture. */
  lemma CapturesRefine(e: Words)
    ensures Captures(e) != BITBOARD_EMPTY <==> CanCapture(Abs(e))
  {
    hide Spots, Or, And, Not, KingCaptureMoves, ManCaptureMoves, HasNext, Next;
    var own := PiecesOf(e, e.turn);
    var kings, men := And(own, e.kings), And(own, Not(e.kings));
    SpotsAnd(own, e.kings);
    SpotsAnd(own, Not(e.kings));
    SpotsNot(e.kings);
    CaptureMovesRefine(e, kings);
    CaptureMovesRefine(e, men);
    SpotsOr(KingCaptureMoves(e, kings), ManCaptureMoves(e, men));
    EmptyIffNoSpots(Captures(e));
    var p := Abs(e);
    if s, d :| s in Own(p) && d in Directions(p, s) && CanJump(p, s, d) {
      assert s in p.kings ==> Landing(s, d) in JumpTargets(p, Spots(kings), EVERYWHERE);
      assert s !in p.kings ==> Landing(s, d) in JumpTargets(p, Spots(men), Forward(e.turn));
    }
  }

  // ---------- is_valid and make_move ----------

  function IsValidWord(e: Words, m: Move): bool {
    var from := And(SpotBit(m.from), PiecesOf(e, e.turn));
    if from == BITBOARD_EMPTY then false
    else
      var reach := if And(e.kings, from) != BITBOARD_EMPTY then Or(KingMoves(e, from), KingCaptureMoves(e, from))
                   else Or(ManMoves(e, from), ManCaptureMoves(e, from));
      And(reach, SpotBit(m.to)) != BITBOARD_EMPTY
  }

  /** The switch of make_move: b without the bit its case clears. */
  function Cleared(b: Bitboard, m: Move): Bitboard {
    var step := SpotBitIndex(m.to) - SpotBitIndex(m.from);
    if step == 2 * Delta(NorthEast) then And(b, Not(ShiftLeft(SpotBit(m.from), 1)))
    else if step == 2 * Delta(NorthWest) then And(b, Not(ShiftLeft(SpotBit(m.from), 7)))
    else if step == 2 * Delta(SouthEast) then And(b, Not(ShiftLeft(SpotBit(m.to), 7)))
    else if step == 2 * Delta(SouthWest) then And(b, Not(ShiftLeft(SpotBit(m.to), 1)))
    else b
  }

  function WithWords(e: Words, own: Bitboard, theirs: Bitboard, kings: Bitboard): Words {
    if e.turn == White then Words(own, theirs, kings, e.turn) else Words(theirs, own, kings, e.turn)
  }

  function MovedWords(e: Words, m: Move): Words {
    var from, to := SpotBit(m.from), SpotBit(m.to);
    var own := And(Or(PiecesOf(e, e.turn), to), Not(from));
    var crowned := if And(e.kings, from) != BITBOARD_EMPTY || IsPromotion(m) then Or(e.kings, to) else e.kings;
    var kings, theirs := And(crowned, Not(from)), PiecesOf(e, Opponent(e.turn));
    if IsCapture(m) then WithWords(e, own, Cleared(theirs, m), Cleared(kings, m)) else WithWords(e, own, theirs, kings)
  }

  function PlayWords(e: Words, m: Move): Words {
    var q := MovedWords(e, m);
    if IsCapture(m) &&
       (ManCaptureMoves(q, SpotBit(m.to)) != BITBOARD_EMPTY || KingCaptureMoves(q, SpotBit(m.from)) != BITBOARD_EMPTY)
    then q
    else q.(turn := Opponent(e.turn))
  }

  lemma ClearedSpots(b: Bitboard, m: Move)
    ensures Spots(Cleared(b, m)) == Spots(b) - HitSpots(m)
  {
    hide Spots, SpotBit, SpotBitIndex, SpotOfBit, ShiftLeft, And, Not;
    var i: int, j: int := SpotBitIndex(m.from), SpotBitIndex(m.to);
    if j - i == 2 {
      SpotBitShiftedLeft(m.from, 1);
      SpotsWithout(b, SpotOfBit(i + 1));
    } else if j - i == 14 {
      SpotBitShiftedLeft(m.from, 7);
      SpotsWithout(b, SpotOfBit(i + 7));
    } else if j - i == -14 {
      SpotBitShiftedLeft(m.to, 7);
      SpotsWithout(b, SpotOfBit(j + 7));
    } else if j - i == -2 {
      SpotBitShiftedLeft(m.to, 1);
      SpotsWithout(b, SpotOfBit(j + 1));
    }
  }

  lemma MovedRefines(e: Words, m: Move)
    ensures Abs(MovedWords(e, m)) == Moved(Abs(e), m)
  {
    hide Spots, SpotBit, And, Or, Not, Cleared, HitSpots, IsPromotion, IsCapture;
    var from, to := SpotBit(m.from), SpotBit(m.to);
    var own := PiecesOf(e, e.turn);
    SpotsOfSpotBit(m.to);
    SpotsOr(own, to);
    SpotsWithout(Or(own, to), m.from);
    SpotBitsMeet(e.kings, m.from);
    SpotsOr(e.kings, to);
    SpotsWithout(Or(e.kings, to), m.from);
    SpotsWithout(e.kings, m.from);
    ClearedSpots(PiecesOf(e, Opponent(e.turn)), m);
    ClearedSpots(And(Or(e.kings, to), Not(from)), m);
    ClearedSpots(And(e.kings, Not(from)), m);
  }

  lemma MovedKeepsTurn(e: Words, m: Move)
    ensures MovedWords(e, m).turn == e.turn
  {
  }

  /** make_move on words is the move of the rules, whatever the type byte says. */
  lemma PlayRefines(e: Words, m: Move)
    ensures Abs(PlayWords(e, m)) == Play(Abs(e), m)
  {
    hide Spots, SpotBit, MovedWords, Moved, IsCapture, ManCaptureMoves, KingCaptureMoves, JumpTargets;
    MovedRefines(e, m);
    var q := MovedWords(e, m);
    MovedKeepsTurn(e, m);
    SpotsOfSpotBit(m.to);
    SpotsOfSpotBit(m.from);
    CaptureMovesRefine(q, SpotBit(m.to));
    CaptureMovesRefine(q, SpotBit(m.from));
    EmptyIffNoSpots(ManCaptureMoves(q, SpotBit(m.to)));
    EmptyIffNoSpots(KingCaptureMoves(q, SpotBit(m.from)));
  }

  lemma TargetsOfOne(p: Position, s: Spot, ds: set<Direction>, t: Spot)
    ensures t in StepTargets(p, {s}, ds) <==> exists d :: d in ds && CanStep(p, s, d) && IsStep(s, d, t)
    ensures t in JumpTargets(p, {s}, ds) <==> exists d :: d in ds && CanJump(p, s, d) && IsJump(s, d, t)
  {
    hide HasNext, Next, Landing, Occupied, Theirs;
  }

  /** is_valid on words is the check of the rules. */
  lemma IsValidRefines(e: Words, m: Move)
    ensures IsValidWord(e, m) <==> IsValid(Abs(e), m)
  {
    hide Spots, SpotBit, And, Or, ManMoves, KingMoves, ManCaptureMoves, KingCaptureMoves, StepTargets, JumpTargets;
    hide CanStep, CanJump, IsStep, IsJump;
    var p := Abs(e);
    var from := And(SpotBit(m.from), PiecesOf(e, e.turn));
    SpotsAnd(SpotBit(m.from), PiecesOf(e, e.turn));
    SpotsOfSpotBit(m.from);
    EmptyIffNoSpots(from);
    if m.from in Own(p) {
      assert Spots(from) == {m.from};
      SpotsAnd(e.kings, from);
      EmptyIffNoSpots(And(e.kings, from));
      assert And(e.kings, from) != BITBOARD_EMPTY <==> m.from in p.kings;
      MovesRefine(e, from);
      CaptureMovesRefine(e, from);
      SpotsOr(KingMoves(e, from), KingCaptureMoves(e, from));
      SpotsOr(ManMoves(e, from), ManCaptureMoves(e, from));
      SpotBitsMeet(Or(KingMoves(e, from), KingCaptureMoves(e, from)), m.to);
      SpotBitsMeet(Or(ManMoves(e, from), ManCaptureMoves(e, from)), m.to);
      var ds := Directions(p, m.from);
      TargetsOfOne(p, m.from, ds, m.to);
      if d :| d in ds && CanStep(p, m.from, d) && IsStep(m.from, d, m.to) {
        assert IsValidTowards(p, m, d);
      }
      if d :| d in ds && CanJump(p, m.from, d) && IsJump(m.from, d, m.to) {
        assert IsValidTowards(p, m, d);
      }
    } else {
      assert Spots(from) == {};
    }
  }

  // ---------- get_captured_index ----------

  const SPOTS_NUMBER := 32

  function BehindWord(m: Move, d: Direction): Bitboard {
    And(Shift(Shift(SpotBit(m.from), d), d), SpotBit(m.to))
  }

  lemma NextToSpotBit(s: Spot, d: Direction)
    ensures Shift(SpotBit(s), d) != BITBOARD_EMPTY
  {
    hide SpotBit, Shift, SpotOfBit, SpotBitIndex;
    SpotBitShifted(s, d);
    SpotOfSpotBit(SpotOfBit(Wrap(SpotBitIndex(s) + Delta(d))));
  }

  function NextByWord(s: Spot, d: Direction): Spot {
    NextToSpotBit(s, d);
    LowestSpot(Shift(SpotBit(s), d))
  }

  /** The index of the captured piece, or SPOTS_NUMBER. Unlike make_move it rotates. */
  function CapturedIndex(m: Move): nat {
    if !IsCapture(m) then SPOTS_NUMBER
    else if BehindWord(m, NorthWest) != BITBOARD_EMPTY then NextByWord(m.from, NorthWest)
    else if BehindWord(m, NorthEast) != BITBOARD_EMPTY then NextByWord(m.from, NorthEast)
    else if BehindWord(m, SouthWest) != BITBOARD_EMPTY then NextByWord(m.from, SouthWest)
    else if BehindWord(m, SouthEast) != BITBOARD_EMPTY then NextByWord(m.from, SouthEast)
    else SPOTS_NUMBER
  }

  lemma BehindBits(m: Move, d: Direction)
    ensures BehindWord(m, d) != BITBOARD_EMPTY <==>
            SpotBitIndex(m.to) == Wrap(Wrap(SpotBitIndex(m.from) + Delta(d)) + Delta(d))
    ensures SpotBitIndex(NextByWord(m.from, d)) == Wrap(SpotBitIndex(m.from) + Delta(d))
  {
    hide SpotBit, Shift, SpotOfBit, SpotBitIndex, And, LowestSpot;
    var k := Wrap(SpotBitIndex(m.from) + Delta(d));
    var j := Wrap(k + Delta(d));
    SpotOfBitInverse(k);
    SpotOfBitInverse(j);
    SpotBitShifted(m.from, d);
    SpotBitShifted(SpotOfBit(k), d);
    SpotOfSpotBit(SpotOfBit(k));
    SpotBitsMeet(SpotBit(SpotOfBit(j)), m.to);
    SpotsOfSpotBit(SpotOfBit(j));
    if SpotBitIndex(m.to) == j {
      SpotBitIndexInjective(m.to, SpotOfBit(j));
    }
  }

  /** get_captured_index of a jump marked as a capture is the geometric midpoint, wrapped or not; of a
      step, or of a move not marked, it is SPOTS_NUMBER. */
  lemma CapturedIndexIsMidpoint(m: Move, d: Direction)
    ensures IsCapture(m) && IsJump(m.from, d, m.to) ==> CapturedIndex(m) == Next(m.from, d)
    ensures !IsCapture(m) || IsStep(m.from, d, m.to) ==> CapturedIndex(m) == SPOTS_NUMBER
  {
    hide SpotBitIndex, HasNext, Next, BehindWord, NextByWord, IsCapture;
    BehindBits(m, NorthWest);
    BehindBits(m, NorthEast);
    BehindBits(m, SouthWest);
    BehindBits(m, SouthEast);
    if IsStep(m.from, d, m.to) {
      StepBits(m.from, d, m.to);
    }
    if IsJump(m.from, d, m.to) {
      JumpBits(m.from, d, m.to);
      if SpotBitIndex(NextByWord(m.from, d)) == SpotBitIndex(Next(m.from, d)) {
        SpotBitIndexInjective(NextByWord(m.from, d), Next(m.from, d));
      }
    }
  }
}
