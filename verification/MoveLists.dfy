/** valid_moves and board as the lists they build, and what those lists hold. */
module MoveLists {
  import opened Board
  import opened Rules
  import opened Engine

  // Which pieces and which moves one of the loops of valid_moves runs over.
  datatype Pass = Pass(man: bool, capture: bool)

  function Targets(e: Words, from: Spot, pass: Pass): Bitboard {
    if pass.man then (if pass.capture then ManCaptureMoves(e, SpotBit(from)) else ManMoves(e, SpotBit(from)))
    else if pass.capture then KingCaptureMoves(e, SpotBit(from)) else KingMoves(e, SpotBit(from))
  }

  function Movers(e: Words, pass: Pass): Bitboard {
    if pass.man then And(PiecesOf(e, e.turn), Not(e.kings)) else And(PiecesOf(e, e.turn), e.kings)
  }

  function Kind(e: Words, to: Spot, pass: Pass): bv8 {
    var promotes := pass.man && And(SpotBit(to), OppositeBase(e.turn)) != BITBOARD_EMPTY;
    if pass.capture then (if promotes then CAPTURE_PROMOTION else CAPTURE) else if promotes then PROMOTION else NORMAL
  }

  // The moves of one piece, in the order of its target spots.
  function MovesTo(e: Words, from: Spot, tos: seq<Spot>, pass: Pass): (l: seq<Move>)
    ensures |l| == |tos|
    ensures forall i :: 0 <= i < |l| ==> l[i] == Move(from, tos[i], Kind(e, tos[i], pass))
  {
    if tos == [] then [] else [Move(from, tos[0], Kind(e, tos[0], pass))] + MovesTo(e, from, tos[1..], pass)
  }

  // The moves of one loop, piece after piece.
  function MovesOf(e: Words, froms: seq<Spot>, pass: Pass): seq<Move> {
    if froms == [] then []
    else MovesTo(e, froms[0], SpotList(Targets(e, froms[0], pass)), pass) + MovesOf(e, froms[1..], pass)
  }

  function PassMoves(e: Words, pass: Pass): seq<Move> {
    MovesOf(e, SpotList(Movers(e, pass)), pass)
  }

  /** valid_moves(): the kings' moves before the men's, captures only if there are any. */
  function ValidMoveList(e: Words): seq<Move> {
    var capture := Captures(e) != BITBOARD_EMPTY;
    PassMoves(e, Pass(false, capture)) + PassMoves(e, Pass(true, capture))
  }

  function FromMoves(e: Words, from: Spot, pass: Pass): seq<Move> {
    MovesTo(e, from, SpotList(Targets(e, from, pass)), pass)
  }

  /** valid_moves(from): the captures of one piece, and its steps if nobody can capture. */
  function ValidMoveListFrom(e: Words, from: Spot): seq<Move> {
    var man := And(SpotBit(from), e.kings) == BITBOARD_EMPTY;
    if And(SpotBit(from), PiecesOf(e, e.turn)) == BITBOARD_EMPTY then []
    else if Captures(e) != BITBOARD_EMPTY then FromMoves(e, from, Pass(man, true))
    else FromMoves(e, from, Pass(man, true)) + FromMoves(e, from, Pass(man, false))
  }

  // ---------- One step of each loop ----------

  lemma SpotListStep(it: Bitboard)
    requires it != BITBOARD_EMPTY
    ensures SpotList(it) == [LowestSpot(it)] + SpotList(ClearLowest(it))
    ensures SpotList(it)[0] == LowestSpot(it) && SpotList(it)[1..] == SpotList(ClearLowest(it))
    ensures |Spots(ClearLowest(it))| < |Spots(it)|
  {
    hide Spots, LowestSpot, ClearLowest;
    IteratorStep(it);
  }

  lemma MovesToStep(e: Words, from: Spot, it: Bitboard, pass: Pass)
    requires it != BITBOARD_EMPTY
    ensures MovesTo(e, from, SpotList(it), pass) ==
            [Move(from, LowestSpot(it), Kind(e, LowestSpot(it), pass))]
            + MovesTo(e, from, SpotList(ClearLowest(it)), pass)
  {
    hide Spots, LowestSpot, ClearLowest, Kind, SpotList;
    SpotListStep(it);
  }

  lemma MovesOfStep(e: Words, it: Bitboard, pass: Pass)
    requires it != BITBOARD_EMPTY
    ensures MovesOf(e, SpotList(it), pass) ==
            FromMoves(e, LowestSpot(it), pass) + MovesOf(e, SpotList(ClearLowest(it)), pass)
  {
    hide Spots, LowestSpot, ClearLowest, MovesTo, Targets, SpotList;
    SpotListStep(it);
  }

  // ---------- What a list holds ----------

  predicate InPass(e: Words, m: Move, pass: Pass) {
    m.from in Spots(Movers(e, pass)) && m.to in Spots(Targets(e, m.from, pass)) && m.kind == Kind(e, m.to, pass)
  }

  lemma FromMovesExact(e: Words, from: Spot, pass: Pass)
    ensures Distinct(FromMoves(e, from, pass))
    ensures forall m :: m in FromMoves(e, from, pass) <==>
                        m.from == from && m.to in Spots(Targets(e, from, pass)) && m.kind == Kind(e, m.to, pass)
  {
    hide Targets, Kind, Spots, SpotList;
    var tos := SpotList(Targets(e, from, pass));
    SpotListIsSpots(Targets(e, from, pass));
    var l := MovesTo(e, from, tos, pass);
    forall m: Move | m.from == from && m.to in tos && m.kind == Kind(e, m.to, pass) ensures m in l {
      var i :| 0 <= i < |tos| && tos[i] == m.to;
      assert l[i] == m;
    }
  }

  lemma DistinctConcat<T>(a: seq<T>, b: seq<T>)
    requires Distinct(a) && Distinct(b) && forall x :: x in a ==> x !in b
    ensures Distinct(a + b)
  {
    forall i, j | 0 <= i < j < |a + b| ensures (a + b)[i] != (a + b)[j] {
      if i < |a| <= j {
        assert (a + b)[i] in a && (a + b)[j] in b;
      }
    }
  }

  lemma {:induction false} MovesOfExact(e: Words, froms: seq<Spot>, pass: Pass)
    requires Distinct(froms)
    ensures Distinct(MovesOf(e, froms, pass))
    ensures forall m :: m in MovesOf(e, froms, pass) <==>
                        m.from in froms && m.to in Spots(Targets(e, m.from, pass)) && m.kind == Kind(e, m.to, pass)
  {
    hide Targets, Kind, Spots, SpotList;
    if froms != [] {
      var first, rest := FromMoves(e, froms[0], pass), MovesOf(e, froms[1..], pass);
      MovesOfExact(e, froms[1..], pass);
      FromMovesExact(e, froms[0], pass);
      assert forall s :: s in froms <==> s == froms[0] || s in froms[1..];
      DistinctConcat(first, rest);
    }
  }

  lemma PassExact(e: Words, pass: Pass)
    ensures Distinct(PassMoves(e, pass))
    ensures forall m :: m in PassMoves(e, pass) <==> InPass(e, m, pass)
  {
    hide Targets, Kind, Spots, SpotList, Movers;
    SpotListIsSpots(Movers(e, pass));
    MovesOfExact(e, SpotList(Movers(e, pass)), pass);
  }

  lemma MoverSpots(e: Words, s: Spot, pass: Pass)
    ensures s in Spots(Movers(e, pass)) <==> s in Own(Abs(e)) && (pass.man <==> s !in Abs(e).kings)
  {
    hide Spots, And, Not;
    SpotsAnd(PiecesOf(e, e.turn), e.kings);
    SpotsAnd(PiecesOf(e, e.turn), Not(e.kings));
    SpotsNot(e.kings);
  }

  lemma KindRefines(e: Words, from: Spot, to: Spot, pass: Pass)
    requires pass.man <==> from !in Abs(e).kings
    ensures Kind(e, to, pass) == KindOf(Abs(e), from, to, pass.capture)
  {
    hide Spots, SpotBit, And, Row;
    StartConstants();
    SpotBitsMeet(OppositeBase(e.turn), to);
  }

  lemma TargetSpots(e: Words, from: Spot, pass: Pass)
    ensures var ds := if pass.man then Forward(e.turn) else EVERYWHERE;
            Spots(Targets(e, from, pass)) ==
            if pass.capture then JumpTargets(Abs(e), {from}, ds) else StepTargets(Abs(e), {from}, ds)
  {
    hide Spots, SpotBit, ManMoves, KingMoves, ManCaptureMoves, KingCaptureMoves, StepTargets, JumpTargets;
    SpotsOfSpotBit(from);
    MovesRefine(e, SpotBit(from));
    CaptureMovesRefine(e, SpotBit(from));
  }

  /** A move of the pass that fits the position is an offered move. */
  lemma PassOffers(e: Words, m: Move, pass: Pass)
    requires pass.capture <==> CanCapture(Abs(e))
    ensures InPass(e, m, pass) <==> Offers(Abs(e), m) && (pass.man <==> m.from !in Abs(e).kings)
  {
    hide Spots, Movers, Targets, Kind, KindOf, StepTargets, JumpTargets, CanStep, CanJump, IsStep, IsJump, CanCapture;
    var p := Abs(e);
    MoverSpots(e, m.from, pass);
    if m.from in Own(p) && (pass.man <==> m.from !in p.kings) {
      KindRefines(e, m.from, m.to, pass);
      TargetSpots(e, m.from, pass);
      var ds := Directions(p, m.from);
      TargetsOfOne(p, m.from, ds, m.to);
      if d :| d in ds && CanStep(p, m.from, d) && IsStep(m.from, d, m.to) {
        assert !pass.capture ==> OffersTowards(p, m, d);
      }
      if d :| d in ds && CanJump(p, m.from, d) && IsJump(m.from, d, m.to) {
        assert pass.capture ==> OffersTowards(p, m, d);
      }
    }
  }

  /** valid_moves() lists every offered move once and nothing else. */
  lemma ValidMovesExact(e: Words)
    ensures Distinct(ValidMoveList(e))
    ensures forall m :: m in ValidMoveList(e) <==> Offers(Abs(e), m)
  {
    hide Captures, PassMoves, InPass, Offers, CanCapture;
    CapturesRefine(e);
    var capture := Captures(e) != BITBOARD_EMPTY;
    PassExact(e, Pass(false, capture));
    PassExact(e, Pass(true, capture));
    forall m: Move
      ensures InPass(e, m, Pass(false, capture)) <==> Offers(Abs(e), m) && m.from in Abs(e).kings
      ensures InPass(e, m, Pass(true, capture)) <==> Offers(Abs(e), m) && m.from !in Abs(e).kings
    {
      PassOffers(e, m, Pass(false, capture));
      PassOffers(e, m, Pass(true, capture));
    }
    DistinctConcat(PassMoves(e, Pass(false, capture)), PassMoves(e, Pass(true, capture)));
  }

  lemma FromMovesInPass(e: Words, from: Spot, pass: Pass)
    requires from in Spots(Movers(e, pass))
    ensures forall m :: m in FromMoves(e, from, pass) <==> m.from == from && InPass(e, m, pass)
  {
    hide Targets, Kind, Spots, Movers, FromMoves;
    FromMovesExact(e, from, pass);
  }

  lemma NoCaptureNoTargets(e: Words, from: Spot, man: bool)
    requires from in Spots(Movers(e, Pass(man, true))) && Captures(e) == BITBOARD_EMPTY
    ensures FromMoves(e, from, Pass(man, true)) == []
  {
    hide Spots, Movers, Targets, Captures, JumpTargets, StepTargets, CanJump, CanStep, FromMoves;
    CapturesRefine(e);
    MoverSpots(e, from, Pass(man, true));
    var p, pass := Abs(e), Pass(man, true);
    TargetSpots(e, from, pass);
    FromMovesExact(e, from, pass);
    if FromMoves(e, from, pass) != [] {
      var m := FromMoves(e, from, pass)[0];
      assert m in FromMoves(e, from, pass);
      TargetsOfOne(p, from, Directions(p, from), m.to);
      assert false;
    }
  }

  /** valid_moves(s) lists exactly the moves of valid_moves() that start from s, once each; so the list of
      all moves is the union of the lists of all spots. */
  lemma ValidMovesFromExact(e: Words, from: Spot)
    ensures Distinct(ValidMoveListFrom(e, from))
    ensures forall m :: m in ValidMoveListFrom(e, from) <==> m in ValidMoveList(e) && m.from == from
  {
    hide Captures, Spots, Movers, FromMoves, InPass, Offers, SpotBit, And, CanCapture, ValidMoveList;
    var p := Abs(e);
    ValidMovesExact(e);
    CapturesRefine(e);
    SpotBitsMeet(e.kings, from);
    SpotBitsMeet(PiecesOf(e, e.turn), from);
    var man, capture := from !in p.kings, Captures(e) != BITBOARD_EMPTY;
    var pass := Pass(man, capture);
    MoverSpots(e, from, pass);
    MoverSpots(e, from, Pass(man, true));
    forall m: Move ensures InPass(e, m, pass) && m.from == from <==> Offers(p, m) && m.from == from {
      PassOffers(e, m, pass);
      OfferedIsOwn(p, m);
      if m.from == from && InPass(e, m, pass) {
        assert (pass.man <==> m.from !in p.kings);
      }
    }
    if from in Own(p) {
      FromMovesInPass(e, from, pass);
      FromMovesExact(e, from, pass);
      if !capture {
        NoCaptureNoTargets(e, from, man);
      }
    } else {
      forall m | Offers(p, m) ensures m.from != from {
        OfferedIsOwn(p, m);
      }
    }
  }

  lemma OfferedIsOwn(p: Position, m: Move)
    ensures Offers(p, m) ==> m.from in Own(p)
  {
  }

  // ---------- board() ----------

  datatype PieceType = Man | King

  datatype OccupiedSpot = OccupiedSpot(piece: PieceType, color: Side, index: Spot)

  function Placed(piece: PieceType, color: Side, spots: seq<Spot>): (l: seq<OccupiedSpot>)
    ensures |l| == |spots|
    ensures forall i :: 0 <= i < |l| ==> l[i] == OccupiedSpot(piece, color, spots[i])
  {
    if spots == [] then [] else [OccupiedSpot(piece, color, spots[0])] + Placed(piece, color, spots[1..])
  }

  lemma PlacedStep(piece: PieceType, color: Side, it: Bitboard)
    requires it != BITBOARD_EMPTY
    ensures Placed(piece, color, SpotList(it)) ==
            [OccupiedSpot(piece, color, LowestSpot(it))] + Placed(piece, color, SpotList(ClearLowest(it)))
  {
    hide Spots, LowestSpot, ClearLowest, SpotList;
    SpotListStep(it);
  }

  lemma NothingLeft(e: Words, from: Spot, pass: Pass, piece: PieceType, color: Side)
    ensures MovesTo(e, from, SpotList(BITBOARD_EMPTY), pass) == [] && MovesOf(e, SpotList(BITBOARD_EMPTY), pass) == []
    ensures Placed(piece, color, SpotList(BITBOARD_EMPTY)) == []
  {
  }

  function Group(e: Words, piece: PieceType, color: Side): Bitboard {
    And(PiecesOf(e, color), if piece == King then e.kings else Not(e.kings))
  }

  function GroupList(e: Words, piece: PieceType, color: Side): seq<OccupiedSpot> {
    Placed(piece, color, SpotList(Group(e, piece, color)))
  }

  /** board(): white men, white kings, black men, black kings. */
  function BoardList(e: Words): seq<OccupiedSpot> {
    GroupList(e, Man, White) + GroupList(e, King, White) + GroupList(e, Man, Black) + GroupList(e, King, Black)
  }

  predicate Stands(p: Position, o: OccupiedSpot) {
    o.index in Pieces(p, o.color) && (o.piece == King <==> o.index in p.kings)
  }

  lemma GroupSpots(e: Words, piece: PieceType, color: Side, s: Spot)
    ensures s in Spots(Group(e, piece, color)) <==> Stands(Abs(e), OccupiedSpot(piece, color, s))
  {
    hide Spots, And, Not;
    SpotsAnd(PiecesOf(e, color), e.kings);
    SpotsAnd(PiecesOf(e, color), Not(e.kings));
    SpotsNot(e.kings);
  }

  lemma GroupExact(e: Words, piece: PieceType, color: Side)
    ensures forall o :: o in GroupList(e, piece, color) <==> o.piece == piece && o.color == color && Stands(Abs(e), o)
  {
    hide Spots, Group, SpotList, Stands;
    var spots := SpotList(Group(e, piece, color));
    SpotListIsSpots(Group(e, piece, color));
    var l := Placed(piece, color, spots);
    forall o: OccupiedSpot ensures o in l <==> o.piece == piece && o.color == color && o.index in spots {
      if o.piece == piece && o.color == color && o.index in spots {
        var i :| 0 <= i < |spots| && spots[i] == o.index;
        assert l[i] == o;
      }
    }
    forall s: Spot ensures s in spots <==> Stands(Abs(e), OccupiedSpot(piece, color, s)) {
      GroupSpots(e, piece, color, s);
    }
    forall o: OccupiedSpot ensures o in l <==> o.piece == piece && o.color == color && Stands(Abs(e), o) {
      if o.piece == piece && o.color == color {
        assert o == OccupiedSpot(piece, color, o.index);
      }
    }
  }

  lemma BoardListHolds(e: Words, o: OccupiedSpot)
    ensures o in BoardList(e) <==> Stands(Abs(e), o)
  {
    hide GroupList, Stands;
    GroupExact(e, Man, White);
    GroupExact(e, King, White);
    GroupExact(e, Man, Black);
    GroupExact(e, King, Black);
    assert o.color == White || o.color == Black;
  }

  lemma GroupDistinct(e: Words, piece: PieceType, color: Side)
    ensures Distinct(GroupList(e, piece, color))
    ensures forall o :: o in GroupList(e, piece, color) ==> o.piece == piece && o.color == color
  {
    hide Spots, Group, SpotList;
    SpotListIsSpots(Group(e, piece, color));
  }

  lemma BoardListDistinct(e: Words)
    ensures Distinct(BoardList(e))
  {
    hide GroupList, Distinct;
    GroupDistinct(e, Man, White);
    GroupDistinct(e, King, White);
    GroupDistinct(e, Man, Black);
    GroupDistinct(e, King, Black);
    var white := GroupList(e, Man, White) + GroupList(e, King, White);
    DistinctConcat(GroupList(e, Man, White), GroupList(e, King, White));
    DistinctConcat(white, GroupList(e, Man, Black));
    DistinctConcat(white + GroupList(e, Man, Black), GroupList(e, King, Black));
  }

  /** board() lists each piece once, with its colour and rank, and nothing else. */
  lemma BoardListExact(e: Words)
    ensures Distinct(BoardList(e))
    ensures forall o :: o in BoardList(e) <==> Stands(Abs(e), o)
  {
    BoardListDistinct(e);
    hide BoardList, Stands;
    forall o: OccupiedSpot ensures o in BoardList(e) <==> Stands(Abs(e), o) {
      BoardListHolds(e, o);
    }
  }
}
