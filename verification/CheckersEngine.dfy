/** The class checkers_engine: its fields, and its methods as they update and read them. */
module CheckersEngineClass {
  import opened Board
  import opened Rules
  import opened Engine
  import opened MoveLists

  function ColorIndex(c: Side): nat {
    if c == White then 0 else 1
  }

  lemma MoveOver<T>(a: seq<T>, x: T, b: seq<T>)
    ensures a + ([x] + b) == a + [x] + b
  {
  }

  class CheckersEngine {
    const pieces: array<Bitboard>
    var kings: Bitboard
    var turn: Color

    // The engine has been reset; before that its turn is BOTH and no method but Reset may be called.
    ghost predicate Ready()
      reads this
    {
      pieces.Length == 2 && turn != Both
    }

    function State(): Words
      requires Ready()
      reads this, pieces
    {
      Words(pieces[0], pieces[1], kings, turn)
    }

    constructor ()
      ensures fresh(pieces) && pieces.Length == 2
      ensures pieces[0] == pieces[1] == kings == BITBOARD_EMPTY && turn == Both
    {
      pieces := new Bitboard[2](_ => BITBOARD_EMPTY);
      kings := BITBOARD_EMPTY;
      turn := Both;
    }

    /** reset() sets up the start position of the rules. */
    method Reset()
      requires pieces.Length == 2
      modifies this, pieces
      ensures Ready() && State() == Words(WHITE_PIECES_SQUARES, BLACK_PIECES_SQUARES, BITBOARD_EMPTY, White)
      ensures Abs(State()) == Start()
    {
      pieces[0] := WHITE_PIECES_SQUARES;
      pieces[1] := BLACK_PIECES_SQUARES;
      kings := BITBOARD_EMPTY;
      turn := White;
      StartConstants();
    }

    /** make_move(): the state becomes the one the rules give, for any spots and any type byte. */
    method MakeMove(m: Move)
      requires Ready()
      modifies this, pieces
      ensures Ready()
      ensures State() == PlayWords(old(State()), m)
      ensures Abs(State()) == Play(Abs(old(State())), m)
    {
      hide Or, And, Not, ShiftLeft, SpotBit, IsCapture, IsPromotion;
      hide ManCaptureMoves, KingCaptureMoves, Abs, Play;
      ghost var before := State();
      var fromBit, toBit := SpotBit(m.from), SpotBit(m.to);
      var mine, other := ColorIndex(turn), ColorIndex(Opponent(turn));
      pieces[mine] := Or(pieces[mine], toBit);
      if And(kings, fromBit) != BITBOARD_EMPTY || IsPromotion(m) {
        kings := Or(kings, toBit);
      }
      pieces[mine] := And(pieces[mine], Not(fromBit));
      kings := And(kings, Not(fromBit));
      PlayRefines(before, m);
      if IsCapture(m) {
        TableIsRotatedLayout(m.from);
        TableIsRotatedLayout(m.to);
        var step := (SPOT_INDEX_TO_BIT_INDEX[m.to] as int) - (SPOT_INDEX_TO_BIT_INDEX[m.from] as int);
        if step == 2 * Delta(NorthEast) {
          pieces[other] := And(pieces[other], Not(ShiftLeft(fromBit, 1)));
          kings := And(kings, Not(ShiftLeft(fromBit, 1)));
        } else if step == 2 * Delta(NorthWest) {
          pieces[other] := And(pieces[other], Not(ShiftLeft(fromBit, 7)));
          kings := And(kings, Not(ShiftLeft(fromBit, 7)));
        } else if step == 2 * Delta(SouthEast) {
          pieces[other] := And(pieces[other], Not(ShiftLeft(toBit, 7)));
          kings := And(kings, Not(ShiftLeft(toBit, 7)));
        } else if step == 2 * Delta(SouthWest) {
          pieces[other] := And(pieces[other], Not(ShiftLeft(toBit, 1)));
          kings := And(kings, Not(ShiftLeft(toBit, 1)));
        }
        assert State() == MovedWords(before, m);
        if ManCaptureMoves(State(), toBit) != BITBOARD_EMPTY || KingCaptureMoves(State(), fromBit) != BITBOARD_EMPTY {
          return;
        }
      }
      turn := Opponent(turn);
    }

    // for (to : SpotsBitIterator(targets)) list.emplace_back(from, to, kind)
    method MovesOfPiece(from: Spot, pass: Pass) returns (list: seq<Move>)
      requires Ready()
      ensures list == FromMoves(State(), from, pass)
    {
      hide Spots, SpotBit, Targets, Kind, LowestSpot, ClearLowest, MovesTo, SpotList;
      var e := State();
      list := [];
      var it := Targets(e, from, pass);
      while it != BITBOARD_EMPTY
        invariant list + MovesTo(e, from, SpotList(it), pass) == FromMoves(e, from, pass)
        decreases |Spots(it)|
      {
        SpotListStep(it);
        MovesToStep(e, from, it, pass);
        var to := LowestSpot(it);
        var m := Move(from, to, Kind(e, to, pass));
        it := ClearLowest(it);
        MoveOver(list, m, MovesTo(e, from, SpotList(it), pass));
        list := list + [m];
      }
      NothingLeft(e, from, pass, Man, White);
    }

    // for (from : SpotsBitIterator(movers)) and then for each of its targets
    method MovesOfPass(pass: Pass) returns (list: seq<Move>)
      requires Ready()
      ensures list == PassMoves(State(), pass)
    {
      hide Spots, Movers, LowestSpot, ClearLowest, FromMoves, MovesOf, SpotList;
      ghost var e := State();
      list := [];
      var it := Movers(State(), pass);
      while it != BITBOARD_EMPTY
        invariant list + MovesOf(e, SpotList(it), pass) == PassMoves(e, pass)
        decreases |Spots(it)|
      {
        SpotListStep(it);
        MovesOfStep(e, it, pass);
        var moves := MovesOfPiece(LowestSpot(it), pass);
        list := list + moves;
        it := ClearLowest(it);
      }
      NothingLeft(e, 0, pass, Man, White);
    }

    /** valid_moves() is the duplicate-free list of the offered moves. */
    method ValidMoves() returns (list: seq<Move>)
      requires Ready()
      ensures list == ValidMoveList(State())
      ensures Distinct(list) && forall m :: m in list <==> Offers(Abs(State()), m)
    {
      ValidMovesExact(State());
      var capture := Captures(State()) != BITBOARD_EMPTY;
      var ofKings := MovesOfPass(Pass(false, capture));
      var ofMen := MovesOfPass(Pass(true, capture));
      list := ofKings + ofMen;
    }

    /** valid_moves(from) is the part of that list that starts from `from`. */
    method ValidMovesFrom(from: Spot) returns (list: seq<Move>)
      requires Ready()
      ensures list == ValidMoveListFrom(State(), from)
      ensures Distinct(list) && forall m :: m in list <==> Offers(Abs(State()), m) && m.from == from
    {
      ValidMovesExact(State());
      ValidMovesFromExact(State(), from);
      list := [];
      var man := And(SpotBit(from), kings) == BITBOARD_EMPTY;
      if And(SpotBit(from), pieces[ColorIndex(turn)]) == BITBOARD_EMPTY {
        return;
      }
      list := MovesOfPiece(from, Pass(man, true));
      if Captures(State()) != BITBOARD_EMPTY {
        return;
      }
      var steps := MovesOfPiece(from, Pass(man, false));
      list := list + steps;
    }

    method IsValidMove(m: Move) returns (valid: bool)
      requires Ready()
      ensures valid <==> IsValid(Abs(State()), m)
    {
      IsValidRefines(State(), m);
      valid := IsValidWord(State(), m);
    }

    method PlacedPieces(piece: PieceType, color: Side) returns (list: seq<OccupiedSpot>)
      requires Ready()
      ensures list == GroupList(State(), piece, color)
    {
      hide Spots, Group, LowestSpot, ClearLowest, Placed, SpotList;
      ghost var e := State();
      list := [];
      var it := Group(State(), piece, color);
      ghost var all := GroupList(e, piece, color);
      while it != BITBOARD_EMPTY
        invariant list + Placed(piece, color, SpotList(it)) == all
        decreases |Spots(it)|
      {
        SpotListStep(it);
        PlacedStep(piece, color, it);
        var o := OccupiedSpot(piece, color, LowestSpot(it));
        it := ClearLowest(it);
        MoveOver(list, o, Placed(piece, color, SpotList(it)));
        list := list + [o];
      }
      NothingLeft(e, 0, Pass(false, false), piece, color);
    }

    /** board() lists each piece once, with its colour and rank. */
    method BoardSpots() returns (list: seq<OccupiedSpot>)
      requires Ready()
      ensures list == BoardList(State())
      ensures Distinct(list) && forall o :: o in list <==> Stands(Abs(State()), o)
    {
      BoardListExact(State());
      var whiteMen := PlacedPieces(Man, White);
      var whiteKings := PlacedPieces(King, White);
      var blackMen := PlacedPieces(Man, Black);
      var blackKings := PlacedPieces(King, Black);
      list := whiteMen + whiteKings + blackMen + blackKings;
    }
  }
}
