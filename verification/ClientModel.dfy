/** The client's CheckersModel: an engine and a second board `spots` that is updated beside it. */
module ClientModel {
  import opened Board
  import opened Rules
  import opened Engine
  import opened MoveLists
  import opened Game
  import opened CheckersEngineClass

  datatype PieceColorType = None | WhiteMan | BlackMan | WhiteKing | BlackKing

  // MoveType::INVALID.
  const INVALID: bv8 := 4

  function PictureOf(o: OccupiedSpot): PieceColorType {
    if o.piece == Man then (if o.color == Black then BlackMan else WhiteMan)
    else if o.color == Black then BlackKing else WhiteKing
  }

  function ColorOf(t: PieceColorType): Side
    requires t != None
  {
    if t == WhiteMan || t == WhiteKing then White else Black
  }

  lemma PictureShowsPiece(o: OccupiedSpot)
    ensures PictureOf(o) != None && ColorOf(PictureOf(o)) == o.color
    ensures PictureOf(o) == WhiteKing || PictureOf(o) == BlackKing <==> o.piece == King
  {
    assert o.color == White || o.color == Black;
  }

  // ---------- The second board after a move ----------

  type Shown = s: seq<PieceColorType> | |s| == 32 witness seq(32, _ => None)

  // The promotion test, on what it sees at spots[from].
  function PromotedPicture(seen: PieceColorType, piece: PieceColorType): PieceColorType {
    if seen == WhiteMan then WhiteKing else if seen == BlackMan then BlackKing else piece
  }

  /** What make_move writes: the promotion test reads spots[from] after it has been cleared. */
  function ShowMove(spots: Shown, m: Move): Shown {
    var piece := spots[m.from];
    var cleared := spots[m.from := None];
    var picture := if IsPromotion(m) then PromotedPicture(cleared[m.from], piece) else piece;
    var placed := cleared[m.to := picture];
    if IsCapture(m) && CapturedIndex(m) < 32 then placed[CapturedIndex(m) := None] else placed
  }

  function StartShown(): Shown {
    seq(32, s requires 0 <= s < 32 => if s >= 20 then WhiteMan else if s < 12 then BlackMan else None)
  }

  /** The second board after a game. */
  function ShownAfter(ms: seq<Move>): Shown {
    if ms == [] then StartShown() else ShowMove(ShownAfter(ms[..|ms| - 1]), ms[|ms| - 1])
  }

  // ---------- How far it mirrors the engine ----------

  /** Every piece shown is on the board, in its colour. */
  predicate ShowsOnlyPieces(spots: Shown, p: Position) {
    forall s: Spot :: spots[s] != None ==> s in Pieces(p, ColorOf(spots[s]))
  }

  /** Every piece on the board is shown. */
  predicate ShowsAllPieces(spots: Shown, p: Position) {
    forall s: Spot :: s in p.white + p.black ==> spots[s] != None
  }

  predicate ShowsNoKings(spots: Shown) {
    forall s: Spot :: spots[s] != WhiteKing && spots[s] != BlackKing
  }

  lemma ShownMove(spots: Shown, m: Move, d: Direction, p: Position)
    requires IsValidTowards(p, m, d) && (IsCapture(m) <==> IsJump(m.from, d, m.to))
    ensures m.from != m.to
    ensures forall s: Spot :: ShowMove(spots, m)[s] ==
              if IsCapture(m) && s == Next(m.from, d) then None
              else if s == m.to then spots[m.from]
              else if s == m.from then None
              else spots[s]
  {
    hide IsCapture, IsPromotion, CapturedIndex, CanStep, CanJump, Next, HasNext;
    CapturedIndexIsMidpoint(m, d);
    if IsStep(m.from, d, m.to) {
      StepBits(m.from, d, m.to);
    } else {
      JumpBits(m.from, d, m.to);
    }
  }

  lemma MirrorAfterEffect(spots: Shown, shown: Shown, p: Position, m: Move, q: Position, captured: set<Spot>,
                          capture: bool, mid: Spot)
    requires Consistent(p) && Effect(p, m, q, captured) && ShowsOnlyPieces(spots, p)
    requires captured <= (if capture then {mid} else {}) && MovedOn(spots, shown, m.from, m.to, capture, mid)
    requires capture ==> mid in Theirs(p)
    ensures ShowsOnlyPieces(shown, q)
    ensures ShowsAllPieces(spots, p) ==> (ShowsAllPieces(shown, q) <==> !capture || mid in captured)
    ensures ShowsNoKings(spots) ==> ShowsNoKings(shown)
  {
    hide Effect, ShowsOnlyPieces, ShowsAllPieces, OwnerChange, Pieces;
    EffectChangesOwners(p, m, q, captured);
    StillOnlyPieces(spots, shown, p, q, m.from, m.to, captured, capture, mid);
    AllPiecesBySide(spots, p, p.turn);
    AllPiecesBySide(shown, q, p.turn);
    if ShowsAllPieces(spots, p) {
      StillAllPieces(spots, shown, Own(p), Theirs(p), Pieces(q, p.turn), Pieces(q, Opponent(p.turn)),
                     m.from, m.to, captured, capture, mid);
    }
  }

  lemma ShownOn(spots: Shown, m: Move, d: Direction, p: Position, mid: Spot)
    requires IsValidTowards(p, m, d) && (IsCapture(m) <==> IsJump(m.from, d, m.to))
    requires mid == if IsCapture(m) then Next(m.from, d) else m.from
    ensures MovedOn(spots, ShowMove(spots, m), m.from, m.to, IsCapture(m), mid)
  {
    hide IsCapture, ShowMove, Next, HasNext, IsStep;
    ShownMove(spots, m, d, p);
  }

  /** One offered move: shown pieces stay pieces of their colour, and the boards still agree on every spot
      unless, and only if, the move was a wrapped capture. */
  lemma MirrorStep(spots: Shown, p: Position, m: Move)
    requires Consistent(p) && Offers(p, m) && ShowsOnlyPieces(spots, p)
    ensures var shown, q := ShowMove(spots, m), Play(p, m);
            && ShowsOnlyPieces(shown, q)
            && (ShowsAllPieces(spots, p) ==> (ShowsAllPieces(shown, q) <==> !(IsCapture(m) && Wrapped(m))))
            && (ShowsNoKings(spots) ==> ShowsNoKings(shown))
  {
    hide IsCapture, IsPromotion, Wrapped, Play, HitSpots, KindOf, HasNext, Next, ShowMove, Effect, Captured;
    hide ShowsOnlyPieces, ShowsAllPieces, ShowsNoKings, Consistent, MovedOn, IsJump, IsStep;
    OfferedIsValid(p, m);
    MoveEffect(p, m);
    var d :| d in Directions(p, m.from) && OffersTowards(p, m, d);
    MoveTowards(p, m, d);
    var mid := if IsCapture(m) then Next(m.from, d) else m.from;
    ShownOn(spots, m, d, p, mid);
    MirrorAfterEffect(spots, ShowMove(spots, m), p, m, Play(p, m), Captured(p, m), IsCapture(m), mid);
  }

  lemma MoveTowards(p: Position, m: Move, d: Direction)
    requires Offers(p, m) && OffersTowards(p, m, d)
    ensures IsValidTowards(p, m, d) && (IsCapture(m) <==> IsJump(m.from, d, m.to))
    ensures IsCapture(m) ==> Next(m.from, d) in Theirs(p)
    ensures Captured(p, m) == if IsCapture(m) && !Wrapped(m) then {Next(m.from, d)} else {}
  {
    hide IsPromotion, Wrapped, Play, HitSpots, KindOf, HasNext, Next;
    OfferedIsValid(p, m);
    if CanCapture(p) {
      JumpIsNoStep(m, d);
    } else {
      StepIsNoJump(m, d);
    }
    forall e | CanJump(p, m.from, e) && IsJump(m.from, e, m.to) ensures e == d {
      MoveShapeIsUnique(m.from, m.to, d, e);
    }
  }

  lemma JumpIsNoStep(m: Move, d: Direction)
    requires IsJump(m.from, d, m.to)
    ensures !IsStep(m.from, d, m.to)
  {
    MoveShapeIsUnique(m.from, m.to, d, d);
  }

  lemma StepIsNoJump(m: Move, d: Direction)
    requires IsStep(m.from, d, m.to)
    ensures !IsJump(m.from, d, m.to)
  {
    MoveShapeIsUnique(m.from, m.to, d, d);
  }

  // The second board after a move from `from` to `to` that empties `mid` if `capture`.
  predicate MovedOn(spots: Shown, shown: Shown, from: Spot, to: Spot, capture: bool, mid: Spot) {
    forall s: Spot :: shown[s] ==
      if capture && s == mid then None else if s == to then spots[from] else if s == from then None else spots[s]
  }

  // The effect of a move, spot by spot.
  predicate OwnerChange(own: set<Spot>, theirs: set<Spot>, own': set<Spot>, theirs': set<Spot>, from: Spot, to: Spot,
                        captured: set<Spot>) {
    && own !! theirs && from in own && to !in own && to !in theirs && captured <= theirs
    && (forall s: Spot :: s in own' <==> s == to || (s in own && s != from))
    && (forall s: Spot :: s in theirs' <==> s in theirs && s !in captured)
  }

  lemma EffectChangesOwners(p: Position, m: Move, q: Position, captured: set<Spot>)
    requires Consistent(p) && Effect(p, m, q, captured)
    ensures OwnerChange(Own(p), Theirs(p), Pieces(q, p.turn), Pieces(q, Opponent(p.turn)), m.from, m.to, captured)
  {
    hide IsPromotion;
    ConsistentSides(p);
  }

  predicate Colored(spots: Shown, s: Spot, c: Side) {
    spots[s] != None && ColorOf(spots[s]) == c
  }

  lemma OnlyPiecesBySide(spots: Shown, p: Position, c: Side)
    ensures ShowsOnlyPieces(spots, p) <==>
            forall s: Spot :: && (Colored(spots, s, c) ==> s in Pieces(p, c))
                              && (Colored(spots, s, Opponent(c)) ==> s in Pieces(p, Opponent(c)))
  {
    forall s: Spot | spots[s] != None ensures Colored(spots, s, c) || Colored(spots, s, Opponent(c)) {
    }
    if ShowsOnlyPieces(spots, p) {
      forall s: Spot
        ensures Colored(spots, s, c) ==> s in Pieces(p, c)
        ensures Colored(spots, s, Opponent(c)) ==> s in Pieces(p, Opponent(c))
      {
      }
    }
  }

  lemma StillOnlyPieces(spots: Shown, shown: Shown, p: Position, q: Position, from: Spot, to: Spot,
                        captured: set<Spot>, capture: bool, mid: Spot)
    requires OwnerChange(Own(p), Theirs(p), Pieces(q, p.turn), Pieces(q, Opponent(p.turn)), from, to, captured)
    requires ShowsOnlyPieces(spots, p)
    requires captured <= (if capture then {mid} else {}) && MovedOn(spots, shown, from, to, capture, mid)
    ensures ShowsOnlyPieces(shown, q)
  {
    hide ShowsOnlyPieces, Pieces, ColorOf;
    OnlyPiecesBySide(spots, p, p.turn);
    OnlyPiecesBySide(shown, q, p.turn);
  }

  lemma StillAllPieces(spots: Shown, shown: Shown, own: set<Spot>, theirs: set<Spot>, own': set<Spot>,
                       theirs': set<Spot>, from: Spot, to: Spot, captured: set<Spot>, capture: bool, mid: Spot)
    requires OwnerChange(own, theirs, own', theirs', from, to, captured)
    requires captured <= (if capture then {mid} else {}) && MovedOn(spots, shown, from, to, capture, mid)
    requires capture ==> mid in theirs
    requires forall s: Spot :: s in own || s in theirs ==> spots[s] != None
    ensures (forall s: Spot :: s in own' || s in theirs' ==> shown[s] != None) <==> !capture || mid in captured
  {
    if capture && mid !in captured {
      assert mid in theirs' && shown[mid] == None;
    }
  }

  lemma AllPiecesBySide(spots: Shown, p: Position, c: Side)
    ensures ShowsAllPieces(spots, p) <==>
            forall s: Spot :: s in Pieces(p, c) || s in Pieces(p, Opponent(c)) ==> spots[s] != None
  {
  }

  lemma StartIsMirrored()
    ensures ShowsOnlyPieces(StartShown(), Start()) && ShowsAllPieces(StartShown(), Start()) &&
            ShowsNoKings(StartShown())
  {
    hide Row;
    forall s: Spot ensures (Row(s) >= 5 <==> s >= 20) && (Row(s) <= 2 <==> s < 12) {
      StartRows(s);
    }
  }

  predicate NoWrappedCapture(ms: seq<Move>) {
    forall m :: m in ms ==> !(IsCapture(m) && Wrapped(m))
  }

  /** Over every game the shown pieces are pieces of the engine in their colour, the two boards occupy the
      same spots as long as no capture wrapped, and no king is ever shown as one. */
  lemma {:induction false} MirrorOverGames(ms: seq<Move>)
    requires Legal(ms)
    ensures ShowsOnlyPieces(ShownAfter(ms), Replay(ms))
    ensures NoWrappedCapture(ms) ==> ShowsAllPieces(ShownAfter(ms), Replay(ms))
    ensures ShowsNoKings(ShownAfter(ms))
  {
    hide ShowMove, Play, Sound, ShowsOnlyPieces, ShowsAllPieces, ShowsNoKings, Offers, IsCapture, Wrapped;
    if ms == [] {
      StartIsMirrored();
    } else {
      var ns, m := ms[..|ms| - 1], ms[|ms| - 1];
      MirrorOverGames(ns);
      ReachableIsSound(ns);
      SoundIsConsistent(Replay(ns));
      MirrorStep(ShownAfter(ns), Replay(ns), m);
      assert NoWrappedCapture(ms) ==> NoWrappedCapture(ns) && !(IsCapture(m) && Wrapped(m)) by {
        assert m in ms && forall x :: x in ns ==> x in ms;
      }
    }
  }

  // ---------- The class ----------

  lemma LegalExtends(ms: seq<Move>, m: Move)
    requires Legal(ms) && Offers(Replay(ms), m)
    ensures Legal(ms + [m]) && Replay(ms + [m]) == Play(Replay(ms), m)
    ensures ShownAfter(ms + [m]) == ShowMove(ShownAfter(ms), m)
  {
    hide Play, ShowMove, Offers, Legal, Replay;
    LegalAppend(ms, m);
    assert (ms + [m])[..|ms|] == ms;
  }

  lemma StartStands(o: OccupiedSpot)
    ensures Stands(Start(), o) <==> StartShown()[o.index] == PictureOf(o)
  {
    hide Row;
    StartRows(o.index);
    assert o.color == White || o.color == Black;
  }

  lemma StartShowsMen(s: Spot)
    ensures StartShown()[s] in {None, WhiteMan, BlackMan}
  {
  }

  lemma EmptyGame()
    ensures Legal([]) && Replay([]) == Start() && ShownAfter([]) == StartShown()
  {
  }

  class CheckersModel {
    const engine: CheckersEngine
    const spots: array<PieceColorType>
    // The moves made so far.
    ghost var log: seq<Move>

    ghost predicate Valid()
      reads this, engine, engine.pieces, spots
    {
      && engine.Ready() && spots.Length == 32
      && Legal(log) && Abs(engine.State()) == Replay(log) && spots[..] == ShownAfter(log)
    }

    constructor ()
      ensures Valid() && log == [] && fresh(engine) && fresh(engine.pieces) && fresh(spots)
    {
      engine := new CheckersEngine();
      spots := new PieceColorType[32](_ => None);
      new;
      Setup();
    }

    // The body of the constructor: engine.reset() and a copy of engine.board().
    method Setup()
      requires engine.pieces.Length == 2 && spots.Length == 32 && forall s: Spot :: spots[s] == None
      modifies this, engine, engine.pieces, spots
      ensures Valid() && log == []
    {
      hide Abs, Start, StartShown, Stands, BoardList, Distinct, Legal, Replay, ShownAfter;
      log := [];
      engine.Reset();
      assert forall s: Spot :: spots[s] == None;
      var board := engine.BoardSpots();
      ShowStart(board);
      EmptyGame();
    }

    // Copies the pieces of the start position onto the second board.
    method ShowStart(board: seq<OccupiedSpot>)
      requires spots.Length == 32 && forall s: Spot :: spots[s] == None
      requires forall o :: o in board <==> Stands(Start(), o)
      modifies spots
      ensures spots[..] == StartShown()
    {
      hide Start, StartShown, Stands;
      for i := 0 to |board|
        invariant forall s: Spot :: spots[s] == None || spots[s] == StartShown()[s]
        invariant forall j :: 0 <= j < i ==> spots[board[j].index] == StartShown()[board[j].index]
      {
        assert board[i] in board;
        StartStands(board[i]);
        spots[board[i].index] := PictureOf(board[i]);
      }
      forall s: Spot ensures spots[s] == StartShown()[s] {
        StartShowsMen(s);
        if StartShown()[s] != None {
          var o := OccupiedSpot(Man, ColorOf(StartShown()[s]), s);
          StartStands(o);
          assert o in board;
        }
      }
    }

    // The writes of make_move to the second board.
    method Show(m: Move)
      requires spots.Length == 32 && (IsCapture(m) ==> CapturedIndex(m) < 32)
      modifies spots
      ensures spots[..] == ShowMove(old(spots[..]), m)
    {
      hide IsCapture, IsPromotion, CapturedIndex;
      var piece := spots[m.from];
      spots[m.from] := None;
      if IsPromotion(m) {
        spots[m.to] := PromotedPicture(spots[m.from], piece);
      } else {
        spots[m.to] := piece;
      }
      if IsCapture(m) {
        spots[CapturedIndex(m)] := None;
      }
    }

    /** make_move(): plays the one offered move between the two spots, if there is one, on both boards. */
    method MakeMove(from: Spot, to: Spot) returns (kind: bv8)
      requires Valid()
      modifies this, engine, engine.pieces, spots
      ensures Valid()
      ensures if exists m :: Offers(Replay(old(log)), m) && m.from == from && m.to == to
              then log == old(log) + [Move(from, to, kind)] && Offers(Replay(old(log)), Move(from, to, kind))
              else log == old(log) && kind == 4
    {
      hide Abs, Distinct, ValidMoveListFrom, PlayWords;
      hide Play, ShowMove, Start, Offers, IsCapture, IsPromotion, CapturedIndex, ShownAfter, Replay, Legal;
      ghost var p := Replay(log);
      var moves := engine.ValidMovesFrom(from);
      for i := 0 to |moves|
        invariant forall j :: 0 <= j < i ==> moves[j].to != to
      {
        var m := moves[i];
        assert m in moves;
        if m.from == from && m.to == to {
          LegalExtends(log, m);
          OfferedKinds(p, m);
          if IsCapture(m) {
            OfferedCaptureIndex(p, m);
          }
          engine.MakeMove(m);
          Show(m);
          log := log + [m];
          return m.kind;
        }
      }
      return INVALID;
    }
  }

  lemma OfferedKinds(p: Position, m: Move)
    requires Offers(p, m)
    ensures m.kind != INVALID
  {
  }

  /** The index the client clears for an offered capture is a spot of the board: the opponent's, between. */
  lemma OfferedCaptureIndex(p: Position, m: Move)
    requires Offers(p, m) && IsCapture(m)
    ensures CapturedIndex(m) < 32 && CapturedIndex(m) in Theirs(p)
    ensures exists d :: IsJump(m.from, d, m.to) && CapturedIndex(m) == Next(m.from, d)
  {
    hide CapturedIndex, IsCapture, KindOf, HasNext, Next;
    OfferedIsValid(p, m);
    var d :| d in Directions(p, m.from) && OffersTowards(p, m, d);
    CapturedIndexIsMidpoint(m, d);
  }
}
