/** One game from the start position in which every oddity of the capture rules shows. Its positions are given
    as the engine's words, and each ply is checked on the words. */
module OneGame {
  import opened Board
  import opened Rules
  import opened Game
  import opened Engine
  import opened MoveLists
  import opened TurnRule

  // ---------- Playing on words ----------

  // The move is in the list of valid moves, and q is the board after it, before the turn is decided.
  predicate Listed(e: Words, m: Move, pass: Pass, q: Words) {
    && (Captures(e) != BITBOARD_EMPTY <==> pass.capture)
    && And(Movers(e, pass), SpotBit(m.from)) != BITBOARD_EMPTY
    && And(Targets(e, m.from, pass), SpotBit(m.to)) != BITBOARD_EMPTY
    && m.kind == Kind(e, m.to, pass) && MovedWords(e, m) == q
  }

  predicate StaysOnWords(q: Words, m: Move) {
    ManCaptureMoves(q, SpotBit(m.to)) != BITBOARD_EMPTY || KingCaptureMoves(q, SpotBit(m.from)) != BITBOARD_EMPTY
  }

  lemma ListedIsOffered(e: Words, m: Move, pass: Pass, q: Words)
    requires Listed(e, m, pass, q)
    ensures Offers(Abs(e), m) && Moved(Abs(e), m) == Abs(q) && (IsCapture(m) <==> pass.capture)
  {
    hide Spots, SpotBit, Captures, Movers, Targets, Kind, MovedWords, Moved, And, Offers, IsCapture;
    CapturesRefine(e);
    SpotBitsMeet(Movers(e, pass), m.from);
    SpotBitsMeet(Targets(e, m.from, pass), m.to);
    PassOffers(e, m, pass);
    MovedRefines(e, m);
    OfferedIsValid(Abs(e), m);
  }

  lemma StaysRefines(e: Words, m: Move, q: Words)
    requires MovedWords(e, m) == q && IsCapture(m)
    ensures KeepsTurn(Abs(e), m) <==> StaysOnWords(q, m)
  {
    hide Spots, SpotBit, MovedWords, ManCaptureMoves, KingCaptureMoves, IsCapture, JumpTargets, Moved;
    MovedRefines(e, m);
    MovedKeepsTurn(e, m);
    SpotsOfSpotBit(m.to);
    SpotsOfSpotBit(m.from);
    CaptureMovesRefine(q, SpotBit(m.to));
    CaptureMovesRefine(q, SpotBit(m.from));
    EmptyIffNoSpots(ManCaptureMoves(q, SpotBit(m.to)));
    EmptyIffNoSpots(KingCaptureMoves(q, SpotBit(m.from)));
  }

  // Whether the capturing piece, a king now, can capture again.
  lemma KingContinues(e: Words, m: Move, q: Words)
    requires MovedWords(e, m) == q && IsCapture(m) && And(q.kings, SpotBit(m.to)) != BITBOARD_EMPTY
    ensures CanContinue(Abs(e), m) <==> KingCaptureMoves(q, SpotBit(m.to)) != BITBOARD_EMPTY
  {
    hide Spots, SpotBit, MovedWords, KingCaptureMoves, And, IsCapture, JumpTargets, Moved, CanJump;
    MovedRefines(e, m);
    SpotBitsMeet(q.kings, m.to);
    SpotsOfSpotBit(m.to);
    CaptureMovesRefine(q, SpotBit(m.to));
    EmptyIffNoSpots(KingCaptureMoves(q, SpotBit(m.to)));
    JumpsFromMeans(Abs(q), m.to, EVERYWHERE);
  }

  /** One more listed ply, from e to f. */
  lemma Extend(ms: seq<Move>, k: nat, e: Words, pass: Pass, f: Words)
    requires k < |ms| && Legal(ms[..k]) && Replay(ms[..k]) == Abs(e) && Listed(e, ms[k], pass, f.(turn := e.turn))
    requires f.turn == e.turn <==> pass.capture && StaysOnWords(f.(turn := e.turn), ms[k])
    ensures Legal(ms[..k + 1]) && Replay(ms[..k + 1]) == Abs(f) == Play(Abs(e), ms[k])
    ensures Offers(Abs(e), ms[k])
  {
    hide Legal, Replay, Offers, Moved, StaysOnWords, Spots, IsCapture, KeepsTurn;
    var m, q := ms[k], f.(turn := e.turn);
    ListedIsOffered(e, m, pass, q);
    if IsCapture(m) {
      StaysRefines(e, m, q);
    } else {
      QuietPasses(Abs(e), m);
    }
    assert f.turn != e.turn ==> f.turn == Opponent(e.turn);
    LegalAppend(ms[..k], m);
    assert ms[..k] + [m] == ms[..k + 1];
  }

  lemma QuietPasses(p: Position, m: Move)
    requires !IsCapture(m)
    ensures !KeepsTurn(p, m)
  {
  }

  // The word of a single spot.
  lemma Bit(s: Spot, w: Word)
    requires w == BitMask(SpotBitIndex(s))
    ensures SpotBit(s) == Bitboard(w)
  {
  }

  // ---------- The game ----------

  const GAME: seq<Move> := [
    Move(22, 17, NORMAL), Move(10, 15, NORMAL),
    Move(26, 22, NORMAL), Move(15, 19, NORMAL),
    Move(23, 18, NORMAL), Move(19, 23, NORMAL),
    Move(30, 26, NORMAL), Move(23, 30, CAPTURE_PROMOTION),
    Move(7, 10, NORMAL), Move(21, 16, NORMAL),
    Move(30, 21, CAPTURE), Move(29, 25, NORMAL)
  ]

  // The first k plies of the game are legal and lead to the board e.
  ghost predicate Reached(k: nat, e: Words) {
    k <= |GAME| && Legal(GAME[..k]) && Replay(GAME[..k]) == Abs(e)
  }

  lemma Reach(k: nat, e: Words, m: Move, pass: Pass, f: Words)
    requires Reached(k, e) && k < |GAME| && GAME[k] == m && Listed(e, m, pass, f.(turn := e.turn))
    requires f.turn == e.turn <==> pass.capture && StaysOnWords(f.(turn := e.turn), m)
    ensures Reached(k + 1, f)
  {
    hide Legal, Replay, Listed, Abs, StaysOnWords, Offers;
    Extend(GAME, k, e, pass, f);
  }

  // The boards of the game.
  const AFTER_0 := Words(Bitboard(0x041c71c3), Bitboard(0xe3820c38), Bitboard(0x00000000), White)
  const AFTER_1 := Words(Bitboard(0x043c31c3), Bitboard(0xe3820c38), Bitboard(0x00000000), Black)
  const AFTER_2 := Words(Bitboard(0x043c31c3), Bitboard(0xe3030c38), Bitboard(0x00000000), White)
  const AFTER_3 := Words(Bitboard(0x043c7143), Bitboard(0xe3030c38), Bitboard(0x00000000), Black)
  const AFTER_4 := Words(Bitboard(0x043c7143), Bitboard(0xe3020e38), Bitboard(0x00000000), White)
  const AFTER_5 := Words(Bitboard(0x043cf043), Bitboard(0xe3020e38), Bitboard(0x00000000), Black)
  const AFTER_6 := Words(Bitboard(0x043cf043), Bitboard(0xe3020d38), Bitboard(0x00000000), White)
  const AFTER_7 := Words(Bitboard(0x043cf083), Bitboard(0xe3020d38), Bitboard(0x00000000), Black)
  const AFTER_8 := Words(Bitboard(0x043cf003), Bitboard(0xe3020c78), Bitboard(0x00000040), Black)
  const AFTER_9 := Words(Bitboard(0x043cf003), Bitboard(0xe2820c78), Bitboard(0x00000040), White)
  const AFTER_10 := Words(Bitboard(0x0c2cf003), Bitboard(0xe2820c78), Bitboard(0x00000040), Black)
  const AFTER_11 := Words(Bitboard(0x0c2cd003), Bitboard(0xe2920c38), Bitboard(0x00100000), White)
  const AFTER_12 := Words(Bitboard(0x0c2ce003), Bitboard(0xe2920c38), Bitboard(0x00100000), Black)

  // From the last board on, Black's king on 21 can jump over the white piece on 16 and back.
  const OUT := Move(21, 12, CAPTURE)
  const BACK := Move(12, 21, CAPTURE)
  const THERE := Words(Bitboard(0x0c2ce003), Bitboard(0xe2820c3c), Bitboard(0x00000004), Black)

  lemma Ply1()
    ensures Listed(AFTER_0, Move(22, 17, NORMAL), Pass(true, false), AFTER_1.(turn := AFTER_0.turn))
  {
    Bit(22, 0x00004000);
    Bit(17, 0x00200000);
    hide SpotBit, BitMask;
  }

  lemma Ply2()
    ensures Listed(AFTER_1, Move(10, 15, NORMAL), Pass(true, false), AFTER_2.(turn := AFTER_1.turn))
  {
    Bit(10, 0x00800000);
    Bit(15, 0x00010000);
    hide SpotBit, BitMask;
  }

  lemma Ply3()
    ensures Listed(AFTER_2, Move(26, 22, NORMAL), Pass(true, false), AFTER_3.(turn := AFTER_2.turn))
  {
    Bit(26, 0x00000080);
    Bit(22, 0x00004000);
    hide SpotBit, BitMask;
  }

  lemma Ply4()
    ensures Listed(AFTER_3, Move(15, 19, NORMAL), Pass(true, false), AFTER_4.(turn := AFTER_3.turn))
  {
    Bit(15, 0x00010000);
    Bit(19, 0x00000200);
    hide SpotBit, BitMask;
  }

  lemma Ply5()
    ensures Listed(AFTER_4, Move(23, 18, NORMAL), Pass(true, false), AFTER_5.(turn := AFTER_4.turn))
  {
    Bit(23, 0x00000100);
    Bit(18, 0x00008000);
    hide SpotBit, BitMask;
  }

  lemma Ply6()
    ensures Listed(AFTER_5, Move(19, 23, NORMAL), Pass(true, false), AFTER_6.(turn := AFTER_5.turn))
  {
    Bit(19, 0x00000200);
    Bit(23, 0x00000100);
    hide SpotBit, BitMask;
  }

  lemma Ply7()
    ensures Listed(AFTER_6, Move(30, 26, NORMAL), Pass(true, false), AFTER_7.(turn := AFTER_6.turn))
  {
    Bit(30, 0x00000040);
    Bit(26, 0x00000080);
    hide SpotBit, BitMask;
  }

  lemma Ply8()
    ensures Listed(AFTER_7, Move(23, 30, CAPTURE_PROMOTION), Pass(true, true), AFTER_8.(turn := AFTER_7.turn))
  {
    Bit(23, 0x00000100);
    Bit(30, 0x00000040);
    hide SpotBit, BitMask;
  }

  lemma TurnPly8()
    ensures StaysOnWords(AFTER_8.(turn := AFTER_7.turn), Move(23, 30, CAPTURE_PROMOTION))
  {
    Bit(23, 0x00000100);
    Bit(30, 0x00000040);
    hide SpotBit, BitMask;
  }

  lemma Ply9()
    ensures Listed(AFTER_8, Move(7, 10, NORMAL), Pass(true, false), AFTER_9.(turn := AFTER_8.turn))
  {
    Bit(7, 0x01000000);
    Bit(10, 0x00800000);
    hide SpotBit, BitMask;
  }

  lemma Ply10()
    ensures Listed(AFTER_9, Move(21, 16, NORMAL), Pass(true, false), AFTER_10.(turn := AFTER_9.turn))
  {
    Bit(21, 0x00100000);
    Bit(16, 0x08000000);
    hide SpotBit, BitMask;
  }

  lemma Ply11()
    ensures Listed(AFTER_10, Move(30, 21, CAPTURE), Pass(false, true), AFTER_11.(turn := AFTER_10.turn))
  {
    Bit(30, 0x00000040);
    Bit(21, 0x00100000);
    hide SpotBit, BitMask;
  }

  lemma TurnPly11()
    ensures !StaysOnWords(AFTER_11.(turn := AFTER_10.turn), Move(30, 21, CAPTURE))
  {
    Bit(30, 0x00000040);
    Bit(21, 0x00100000);
    hide SpotBit, BitMask;
  }

  lemma Ply12()
    ensures Listed(AFTER_11, Move(29, 25, NORMAL), Pass(true, false), AFTER_12.(turn := AFTER_11.turn))
  {
    Bit(29, 0x00001000);
    Bit(25, 0x00002000);
    hide SpotBit, BitMask;
  }

  lemma PlyOut()
    ensures Listed(AFTER_12, OUT, Pass(false, true), THERE.(turn := AFTER_12.turn))
  {
    Bit(21, 0x00100000);
    Bit(12, 0x00000004);
    hide SpotBit, BitMask;
  }

  lemma TurnPlyOut()
    ensures StaysOnWords(THERE.(turn := AFTER_12.turn), OUT)
  {
    Bit(21, 0x00100000);
    Bit(12, 0x00000004);
    hide SpotBit, BitMask;
  }

  lemma PlyBack()
    ensures Listed(THERE, BACK, Pass(false, true), AFTER_12.(turn := THERE.turn))
  {
    Bit(12, 0x00000004);
    Bit(21, 0x00100000);
    hide SpotBit, BitMask;
  }

  lemma TurnPlyBack()
    ensures StaysOnWords(AFTER_12.(turn := THERE.turn), BACK)
  {
    Bit(12, 0x00000004);
    Bit(21, 0x00100000);
    hide SpotBit, BitMask;
  }

  // ---------- The game is legal ----------

  lemma GameStarts()
    ensures Reached(0, AFTER_0)
  {
    hide Spots;
    StartConstants();
  }

  /** White may open with 22 to 17, and then it is Black's turn. */
  lemma FirstMove()
    ensures Offers(Start(), GAME[0]) && Play(Start(), GAME[0]).turn == Black
  {
    hide Legal, Replay, Listed, StaysOnWords, Spots, Offers;
    StartConstants();
    Ply1();
    ListedIsOffered(AFTER_0, GAME[0], Pass(true, false), AFTER_1.(turn := AFTER_0.turn));
    QuietPasses(Abs(AFTER_0), GAME[0]);
    MovedTurn(Abs(AFTER_0), GAME[0]);
  }

  lemma PlayedToSeven()
    ensures Reached(7, AFTER_7)
  {
    hide Reached, Listed, StaysOnWords;
    GameStarts();
    Ply1();
    Reach(0, AFTER_0, Move(22, 17, NORMAL), Pass(true, false), AFTER_1);
    Ply2();
    Reach(1, AFTER_1, Move(10, 15, NORMAL), Pass(true, false), AFTER_2);
    Ply3();
    Reach(2, AFTER_2, Move(26, 22, NORMAL), Pass(true, false), AFTER_3);
    Ply4();
    Reach(3, AFTER_3, Move(15, 19, NORMAL), Pass(true, false), AFTER_4);
    Ply5();
    Reach(4, AFTER_4, Move(23, 18, NORMAL), Pass(true, false), AFTER_5);
    Ply6();
    Reach(5, AFTER_5, Move(19, 23, NORMAL), Pass(true, false), AFTER_6);
    Ply7();
    Reach(6, AFTER_6, Move(30, 26, NORMAL), Pass(true, false), AFTER_7);
  }

  lemma PlayedToTen()
    ensures Reached(10, AFTER_10)
  {
    hide Reached, Listed, StaysOnWords;
    PlayedToSeven();
    Ply8();
    TurnPly8();
    Reach(7, AFTER_7, Move(23, 30, CAPTURE_PROMOTION), Pass(true, true), AFTER_8);
    Ply9();
    Reach(8, AFTER_8, Move(7, 10, NORMAL), Pass(true, false), AFTER_9);
    Ply10();
    Reach(9, AFTER_9, Move(21, 16, NORMAL), Pass(true, false), AFTER_10);
  }

  lemma PlayedOut()
    ensures Reached(12, AFTER_12)
  {
    hide Reached, Listed, StaysOnWords;
    PlayedToTen();
    Ply11();
    TurnPly11();
    Reach(10, AFTER_10, Move(30, 21, CAPTURE), Pass(false, true), AFTER_11);
    Ply12();
    Reach(11, AFTER_11, Move(29, 25, NORMAL), Pass(true, false), AFTER_12);
  }

  // ---------- What shows in it ----------

  lemma NoContinuationAtThirty()
    ensures var q := AFTER_8.(turn := AFTER_7.turn);
            And(q.kings, SpotBit(30)) != BITBOARD_EMPTY && KingCaptureMoves(q, SpotBit(30)) == BITBOARD_EMPTY
  {
    Bit(30, 0x00000040);
    hide SpotBit, BitMask;
  }

  lemma NoCaptureAfterEight()
    ensures Captures(AFTER_8) == BITBOARD_EMPTY
  {
  }

  lemma ContinuationAtTwentyOne()
    ensures var q := AFTER_11.(turn := AFTER_10.turn);
            And(q.kings, SpotBit(21)) != BITBOARD_EMPTY && KingCaptureMoves(q, SpotBit(21)) != BITBOARD_EMPTY
  {
    Bit(21, 0x00100000);
    hide SpotBit, BitMask;
  }

  /** In a game from the start position the turn can be kept by a piece that cannot capture again, with no
      capture open to anyone of its side: Black captures on the eighth ply and then moves once more. */
  lemma TurnKeptWrongly()
    ensures var p, m := Replay(GAME[..7]), GAME[7];
            && Legal(GAME[..7]) && Offers(p, m) && KeepsTurn(p, m) && !CanContinue(p, m)
            && Play(p, m).turn == p.turn && !CanCapture(Play(p, m))
  {
    hide Legal, Replay, Listed, Abs, StaysOnWords, Offers, KeepsTurn, CanContinue, CanCapture, IsCapture, Captures;
    hide Moved, KingCaptureMoves, And, SpotBit, MovedWords;
    var m, q := GAME[7], AFTER_8.(turn := AFTER_7.turn);
    PlayedToSeven();
    Ply8();
    TurnPly8();
    WrongTurn(AFTER_7, m, Pass(true, true), q);
    NoContinuationAtThirty();
    KingContinues(AFTER_7, m, q);
    NoCaptureAfterEight();
    CapturesRefine(AFTER_8);
    assert q == AFTER_8;
    MovedTurn(Abs(AFTER_7), m);
  }

  lemma WrongTurn(e: Words, m: Move, pass: Pass, q: Words)
    requires Listed(e, m, pass, q) && pass.capture
    ensures Offers(Abs(e), m) && IsCapture(m) && MovedWords(e, m) == q && Moved(Abs(e), m) == Abs(q)
    ensures KeepsTurn(Abs(e), m) <==> StaysOnWords(q, m)
  {
    hide Abs, StaysOnWords, Offers, KeepsTurn, IsCapture, Captures, Moved, And, SpotBit;
    ListedIsOffered(e, m, pass, q);
    StaysRefines(e, m, q);
  }

  /** And it can be lost by a king that could capture again: Black's, on the eleventh ply, by a capture that is
      not wrapped. */
  lemma TurnLostWrongly()
    ensures var p, m := Replay(GAME[..10]), GAME[10];
            && Legal(GAME[..10]) && Offers(p, m) && !Wrapped(m) && !KeepsTurn(p, m) && CanContinue(p, m)
            && Play(p, m).turn == Opponent(p.turn)
  {
    hide Legal, Replay, Listed, StaysOnWords, Offers, KeepsTurn, CanContinue, IsCapture, Captures;
    hide Moved, KingCaptureMoves, And, SpotBit, MovedWords, Spots;
    var m, q := GAME[10], AFTER_11.(turn := AFTER_10.turn);
    PlayedToTen();
    Ply11();
    TurnPly11();
    WrongTurn(AFTER_10, m, Pass(false, true), q);
    ContinuationAtTwentyOne();
    KingContinues(AFTER_10, m, q);
  }

  // There and back n times.
  function Rally(n: nat): seq<Move> {
    if n == 0 then GAME else Rally(n - 1) + [OUT, BACK]
  }

  lemma OutAndBack(ms: seq<Move>)
    requires Legal(ms) && Replay(ms) == Abs(AFTER_12)
    ensures Legal(ms + [OUT]) && Replay(ms + [OUT]) == Abs(THERE)
    ensures Legal(ms + [OUT, BACK]) && Replay(ms + [OUT, BACK]) == Abs(AFTER_12)
  {
    hide Legal, Replay, Listed, Abs, StaysOnWords;
    var ns := ms + [OUT, BACK];
    PlyOut();
    TurnPlyOut();
    assert ns[..|ms|] == ms && ns[..|ms| + 1] == ms + [OUT];
    Extend(ns, |ms|, AFTER_12, Pass(false, true), THERE);
    PlyBack();
    TurnPlyBack();
    Extend(ns, |ms| + 1, THERE, Pass(false, true), AFTER_12);
    assert ns[..|ms| + 2] == ns;
  }

  lemma BothAreWrapped()
    ensures IsCapture(OUT) && Wrapped(OUT) && IsCapture(BACK) && Wrapped(BACK)
  {
  }

  /** Without the condition on wrapped captures the bound on holding the turn fails: for every n there is a game
      from the start position in which Black, from the thirteenth ply on, makes 2n captures in a row that take
      nothing, and still has the turn. */
  lemma {:induction false} WrappedCapturesNeedNotEnd(n: nat)
    ensures var ms := Rally(n);
            && Legal(ms) && |ms| == 12 + 2 * n && Replay(ms) == Replay(GAME)
            && (forall i :: 12 <= i <= |ms| ==> Replay(ms[..i]).turn == Black)
            && (forall i :: 12 <= i < |ms| ==> IsCapture(ms[i]) && Wrapped(ms[i]))
  {
    hide Legal, Replay, IsCapture, Wrapped, Spots;
    PlayedOut();
    assert GAME[..12] == GAME;
    if n > 0 {
      var rs, ms := Rally(n - 1), Rally(n);
      WrappedCapturesNeedNotEnd(n - 1);
      OutAndBack(rs);
      BothAreWrapped();
      forall i | 12 <= i <= |ms| ensures Replay(ms[..i]).turn == Black {
        if i <= |rs| {
          assert ms[..i] == rs[..i];
        } else if i == |rs| + 1 {
          assert ms[..i] == rs + [OUT];
        } else {
          assert ms[..i] == ms;
        }
      }
      forall i | 12 <= i < |ms| ensures IsCapture(ms[i]) && Wrapped(ms[i]) {
        assert i < |rs| ==> ms[i] == rs[i];
      }
    }
  }
}
