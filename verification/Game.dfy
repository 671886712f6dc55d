/** What every game keeps: the effect of one move, the invariants of all reachable positions, and two
    bounds on how long a game can go on making progress. */
module Game {
  import opened Board
  import opened Rules

  // ---------- One move ----------

  predicate Consistent(p: Position) {
    p.white !! p.black && p.kings <= p.white + p.black
  }

  /** The opponent's piece a valid move takes off the board. */
  ghost function Captured(p: Position, m: Move): set<Spot> {
    if IsCapture(m) && !Wrapped(m)
    then set d | CanJump(p, m.from, d) && IsJump(m.from, d, m.to) :: Next(m.from, d)
    else {}
  }

  lemma CapturedIsHit(p: Position, m: Move)
    requires IsValid(p, m)
    ensures Captured(p, m) == if IsCapture(m) then HitSpots(m) else {}
    ensures Captured(p, m) <= Theirs(p) && |Captured(p, m)| <= 1
    ensures m.from != m.to && m.to !in Occupied(p)
  {
    hide HasNext, Next, HitSpots, Wrapped, Forward;
    var d :| d in Directions(p, m.from) && IsValidTowards(p, m, d);
    forall e | CanJump(p, m.from, e) && IsJump(m.from, e, m.to) ensures e == d && !IsStep(m.from, d, m.to) {
      MoveShapeIsUnique(m.from, m.to, d, e);
    }
    if IsStep(m.from, d, m.to) {
      StepBits(m.from, d, m.to);
      StepHitsNothing(m, d);
    } else {
      JumpBits(m.from, d, m.to);
      JumpHitsMidpoint(m, d);
    }
    assert Captured(p, m) == {} || Captured(p, m) == {Next(m.from, d)};
  }

  /** q is p after m, with the opponent's pieces in `captured` gone and nothing else touched. */
  predicate Effect(p: Position, m: Move, q: Position, captured: set<Spot>) {
    && Consistent(q)
    && Pieces(q, p.turn) == Own(p) - {m.from} + {m.to}
    && Pieces(q, Opponent(p.turn)) == Theirs(p) - captured
    && q.kings == p.kings - {m.from} - captured + (if m.from in p.kings || IsPromotion(m) then {m.to} else {})
    && m.from in Own(p) && m.to !in Occupied(p) && captured <= Theirs(p)
  }

  /** The mover keeps its number of pieces and the opponent loses at most one. */
  predicate CountsKept(p: Position, q: Position) {
    |Pieces(q, p.turn)| == |Own(p)| && |Theirs(p)| - 1 <= |Pieces(q, Opponent(p.turn))| <= |Theirs(p)|
  }

  lemma MovedSets(own: set<Spot>, theirs: set<Spot>, kings: set<Spot>, from: Spot, to: Spot, hit: set<Spot>,
                  crowned: bool)
    requires own !! theirs && kings <= own + theirs
    requires from in own && to !in own && to !in theirs
    requires hit <= theirs && |hit| <= 1
    ensures own + {to} - {from} == own - {from} + {to}
    ensures |own + {to} - {from}| == |own|
    ensures |theirs| - 1 <= |theirs - hit| <= |theirs|
    ensures own + {to} - {from} !! theirs - hit
    ensures var kings' := (if crowned then kings + {to} else kings) - {from} - hit;
            && kings' <= (own + {to} - {from}) + (theirs - hit)
            && kings' == kings - {from} - hit + (if crowned then {to} else {})
  {
    var rest := own - {from};
    assert own == rest + {from} && own + {to} - {from} == rest + {to};
    assert theirs == (theirs - hit) + hit;
  }

  lemma MovedPieces(p: Position, m: Move)
    ensures var q := Play(p, m);
            && Pieces(q, p.turn) == Pieces(Moved(p, m), p.turn)
            && Pieces(q, Opponent(p.turn)) == Pieces(Moved(p, m), Opponent(p.turn))
            && q.kings == Moved(p, m).kings
            && (Consistent(q) <==> Consistent(Moved(p, m)))
  {
  }

  lemma ConsistentSides(p: Position)
    ensures Consistent(p) <==> Own(p) !! Theirs(p) && p.kings <= Own(p) + Theirs(p)
  {
    assert p.white + p.black == p.black + p.white;
  }

  /** Exactly what a valid move with any type byte does: one own piece changes place, keeping or gaining
      its crown, and the only other piece touched is the one captured. */
  lemma MoveEffect(p: Position, m: Move)
    requires Consistent(p) && IsValid(p, m)
    ensures Effect(p, m, Play(p, m), Captured(p, m))
    ensures CountsKept(p, Play(p, m))
  {
    CapturedIsHit(p, m);
    ConsistentSides(p);
    MovedSets(Own(p), Theirs(p), p.kings, m.from, m.to, Captured(p, m), m.from in p.kings || IsPromotion(m));
    MovedPieces(p, m);
    ConsistentSides(Moved(p, m));
  }

  // ---------- Moves the engine offers ----------

  lemma KindMeans(p: Position, from: Spot, to: Spot, capture: bool)
    ensures var m := Move(from, to, KindOf(p, from, to, capture));
            && (IsCapture(m) <==> capture)
            && (IsPromotion(m) <==> from !in p.kings && OnOppositeBase(to, p.turn))
  {
  }

  /** Every offered move passes the server's check. */
  lemma OfferedIsValid(p: Position, m: Move)
    requires Offers(p, m)
    ensures IsValid(p, m)
    ensures IsCapture(m) <==> CanCapture(p)
    ensures IsPromotion(m) <==> m.from !in p.kings && OnOppositeBase(m.to, p.turn)
  {
    KindMeans(p, m.from, m.to, CanCapture(p));
    var d :| d in Directions(p, m.from) && OffersTowards(p, m, d);
    assert IsValidTowards(p, m, d);
  }

  // Row 0 is at the top, where black's men start.
  predicate FarRow(s: Spot, c: Side) {
    s / 4 == if c == White then 0 else 7
  }

  /** The type byte of an offered move: 1 for a jump, plus 2 if it crowns a man on the far row. */
  lemma OfferedKind(p: Position, m: Move)
    requires Offers(p, m)
    ensures var jump, crown := exists d :: IsJump(m.from, d, m.to), m.from !in p.kings && FarRow(m.to, p.turn);
            m.kind == if jump then (if crown then 3 else 1) else (if crown then 2 else 0)
  {
    hide HasNext, Next, Forward, CanJump, CanStep;
    var d :| d in Directions(p, m.from) && OffersTowards(p, m, d);
    OfferedShape(p, m, d);
    if e :| IsJump(m.from, e, m.to) {
      MoveShapeIsUnique(m.from, m.to, d, e);
    }
  }

  lemma OfferedShape(p: Position, m: Move, d: Direction)
    requires OffersTowards(p, m, d)
    ensures if CanCapture(p) then IsJump(m.from, d, m.to) else IsStep(m.from, d, m.to)
  {
  }

  /** Between two spots at most one move is offered: its type is determined. */
  lemma OfferedMoveIsUnique(p: Position, m: Move, n: Move)
    requires Offers(p, m) && Offers(p, n) && m.from == n.from && m.to == n.to
    ensures m == n
  {
    hide KindOf, OffersTowards, CanCapture;
  }

  /** For an offered capture the hit spot is the geometric midpoint, which holds an opponent; it is taken
      exactly when the bit indices did not wrap. */
  lemma OfferedCapture(p: Position, m: Move, d: Direction)
    requires Consistent(p) && Offers(p, m) && CanCapture(p)
    requires IsJump(m.from, d, m.to)
    ensures Next(m.from, d) in Theirs(p)
    ensures Pieces(Play(p, m), Opponent(p.turn)) == if Wrapped(m) then Theirs(p) else Theirs(p) - {Next(m.from, d)}
  {
    hide Play, HitSpots, Wrapped, KindOf, HasNext, Next;
    OfferedIsValid(p, m);
    MoveEffect(p, m);
    CapturedIsHit(p, m);
    JumpHitsMidpoint(m, d);
    var e :| e in Directions(p, m.from) && OffersTowards(p, m, e);
    MoveShapeIsUnique(m.from, m.to, d, e);
  }

  // ---------- Reachable positions ----------

  function Replay(ms: seq<Move>): Position {
    if ms == [] then Start() else Play(Replay(ms[..|ms| - 1]), ms[|ms| - 1])
  }

  /** Every move was offered when it was played. */
  ghost predicate Legal(ms: seq<Move>) {
    ms == [] || (Legal(ms[..|ms| - 1]) && Offers(Replay(ms[..|ms| - 1]), ms[|ms| - 1]))
  }

  lemma LegalAppend(ms: seq<Move>, m: Move)
    requires Legal(ms) && Offers(Replay(ms), m)
    ensures Legal(ms + [m]) && Replay(ms + [m]) == Play(Replay(ms), m)
    ensures forall k :: 0 <= k <= |ms| ==> (ms + [m])[..k] == ms[..k]
  {
    hide Play, Offers, Start;
    assert (ms + [m])[..|ms|] == ms;
  }

  predicate Crowned(p: Position, c: Side) {
    forall s :: s in Pieces(p, c) && OnOppositeBase(s, c) ==> s in p.kings
  }

  predicate Sound(p: Position) {
    Consistent(p) && |p.white| <= 12 && |p.black| <= 12 && Crowned(p, White) && Crowned(p, Black)
  }

  lemma EffectKeepsSound(p: Position, m: Move, q: Position, captured: set<Spot>)
    requires Sound(p) && Effect(p, m, q, captured) && CountsKept(p, q)
    requires IsPromotion(m) <==> m.from !in p.kings && OnOppositeBase(m.to, p.turn)
    ensures Sound(q) && |q.white| <= |p.white| && |q.black| <= |p.black|
  {
    forall s | s in Pieces(q, p.turn) && OnOppositeBase(s, p.turn) ensures s in q.kings {
      if s != m.to {
        assert s in Own(p) && s !in Theirs(p);
      }
    }
    forall s | s in Pieces(q, Opponent(p.turn)) && OnOppositeBase(s, Opponent(p.turn)) ensures s in q.kings {
      assert s in Theirs(p) && s !in Own(p);
    }
  }

  lemma OfferedKeepsSound(p: Position, m: Move)
    requires Sound(p) && Offers(p, m)
    ensures Sound(Play(p, m))
    ensures |Play(p, m).white| <= |p.white| && |Play(p, m).black| <= |p.black|
  {
    OfferedIsValid(p, m);
    MoveEffect(p, m);
    EffectKeepsSound(p, m, Play(p, m), Captured(p, m));
  }

  lemma SubsetSize<T>(a: set<T>, b: set<T>)
    requires a <= b
    ensures |a| <= |b|
  {
    assert b == a + (b - a);
  }

  lemma StartRows(s: Spot)
    ensures (Row(s) >= 5 <==> s >= 20) && (Row(s) <= 2 <==> s < 12)
  {
  }

  lemma StartCounts()
    ensures |Start().white| <= 12 && |Start().black| <= 12
  {
    hide Row;
    var south := {20, 21, 22, 23, 24, 25, 26, 27, 28, 29, 30, 31};
    var north := {0, 1, 2, 3, 4, 5, 6, 7, 8, 9, 10, 11};
    assert Start().white <= south by {
      forall s: Spot ensures s in Start().white ==> s in south {
        StartRows(s);
      }
    }
    assert Start().black <= north by {
      forall s: Spot ensures s in Start().black ==> s in north {
        StartRows(s);
      }
    }
    SubsetSize(Start().white, south);
    SubsetSize(Start().black, north);
  }

  lemma StartIsSound()
    ensures Sound(Start())
  {
    hide Row;
    StartCounts();
  }

  /** Every position reached by offered moves has disjoint colours, kings on occupied spots, at most
      twelve pieces a side, and no man left uncrowned on the far row. */
  lemma {:induction false} ReachableIsSound(ms: seq<Move>)
    requires Legal(ms)
    ensures Sound(Replay(ms))
  {
    if ms == [] {
      StartIsSound();
    } else {
      ReachableIsSound(ms[..|ms| - 1]);
      OfferedKeepsSound(Replay(ms[..|ms| - 1]), ms[|ms| - 1]);
    }
  }

  // ---------- Distance to promotion ----------

  function ManDistance(p: Position, s: Spot): nat {
    if s in p.kings then 0
    else if s in p.white then Row(s)
    else if s in p.black then 7 - Row(s)
    else 0
  }

  function TotalDistance(p: Position, n: nat := 32): nat
    requires n <= 32
  {
    if n == 0 then 0 else TotalDistance(p, n - 1) + ManDistance(p, n - 1)
  }

  lemma {:induction false} DistanceDifference(p: Position, q: Position, from: Spot, to: Spot, n: nat)
    requires n <= 32 && from != to
    requires forall s: Spot :: s != from && s != to ==> ManDistance(q, s) <= ManDistance(p, s)
    ensures TotalDistance(q, n) - TotalDistance(p, n)
            <= (if from < n then ManDistance(q, from) - ManDistance(p, from) else 0)
               + (if to < n then ManDistance(q, to) - ManDistance(p, to) else 0)
  {
    if n > 0 {
      DistanceDifference(p, q, from, to, n - 1);
    }
  }

  lemma ManAdvances(p: Position, m: Move, d: Direction)
    requires d in Forward(p.turn) && (IsStep(m.from, d, m.to) || IsJump(m.from, d, m.to))
    ensures if p.turn == White then Row(m.to) < Row(m.from) else Row(m.from) < Row(m.to)
  {
    NextCoordinates(m.from, d);
    if IsJump(m.from, d, m.to) {
      NextCoordinates(Next(m.from, d), d);
    }
  }

  lemma DistanceElsewhere(p: Position, m: Move, q: Position, captured: set<Spot>, s: Spot)
    requires Consistent(p) && Effect(p, m, q, captured) && s != m.from && s != m.to
    ensures ManDistance(q, s) <= ManDistance(p, s)
  {
    hide Row, IsPromotion;
  }

  lemma DistancesAfterEffect(p: Position, m: Move, q: Position, captured: set<Spot>)
    requires Consistent(p) && Effect(p, m, q, captured)
    ensures ManDistance(q, m.from) == 0 && ManDistance(p, m.to) == 0
    ensures m.to in q.kings ==> ManDistance(q, m.to) == 0
    ensures forall s: Spot :: s != m.from && s != m.to ==> ManDistance(q, s) <= ManDistance(p, s)
  {
    hide Row, IsPromotion;
    forall s: Spot | s != m.from && s != m.to ensures ManDistance(q, s) <= ManDistance(p, s) {
      DistanceElsewhere(p, m, q, captured, s);
    }
  }

  lemma ManDistanceDrops(p: Position, m: Move, q: Position, captured: set<Spot>, d: Direction)
    requires Consistent(p) && Effect(p, m, q, captured) && m.from !in p.kings
    requires d in Forward(p.turn) && (IsStep(m.from, d, m.to) || IsJump(m.from, d, m.to))
    ensures ManDistance(q, m.to) < ManDistance(p, m.from)
  {
    ManAdvances(p, m, d);
    SpotCoordinates(m.to);
    SpotCoordinates(m.from);
  }

  lemma MoveLowersDistance(p: Position, m: Move)
    requires Sound(p) && Offers(p, m)
    ensures TotalDistance(Play(p, m)) + (if m.from in p.kings then 0 else 1) <= TotalDistance(p)
  {
    OfferedIsValid(p, m);
    MoveEffect(p, m);
    var q, captured := Play(p, m), Captured(p, m);
    DistancesAfterEffect(p, m, q, captured);
    var d :| d in Directions(p, m.from) && OffersTowards(p, m, d);
    if m.from !in p.kings {
      ManDistanceDrops(p, m, q, captured, d);
    }
    DistanceDifference(p, q, m.from, m.to, 32);
  }

  lemma {:induction false} StartDistance(n: nat)
    requires n <= 32
    ensures TotalDistance(Start(), n) ==
            if n <= 4 then 7 * n else if n <= 8 then 28 + 6 * (n - 4) else if n <= 12 then 52 + 5 * (n - 8)
            else if n <= 20 then 72 else if n <= 24 then 72 + 5 * (n - 20)
            else if n <= 28 then 92 + 6 * (n - 24) else 116 + 7 * (n - 28)
  {
    if n > 0 {
      StartDistance(n - 1);
    }
  }

  /** How many moves of a game were made by a man. */
  function ManMoveCount(ms: seq<Move>): nat {
    if ms == [] then 0
    else ManMoveCount(ms[..|ms| - 1]) + (if ms[|ms| - 1].from in Replay(ms[..|ms| - 1]).kings then 0 else 1)
  }

  /** In every game the men's total distance to promotion starts at 144, and each man move uses some up:
      there are never more than 144 man moves. */
  lemma {:induction false} ManMovesAreBounded(ms: seq<Move>)
    requires Legal(ms)
    ensures TotalDistance(Start()) == 144
    ensures ManMoveCount(ms) + TotalDistance(Replay(ms)) <= 144
  {
    StartDistance(32);
    if ms != [] {
      ManMovesAreBounded(ms[..|ms| - 1]);
      ReachableIsSound(ms[..|ms| - 1]);
      MoveLowersDistance(Replay(ms[..|ms| - 1]), ms[|ms| - 1]);
    }
  }

  // ---------- How long one side can hold the turn ----------

  /** From move k on it is always c's turn, and no capture wraps. */
  ghost predicate Holds(ms: seq<Move>, k: nat, c: Side) {
    forall i :: k <= i < |ms| ==> Replay(ms[..i]).turn == c && !(IsCapture(ms[i]) && Wrapped(ms[i]))
  }

  lemma KeepingTheTurnCaptures(p: Position, m: Move)
    requires Sound(p) && Offers(p, m) && !(IsCapture(m) && Wrapped(m)) && Play(p, m).turn == p.turn
    ensures var theirs := Pieces(Play(p, m), Opponent(p.turn)); |theirs| == |Theirs(p)| - 1 && theirs != {}
  {
    OfferedIsValid(p, m);
    assert KeepsTurn(p, m);
    var d :| d in Directions(p, m.from) && OffersTowards(p, m, d);
    OfferedCapture(p, m, d);
    assert Theirs(Moved(p, m)) == Pieces(Play(p, m), Opponent(p.turn));
  }

  lemma OtherSideKeepsPieces(p: Position, m: Move)
    requires Consistent(p) && IsValid(p, m)
    ensures var q := Play(p, m); Theirs(q) != {}
  {
    hide Captured, IsValid, CanJump, Forward, EVERYWHERE, HasLanding, Landing, IsPromotion;
    MoveEffect(p, m);
    var q := Play(p, m);
    if KeepsTurn(p, m) {
      var s, d := SomeJump(q, m.from, m.to);
      JumpsOverTheirs(q, s, d);
    } else {
      assert m.to in Pieces(q, p.turn);
    }
  }

  lemma SomeJump(q: Position, from: Spot, to: Spot) returns (s: Spot, d: Direction)
    requires JumpTargets(q, {to}, Forward(q.turn)) != {} || JumpTargets(q, {from}, EVERYWHERE) != {}
    ensures CanJump(q, s, d)
  {
    hide CanJump, HasLanding, Landing;
    if t :| t in JumpTargets(q, {to}, Forward(q.turn)) {
      d :| CanJump(q, to, d);
      s := to;
    } else {
      var u :| u in JumpTargets(q, {from}, EVERYWHERE);
      d :| CanJump(q, from, d);
      s := from;
    }
  }

  lemma JumpsOverTheirs(q: Position, s: Spot, d: Direction)
    requires CanJump(q, s, d)
    ensures Theirs(q) != {}
  {
  }

  /** The side that is not to move always has a piece. */
  lemma OtherSideHasPieces(ms: seq<Move>)
    requires Legal(ms)
    ensures Theirs(Replay(ms)) != {}
  {
    hide Play, Offers, IsValid, Sound;
    if ms == [] {
      StartRows(0);
      assert 0 in Start().black;
    } else {
      var p, m := Replay(ms[..|ms| - 1]), ms[|ms| - 1];
      ReachableIsSound(ms[..|ms| - 1]);
      SoundIsConsistent(p);
      OfferedIsValid(p, m);
      OtherSideKeepsPieces(p, m);
    }
  }

  lemma SoundIsConsistent(p: Position)
    requires Sound(p)
    ensures Consistent(p)
  {
  }

  /** Without wrapped captures a side makes at most as many moves in a row as the opponent had pieces. */
  lemma {:induction false} TurnHoldingIsBounded(ms: seq<Move>, k: nat, c: Side)
    requires Legal(ms) && k < |ms| && Holds(ms, k, c)
    ensures var before, now := Pieces(Replay(ms[..k]), Opponent(c)), Pieces(Replay(ms[..|ms| - 1]), Opponent(c));
            |now| + (|ms| - 1 - k) == |before| && now != {} && |ms| - k <= |before|
  {
    hide Play, Start, Sound, Offers, IsCapture, Wrapped;
    var ns := ms[..|ms| - 1];
    if k == |ms| - 1 {
      OtherSideHasPieces(ns);
    } else {
      var ps, m := ns[..|ns| - 1], ns[|ns| - 1];
      assert ps == ms[..|ms| - 2] && m == ms[|ms| - 2];
      assert forall i :: k <= i < |ns| ==> ns[..i] == ms[..i] && ns[i] == ms[i];
      TurnHoldingIsBounded(ns, k, c);
      assert ns[..k] == ms[..k];
      var p := Replay(ps);
      assert Legal(ps) && Offers(p, m);
      assert Replay(ns) == Play(p, m);
      assert p.turn == c && Replay(ns).turn == c;
      ReachableIsSound(ps);
      KeepingTheTurnCaptures(p, m);
    }
  }
}
