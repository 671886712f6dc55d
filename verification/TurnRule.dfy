/** The rule for keeping the turn. It is meant to say that the piece that has just captured can capture
    again; the code asks it of a man on the new square and of a king on the square just left. */
module TurnRule {
  import opened Board
  import opened Rules
  import opened Game

  /** The piece that has just captured can capture again. */
  ghost predicate CanContinue(p: Position, m: Move) {
    IsCapture(m) && exists d :: d in Directions(Moved(p, m), m.to) && CanJump(Moved(p, m), m.to, d)
  }

  predicate JumpsFrom(p: Position, s: Spot, ds: set<Direction>) {
    JumpTargets(p, {s}, ds) != {}
  }

  lemma JumpsFromMeans(p: Position, s: Spot, ds: set<Direction>)
    ensures JumpsFrom(p, s, ds) <==> exists d :: d in ds && CanJump(p, s, d)
  {
    hide HasLanding, Landing, Occupied, Theirs;
    if d :| d in ds && CanJump(p, s, d) {
      assert Landing(s, d) in JumpTargets(p, {s}, ds);
    }
    if JumpsFrom(p, s, ds) {
      var t :| t in JumpTargets(p, {s}, ds);
    }
  }

  lemma EveryDirection(c: Side, d: Direction)
    ensures d in EVERYWHERE && (d in Forward(c) <==> d !in Forward(Opponent(c)))
  {
  }

  lemma MovedTurn(p: Position, m: Move)
    ensures Moved(p, m).turn == p.turn
  {
  }

  lemma KeepsTurnMeans(p: Position, m: Move)
    requires IsCapture(m)
    ensures KeepsTurn(p, m) <==>
            (JumpsFrom(Moved(p, m), m.to, Forward(p.turn)) || JumpsFrom(Moved(p, m), m.from, EVERYWHERE))
  {
    hide JumpTargets, Moved;
  }

  // ---------- What a capture opens and closes ----------

  /** An offered capture in direction d. */
  ghost predicate CapturesTowards(p: Position, m: Move, d: Direction) {
    Consistent(p) && Offers(p, m) && CanCapture(p) && CanJump(p, m.from, d) && IsJump(m.from, d, m.to)
  }

  lemma ShapesDiffer(s: Spot, d: Direction, e: Direction)
    requires HasNext(s, d) && HasLanding(s, e) && d != e
    ensures Next(s, e) != Next(s, d) && Landing(s, e) != Next(s, d) && Landing(s, e) != s
    ensures HasLanding(s, d) ==> Landing(s, e) != Landing(s, d)
  {
    hide HasNext, Next;
    JumpBits(s, e, Landing(s, e));
    if Next(s, e) == Next(s, d) || Landing(s, e) == Next(s, d) {
      MoveShapeIsUnique(s, Next(s, d), d, e);
    }
    if HasLanding(s, d) && Landing(s, e) == Landing(s, d) {
      MoveShapeIsUnique(s, Landing(s, d), d, e);
    }
  }

  lemma JumpBack(s: Spot, d: Direction)
    requires HasLanding(s, d)
    ensures HasLanding(Landing(s, d), Opposite(d))
    ensures Next(Landing(s, d), Opposite(d)) == Next(s, d) && Landing(Landing(s, d), Opposite(d)) == s
  {
    hide HasNext, Next;
    NextThereAndBack(s, d);
    NextThereAndBack(Next(s, d), d);
  }

  lemma MovedEffect(p: Position, m: Move)
    requires Consistent(p) && IsValid(p, m)
    ensures Effect(p, m, Moved(p, m), Captured(p, m))
  {
    hide Captured, Moved, IsValid, KeepsTurn, IsPromotion;
    MoveEffect(p, m);
    MovedPieces(p, m);
  }

  lemma CaptureRemoves(p: Position, m: Move, d: Direction)
    requires CapturesTowards(p, m, d)
    ensures Captured(p, m) == if Wrapped(m) then {} else {Next(m.from, d)}
    ensures IsCapture(m) && (IsPromotion(m) <==> m.from !in p.kings && OnOppositeBase(m.to, p.turn))
    ensures Effect(p, m, Moved(p, m), Captured(p, m)) && Next(m.from, d) in Theirs(p)
  {
    hide Wrapped, HitSpots, HasNext, Next, KindOf, IsCapture, IsPromotion, Moved, Effect, OnOppositeBase, CanCapture;
    OfferedIsValid(p, m);
    CapturedIsHit(p, m);
    JumpHitsMidpoint(m, d);
    MovedEffect(p, m);
  }

  // The board after the capture: only the jumped piece may be gone.
  lemma AfterCapture(p: Position, m: Move, d: Direction)
    requires CapturesTowards(p, m, d)
    ensures var q := Moved(p, m);
            && IsCapture(m) && q.turn == p.turn && Next(m.from, d) in Theirs(p) && m.from in Own(p)
            && Theirs(q) == Theirs(p) - (if Wrapped(m) then {} else {Next(m.from, d)})
            && Occupied(q) == Occupied(p) - {m.from} + {m.to} - (if Wrapped(m) then {} else {Next(m.from, d)})
            && (m.to in q.kings <==> m.from in p.kings || OnOppositeBase(m.to, p.turn))
  {
    hide Wrapped, IsCapture, IsPromotion, Next, Moved, Captured, OnOppositeBase, Occupied, Offers, CanJump, IsJump;
    CaptureRemoves(p, m, d);
    MovedTurn(p, m);
    SidesAfter(p, m, Moved(p, m), Captured(p, m));
    OccupiedBySides(p);
    OccupiedBySides(Moved(p, m));
  }

  lemma SidesAfter(p: Position, m: Move, q: Position, captured: set<Spot>)
    requires Consistent(p) && Effect(p, m, q, captured) && q.turn == p.turn
    ensures Theirs(q) == Theirs(p) - captured
    ensures Own(q) + Theirs(q) == Own(p) + Theirs(p) - {m.from} + {m.to} - captured
    ensures m.from in Own(p) && m.to !in p.kings
    ensures m.to in q.kings <==> m.from in p.kings || IsPromotion(m)
  {
    hide IsPromotion;
    ConsistentSides(p);
  }

  lemma OccupiedBySides(p: Position)
    requires Consistent(p)
    ensures Occupied(p) == Own(p) + Theirs(p)
  {
  }

  /** From the square just left the same captures are open as before the move, but for the one just made. */
  lemma JumpsFromVacated(p: Position, m: Move, d: Direction, e: Direction)
    requires CapturesTowards(p, m, d)
    ensures CanJump(Moved(p, m), m.from, e) <==> e != d && CanJump(p, m.from, e)
  {
    hide HasNext, Next, Occupied, Theirs, Moved, Offers, CanCapture, Wrapped;
    AfterCapture(p, m, d);
    if HasLanding(m.from, e) && e != d {
      ShapesDiffer(m.from, d, e);
    }
  }

  /** From the new square the same captures are open as before the move, and after a wrapped capture also the
      one back over the piece that is still there. */
  lemma JumpsFromLanding(p: Position, m: Move, d: Direction, e: Direction)
    requires CapturesTowards(p, m, d)
    ensures CanJump(Moved(p, m), m.to, e) <==> CanJump(p, m.to, e) || (Wrapped(m) && e == Opposite(d))
  {
    hide HasNext, Next, Occupied, Theirs, Moved, Offers, CanCapture, Wrapped;
    AfterCapture(p, m, d);
    OwnIsOccupied(p, m.from);
    JumpBack(m.from, d);
    if HasLanding(m.to, e) && e != Opposite(d) {
      ShapesDiffer(m.to, Opposite(d), e);
    }
  }

  lemma OwnIsOccupied(p: Position, s: Spot)
    ensures s in Own(p) ==> s in Occupied(p)
  {
  }

  // ---------- When the turn is right ----------

  /** On the board before the move: from the new square a capture is open in one of the directions, or the
      jump back after a wrapped capture is one of them. */
  ghost predicate Onward(p: Position, m: Move, d: Direction, ds: set<Direction>) {
    exists e :: e in ds && (CanJump(p, m.to, e) || (Wrapped(m) && e == Opposite(d)))
  }

  /** On the board before the move: another capture is open from the square the piece leaves, for a king. */
  ghost predicate OtherCapture(p: Position, m: Move, d: Direction) {
    exists e :: e != d && CanJump(p, m.from, e)
  }

  predicate EndsAsKing(p: Position, m: Move) {
    m.from in p.kings || OnOppositeBase(m.to, p.turn)
  }

  /** After an offered capture the turn is kept exactly when the capturing piece can capture again, if and only
      if the board before the move is such that a forward capture is open from the new square, or another
      capture is open from the old square just when the piece ends as a king with a backward capture open. */
  lemma TurnIsRight(p: Position, m: Move, d: Direction)
    requires CapturesTowards(p, m, d)
    ensures (KeepsTurn(p, m) <==> CanContinue(p, m)) <==>
            (Onward(p, m, d, Forward(p.turn)) ||
             (OtherCapture(p, m, d) <==> EndsAsKing(p, m) && Onward(p, m, d, Forward(Opponent(p.turn)))))
  {
    hide CanJump, JumpsFrom, Forward, Moved, EVERYWHERE, CapturesTowards, IsCapture, Wrapped, OnOppositeBase;
    var q := Moved(p, m);
    AfterCapture(p, m, d);
    forall e: Direction
      ensures CanJump(q, m.from, e) <==> e != d && CanJump(p, m.from, e)
      ensures CanJump(q, m.to, e) <==> CanJump(p, m.to, e) || (Wrapped(m) && e == Opposite(d))
      ensures e in EVERYWHERE && (e in Forward(p.turn) <==> e !in Forward(Opponent(p.turn)))
    {
      JumpsFromVacated(p, m, d, e);
      JumpsFromLanding(p, m, d, e);
      EveryDirection(p.turn, e);
    }
    JumpsFromMeans(q, m.to, Forward(p.turn));
    JumpsFromMeans(q, m.from, EVERYWHERE);
    KeepsTurnMeans(p, m);
    ContinuesMeans(p, m);
    assert JumpsFrom(q, m.from, EVERYWHERE) <==> OtherCapture(p, m, d);
    assert JumpsFrom(q, m.to, Forward(p.turn)) <==> Onward(p, m, d, Forward(p.turn));
    JumpsFromMeans(q, m.to, Forward(Opponent(p.turn)));
    assert JumpsFrom(q, m.to, Forward(Opponent(p.turn))) <==> Onward(p, m, d, Forward(Opponent(p.turn)));
  }

  lemma ContinuesMeans(p: Position, m: Move)
    requires IsCapture(m)
    ensures var q := Moved(p, m);
            CanContinue(p, m) <==> JumpsFrom(q, m.to, Forward(q.turn)) ||
                                   (m.to in q.kings && JumpsFrom(q, m.to, Forward(Opponent(q.turn))))
  {
    hide CanJump, Moved, JumpsFrom, Forward, EVERYWHERE, IsCapture;
    var q := Moved(p, m);
    JumpsFromMeans(q, m.to, Forward(q.turn));
    JumpsFromMeans(q, m.to, Forward(Opponent(q.turn)));
    forall d: Direction {
      EveryDirection(q.turn, d);
    }
  }
}
