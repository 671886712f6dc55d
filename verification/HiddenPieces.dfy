/** Exactly what the client's second board misses: the pieces jumped in a wrapped capture and not really
    captured since. They stay on the engine's board, can move there, and are not shown. */
module HiddenPieces {
  import opened Board
  import opened Rules
  import opened Engine
  import opened Game
  import opened ClientModel

  // A hidden piece keeps being hidden when it moves; a wrapped capture hides the piece jumped over, and any
  // other capture takes the piece jumped over, hidden or not.
  function HiddenAfter(hidden: set<Spot>, m: Move): set<Spot> {
    var moved := if m.from in hidden then hidden - {m.from} + {m.to} else hidden;
    if !IsCapture(m) || CapturedIndex(m) >= 32 then moved
    else if Wrapped(m) then moved + {CapturedIndex(m)}
    else moved - {CapturedIndex(m)}
  }

  /** The hidden pieces after a game. */
  function Hidden(ms: seq<Move>): set<Spot> {
    if ms == [] then {} else HiddenAfter(Hidden(ms[..|ms| - 1]), ms[|ms| - 1])
  }

  // Of the pieces on the board exactly the hidden ones are not shown.
  predicate Hides(spots: Shown, own: set<Spot>, theirs: set<Spot>, hidden: set<Spot>) {
    hidden <= own + theirs && forall s: Spot :: s in own || s in theirs ==> (spots[s] == None <==> s in hidden)
  }

  lemma StillHides(spots: Shown, shown: Shown, own: set<Spot>, theirs: set<Spot>, own': set<Spot>, theirs': set<Spot>,
                   from: Spot, to: Spot, captured: set<Spot>, capture: bool, mid: Spot, h: set<Spot>, h': set<Spot>)
    requires OwnerChange(own, theirs, own', theirs', from, to, captured) && Hides(spots, own, theirs, h)
    requires MovedOn(spots, shown, from, to, capture, mid) && (capture ==> mid in theirs)
    requires captured == {} || (capture && captured == {mid})
    requires var moved := if from in h then h - {from} + {to} else h;
             h' == if !capture then moved else if captured == {} then moved + {mid} else moved - {mid}
    ensures Hides(shown, own', theirs', h')
  {
  }

  lemma HidesBySide(spots: Shown, p: Position, c: Side, h: set<Spot>)
    ensures Hides(spots, p.white, p.black, h) <==> Hides(spots, Pieces(p, c), Pieces(p, Opponent(c)), h)
  {
    assert p.white + p.black == p.black + p.white;
  }

  lemma HiddenStep(spots: Shown, p: Position, m: Move, h: set<Spot>)
    requires Consistent(p) && Offers(p, m) && Hides(spots, p.white, p.black, h)
    ensures var q := Play(p, m); Hides(ShowMove(spots, m), q.white, q.black, HiddenAfter(h, m))
  {
    hide IsCapture, IsPromotion, Wrapped, Play, HitSpots, KindOf, HasNext, Next, ShowMove, Effect, Captured;
    hide CapturedIndex;
    hide Hides, Consistent, OwnerChange, MovedOn, IsJump, IsStep, HiddenAfter;
    OfferedIsValid(p, m);
    MoveEffect(p, m);
    var d :| d in Directions(p, m.from) && OffersTowards(p, m, d);
    MoveTowards(p, m, d);
    var q, captured := Play(p, m), Captured(p, m);
    var mid := if IsCapture(m) then Next(m.from, d) else m.from;
    ShownOn(spots, m, d, p, mid);
    HiddenAtMidpoint(h, m, d, mid);
    EffectChangesOwners(p, m, q, captured);
    HidesBySide(spots, p, p.turn, h);
    HidesBySide(ShowMove(spots, m), q, p.turn, HiddenAfter(h, m));
    StillHides(spots, ShowMove(spots, m), Own(p), Theirs(p), Pieces(q, p.turn), Pieces(q, Opponent(p.turn)),
               m.from, m.to, captured, IsCapture(m), mid, h, HiddenAfter(h, m));
  }

  lemma HiddenAtMidpoint(h: set<Spot>, m: Move, d: Direction, mid: Spot)
    requires IsCapture(m) ==> IsJump(m.from, d, m.to) && mid == Next(m.from, d)
    ensures var moved := if m.from in h then h - {m.from} + {m.to} else h;
            HiddenAfter(h, m) == if !IsCapture(m) then moved else if Wrapped(m) then moved + {mid} else moved - {mid}
  {
    hide IsCapture, Wrapped, CapturedIndex, HasNext, Next;
    CapturedIndexIsMidpoint(m, d);
  }

  /** Over every game, wrapped captures or not: of the engine's pieces exactly the hidden ones are not shown. So
      the boards occupy the same spots if and only if no piece is hidden. */
  lemma {:induction false} MirrorMissesTheHidden(ms: seq<Move>)
    requires Legal(ms)
    ensures var p, shown := Replay(ms), ShownAfter(ms);
            && ShowsOnlyPieces(shown, p) && Hidden(ms) <= p.white + p.black
            && (forall s: Spot :: s in p.white + p.black ==> (shown[s] == None <==> s in Hidden(ms)))
            && (ShowsAllPieces(shown, p) <==> Hidden(ms) == {})
  {
    hide ShowMove, Play, Sound, ShowsOnlyPieces, Offers, HiddenAfter, Start, StartShown, Legal, Replay;
    hide ShownAfter, Hidden;
    MirrorOverGames(ms);
    HiddenOverGames(ms);
  }

  lemma {:induction false} HiddenOverGames(ms: seq<Move>)
    requires Legal(ms)
    ensures Hides(ShownAfter(ms), Replay(ms).white, Replay(ms).black, Hidden(ms))
  {
    hide ShowMove, Play, Sound, ShowsOnlyPieces, Offers, HiddenAfter, Start, StartShown, Hides;
    if ms == [] {
      StartIsMirrored();
      NothingHidden(StartShown(), Start());
    } else {
      var ns, m := ms[..|ms| - 1], ms[|ms| - 1];
      HiddenOverGames(ns);
      ReachableIsSound(ns);
      SoundIsConsistent(Replay(ns));
      HiddenStep(ShownAfter(ns), Replay(ns), m, Hidden(ns));
    }
  }

  lemma NothingHidden(spots: Shown, p: Position)
    requires ShowsAllPieces(spots, p)
    ensures Hides(spots, p.white, p.black, {})
  {
  }

  /** One more piece is hidden after a wrapped capture of a shown one, one less after a capture that takes a
      hidden one, and as many otherwise. */
  lemma HiddenCounts(ms: seq<Move>, m: Move)
    requires Legal(ms) && Offers(Replay(ms), m)
    ensures |Hidden(ms + [m])| == |Hidden(ms)| +
            (if !IsCapture(m) || (CapturedIndex(m) in Hidden(ms) <==> Wrapped(m)) then 0
             else if Wrapped(m) then 1 else -1)
  {
    hide IsCapture, Wrapped, CapturedIndex, Play, KindOf, Effect, Captured, CountsKept, IsValid, Occupied, Hides;
    hide ShownAfter, Replay, Offers, HiddenAfter, Hidden;
    var p, h := Replay(ms), Hidden(ms);
    HiddenOverGames(ms);
    ReachableIsSound(ms);
    SoundIsConsistent(p);
    OfferedIsValid(p, m);
    MoveEffect(p, m);
    CapturedIsHit(p, m);
    HiddenPush(ms, m);
    OnlyPiecesHide(ShownAfter(ms), p, h, m.to);
    if IsCapture(m) {
      OfferedCaptureIndex(p, m);
    }
    FromIsOwn(p, m);
    HiddenSizes(h, p, m);
  }

  lemma FromIsOwn(p: Position, m: Move)
    requires Consistent(p) && Offers(p, m)
    ensures m.from in Own(p) && m.from !in Theirs(p)
  {
    hide CanCapture, OffersTowards, KindOf;
  }

  lemma OnlyPiecesHide(spots: Shown, p: Position, h: set<Spot>, t: Spot)
    requires Hides(spots, p.white, p.black, h) && t !in Occupied(p)
    ensures t !in h
  {
  }

  lemma HiddenPush(ms: seq<Move>, m: Move)
    ensures Hidden(ms + [m]) == HiddenAfter(Hidden(ms), m)
  {
    assert (ms + [m])[..|ms|] == ms;
  }

  lemma HiddenSizes(h: set<Spot>, p: Position, m: Move)
    requires m.to !in h && m.from !in Theirs(p) && m.to !in Occupied(p)
    requires IsCapture(m) ==> CapturedIndex(m) < 32 && CapturedIndex(m) in Theirs(p)
    ensures |HiddenAfter(h, m)| == |h| + (if !IsCapture(m) || (CapturedIndex(m) in h <==> Wrapped(m)) then 0
                                          else if Wrapped(m) then 1 else -1)
  {
    hide IsCapture, Wrapped, CapturedIndex;
    var moved := if m.from in h then h - {m.from} + {m.to} else h;
    assert |moved| == |h|;
    if IsCapture(m) {
      var c: Spot := CapturedIndex(m);
      assert c != m.from && c != m.to;
      assert c in moved <==> c in h;
      if c in h {
        assert moved + {c} == moved;
        assert |moved - {c}| == |moved| - 1;
      } else {
        assert moved - {c} == moved;
        assert |moved + {c}| == |moved| + 1;
      }
    }
  }
}
