/** The game on sets of spots: what the bitboard engine is meant to compute, written with board
    coordinates only. The one thing taken from the words is HitSpots, because make_move finds the jumped
    piece from a plain difference of bit indices. */
module Rules {
  import opened Board

  // MoveType is a byte; CAPTURE and PROMOTION are its two lowest bits.
  const NORMAL: bv8 := 0
  const CAPTURE: bv8 := 1
  const PROMOTION: bv8 := 2
  const CAPTURE_PROMOTION: bv8 := 3

  datatype Move = Move(from: Spot, to: Spot, kind: bv8)

  predicate IsCapture(m: Move) {
    m.kind & CAPTURE != 0
  }

  predicate IsPromotion(m: Move) {
    m.kind & PROMOTION != 0
  }

  datatype Position = Position(white: set<Spot>, black: set<Spot>, kings: set<Spot>, turn: Side)

  function Pieces(p: Position, c: Side): set<Spot> {
    if c == White then p.white else p.black
  }

  function Own(p: Position): set<Spot> {
    Pieces(p, p.turn)
  }

  function Theirs(p: Position): set<Spot> {
    Pieces(p, Opponent(p.turn))
  }

  function Occupied(p: Position): set<Spot> {
    p.white + p.black + p.kings
  }

  const EVERYWHERE: set<Direction> := {NorthWest, NorthEast, SouthEast, SouthWest}

  function Forward(c: Side): set<Direction> {
    if c == White then {NorthWest, NorthEast} else {SouthEast, SouthWest}
  }

  function Directions(p: Position, s: Spot): set<Direction> {
    if s in p.kings then EVERYWHERE else Forward(p.turn)
  }

  // ---------- Geometry of a move ----------

  predicate IsStep(s: Spot, d: Direction, t: Spot) {
    HasNext(s, d) && Next(s, d) == t
  }

  predicate HasLanding(s: Spot, d: Direction) {
    HasNext(s, d) && HasNext(Next(s, d), d)
  }

  function Landing(s: Spot, d: Direction): Spot
    requires HasLanding(s, d)
  {
    Next(Next(s, d), d)
  }

  predicate IsJump(s: Spot, d: Direction, t: Spot) {
    HasLanding(s, d) && Landing(s, d) == t
  }

  predicate CanStep(p: Position, s: Spot, d: Direction) {
    HasNext(s, d) && Next(s, d) !in Occupied(p)
  }

  predicate CanJump(p: Position, s: Spot, d: Direction) {
    HasLanding(s, d) && Next(s, d) in Theirs(p) && Landing(s, d) !in Occupied(p)
  }

  function StepTargets(p: Position, from: set<Spot>, ds: set<Direction>): set<Spot> {
    set s, d | s in from && d in ds && CanStep(p, s, d) :: Next(s, d)
  }

  function JumpTargets(p: Position, from: set<Spot>, ds: set<Direction>): set<Spot> {
    set s, d | s in from && d in ds && CanJump(p, s, d) :: Landing(s, d)
  }

  // The distance in bit indices of a step or jump is only right modulo 32.
  predicate Wrapped(m: Move) {
    SpotBitIndex(m.to) - SpotBitIndex(m.from) !in {2, -2, 14, -14}
  }

  // The bit make_move clears when a capture goes from bit i to bit j, or -1 if no case of its switch applies.
  function HitBit(i: BitIndex, j: BitIndex): int {
    if j - i == 2 then i + 1
    else if j - i == 14 then i + 7
    else if j - i == -14 then j + 7
    else if j - i == -2 then j + 1
    else -1
  }

  /** The spots make_move clears for a capture: the one between, when the plain difference of the bit
      indices is exactly twice a direction, and none otherwise. */
  function HitSpots(m: Move): set<Spot> {
    var k := HitBit(SpotBitIndex(m.from), SpotBitIndex(m.to));
    if k < 0 then {} else {SpotOfBit(k)}
  }

  lemma StepBits(s: Spot, d: Direction, t: Spot)
    requires IsStep(s, d, t)
    ensures SpotBitIndex(t) == Wrap(SpotBitIndex(s) + Delta(d)) && s != t
  {
    NextBitIndex(s, d);
  }

  lemma JumpBits(s: Spot, d: Direction, t: Spot)
    requires IsJump(s, d, t)
    ensures SpotBitIndex(Next(s, d)) == Wrap(SpotBitIndex(s) + Delta(d))
    ensures SpotBitIndex(t) == Wrap(SpotBitIndex(Next(s, d)) + Delta(d))
    ensures s != t && s != Next(s, d) && t != Next(s, d)
  {
    NextBitIndex(s, d);
    NextBitIndex(Next(s, d), d);
  }

  lemma HitBitOfStep(i: BitIndex, j: BitIndex, d: Direction)
    requires j == Wrap(i + Delta(d))
    ensures HitBit(i, j) == -1
  {
  }

  lemma HitBitOfJump(i: BitIndex, k: BitIndex, j: BitIndex, d: Direction)
    requires k == Wrap(i + Delta(d)) && j == Wrap(k + Delta(d))
    ensures HitBit(i, j) == if j - i in {2, -2, 14, -14} then k else -1
  {
  }

  lemma StepHitsNothing(m: Move, d: Direction)
    requires IsStep(m.from, d, m.to)
    ensures HitSpots(m) == {}
  {
    StepBits(m.from, d, m.to);
    HitBitOfStep(SpotBitIndex(m.from), SpotBitIndex(m.to), d);
  }

  lemma JumpHitsMidpoint(m: Move, d: Direction)
    requires IsJump(m.from, d, m.to)
    ensures HitSpots(m) == if Wrapped(m) then {} else {Next(m.from, d)}
  {
    JumpBits(m.from, d, m.to);
    HitBitOfJump(SpotBitIndex(m.from), SpotBitIndex(Next(m.from, d)), SpotBitIndex(m.to), d);
    SpotBitIndexInverse(Next(m.from, d));
  }

  /** A pair of spots is at most one of a step and a jump, in at most one direction. */
  lemma MoveShapeIsUnique(s: Spot, t: Spot, d: Direction, e: Direction)
    requires IsStep(s, d, t) || IsJump(s, d, t)
    requires IsStep(s, e, t) || IsJump(s, e, t)
    ensures d == e && (IsStep(s, d, t) <==> !IsJump(s, d, t))
  {
    ShapeBits(s, t, d);
    ShapeBits(s, t, e);
  }

  lemma ShapeBits(s: Spot, t: Spot, d: Direction)
    ensures IsStep(s, d, t) ==> Wrap(SpotBitIndex(s) + Delta(d)) == SpotBitIndex(t)
    ensures IsJump(s, d, t) ==> Wrap(Wrap(SpotBitIndex(s) + Delta(d)) + Delta(d)) == SpotBitIndex(t)
  {
    if IsStep(s, d, t) {
      StepBits(s, d, t);
    }
    if IsJump(s, d, t) {
      JumpBits(s, d, t);
    }
  }

  lemma JumpCoordinates(s: Spot, d: Direction)
    requires HasLanding(s, d)
    ensures OnBoard(Row(s) + 2 * DRow(d), Col(s) + 2 * DCol(d))
    ensures SpotBitIndex(Landing(s, d)) == Wrap(Wrap(SpotBitIndex(s) + Delta(d)) + Delta(d))
  {
    JumpBits(s, d, Landing(s, d));
    NextCoordinates(s, d);
  }

  lemma WrappedByDirection(s: Spot, d: Direction)
    requires OnBoard(Row(s) + 2 * DRow(d), Col(s) + 2 * DCol(d))
    ensures var j := Wrap(Wrap(SpotBitIndex(s) + Delta(d)) + Delta(d));
            j - SpotBitIndex(s) !in {2, -2, 14, -14} <==>
            (d == NorthWest && SpotBitIndex(s) in {20, 21, 22, 23, 28, 29}) ||
            (d == SouthEast && SpotBitIndex(s) in {2, 3, 4, 5, 10, 11})
  {
  }

  /** The twelve jumps whose bit indices wrap: north-west from bits 20-23, 28 and 29, south-east from
      bits 2-5, 10 and 11. */
  lemma WrappedJumps(m: Move, d: Direction)
    requires IsJump(m.from, d, m.to)
    ensures Wrapped(m) <==>
            (d == NorthWest && SpotBitIndex(m.from) in {20, 21, 22, 23, 28, 29}) ||
            (d == SouthEast && SpotBitIndex(m.from) in {2, 3, 4, 5, 10, 11})
  {
    JumpCoordinates(m.from, d);
    WrappedByDirection(m.from, d);
  }

  // ---------- Moves ----------

  /** The check the server makes. It looks at neither the type byte nor the duty to capture. */
  ghost predicate IsValid(p: Position, m: Move) {
    m.from in Own(p) &&
    exists d :: d in Directions(p, m.from) && IsValidTowards(p, m, d)
  }

  predicate IsValidTowards(p: Position, m: Move, d: Direction) {
    (CanStep(p, m.from, d) && IsStep(m.from, d, m.to)) || (CanJump(p, m.from, d) && IsJump(m.from, d, m.to))
  }

  function WithPieces(p: Position, own: set<Spot>, theirs: set<Spot>, kings: set<Spot>): Position {
    if p.turn == White then Position(own, theirs, kings, p.turn) else Position(theirs, own, kings, p.turn)
  }

  // The board after a move, before the turn is decided.
  function Moved(p: Position, m: Move): Position {
    var kings := (if m.from in p.kings || IsPromotion(m) then p.kings + {m.to} else p.kings) - {m.from};
    var hit := if IsCapture(m) then HitSpots(m) else {};
    WithPieces(p, Own(p) + {m.to} - {m.from}, Theirs(p) - hit, kings - hit)
  }

  /** The mover keeps the turn after a capture if a man on `to`, or a king on the vacated `from`, could
      capture. The second square is the one the code looks at. */
  predicate KeepsTurn(p: Position, m: Move) {
    IsCapture(m) &&
    (JumpTargets(Moved(p, m), {m.to}, Forward(p.turn)) != {} || JumpTargets(Moved(p, m), {m.from}, EVERYWHERE) != {})
  }

  function Play(p: Position, m: Move): Position {
    if KeepsTurn(p, m) then Moved(p, m) else Moved(p, m).(turn := Opponent(p.turn))
  }

  ghost predicate CanCapture(p: Position) {
    exists s, d :: s in Own(p) && d in Directions(p, s) && CanJump(p, s, d)
  }

  function BaseRow(c: Side): int {
    if c == White then 7 else 0
  }

  predicate OnOppositeBase(s: Spot, c: Side) {
    Row(s) == BaseRow(Opponent(c))
  }

  /** The type byte a generated move carries. */
  function KindOf(p: Position, from: Spot, to: Spot, capture: bool): bv8 {
    var promotes := from !in p.kings && OnOppositeBase(to, p.turn);
    if capture then (if promotes then CAPTURE_PROMOTION else CAPTURE) else if promotes then PROMOTION else NORMAL
  }

  /** The moves a player may choose from: captures if there are any, else steps. */
  ghost predicate Offers(p: Position, m: Move) {
    m.from in Own(p) && m.kind == KindOf(p, m.from, m.to, CanCapture(p)) &&
    exists d :: d in Directions(p, m.from) && OffersTowards(p, m, d)
  }

  ghost predicate OffersTowards(p: Position, m: Move, d: Direction) {
    if CanCapture(p) then CanJump(p, m.from, d) && IsJump(m.from, d, m.to)
    else CanStep(p, m.from, d) && IsStep(m.from, d, m.to)
  }

  function Start(): Position {
    Position(set s: Spot | Row(s) >= 5, set s: Spot | Row(s) <= 2, {}, White)
  }
}
