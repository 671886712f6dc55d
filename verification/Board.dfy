/** The 32 playable spots of the board, seen twice: as (row, column) coordinates and as the bits of a
    32-bit word in the rotated layout of board.h. The lemmas at the end show that the word operations
    (rotations, edge masks, clearing the lowest bit) mean what the coordinates say. */
module Board {

  type Word = bv32

  // A spot index (0..31, row by row from the top) and a bit position in a Bitboard.
  type Spot = s: nat | s < 32
  type BitIndex = i: nat | i < 32

  datatype Color = White | Black | Both

  type Side = c: Color | c != Both witness White

  function Opponent(c: Side): Side {
    if c == White then Black else White
  }

  datatype Direction = NorthWest | NorthEast | SouthEast | SouthWest

  // ---------- Coordinates ----------

  function Row(s: Spot): int {
    if s < 16 then (if s < 8 then (if s < 4 then 0 else 1) else if s < 12 then 2 else 3)
    else if s < 24 then (if s < 20 then 4 else 5) else if s < 28 then 6 else 7
  }

  predicate Odd(r: int) {
    r == 1 || r == 3 || r == 5 || r == 7
  }

  function Col(s: Spot): int {
    2 * (s - 4 * Row(s)) + (if Odd(Row(s)) then 0 else 1)
  }

  predicate OnBoard(r: int, c: int) {
    0 <= r < 8 && 0 <= c < 8
  }

  function SpotAt(r: int, c: int): Spot
    requires OnBoard(r, c)
  {
    4 * r + (if c < 4 then (if c < 2 then 0 else 1) else if c < 6 then 2 else 3)
  }

  /** The coordinates are those of the client: square r*8+c holds spot (r*8+c)/2, and the playable
      squares are the ones whose row and column parities differ. */
  lemma SpotCoordinates(s: Spot)
    ensures OnBoard(Row(s), Col(s)) && Row(s) % 2 != Col(s) % 2
    ensures Odd(Row(s)) != Odd(Col(s)) && SpotAt(Row(s), Col(s)) == s
    ensures (8 * Row(s) + Col(s)) / 2 == s
  {
  }

  lemma SpotAtCoordinates(r: int, c: int)
    requires OnBoard(r, c) && Odd(r) != Odd(c)
    ensures Row(SpotAt(r, c)) == r && Col(SpotAt(r, c)) == c
    ensures SpotAt(r, c) == (8 * r + c) / 2
  {
  }

  function DRow(d: Direction): int {
    if d.NorthWest? || d.NorthEast? then -1 else 1
  }

  function DCol(d: Direction): int {
    if d.NorthWest? || d.SouthWest? then -1 else 1
  }

  function Opposite(d: Direction): Direction {
    match d
    case NorthWest => SouthEast
    case NorthEast => SouthWest
    case SouthEast => NorthWest
    case SouthWest => NorthEast
  }

  /** The diagonal neighbour of s in direction d is a square of the board. */
  predicate HasNext(s: Spot, d: Direction) {
    OnBoard(Row(s) + DRow(d), Col(s) + DCol(d))
  }

  function Next(s: Spot, d: Direction): Spot
    requires HasNext(s, d)
  {
    SpotAt(Row(s) + DRow(d), Col(s) + DCol(d))
  }

  lemma NextCoordinates(s: Spot, d: Direction)
    requires HasNext(s, d)
    ensures Row(Next(s, d)) == Row(s) + DRow(d) && Col(Next(s, d)) == Col(s) + DCol(d)
  {
    SpotCoordinates(s);
    SpotAtCoordinates(Row(s) + DRow(d), Col(s) + DCol(d));
  }

  lemma NextThereAndBack(s: Spot, d: Direction)
    requires HasNext(s, d)
    ensures HasNext(Next(s, d), Opposite(d)) && Next(Next(s, d), Opposite(d)) == s
    ensures Opposite(Opposite(d)) == d
  {
    NextCoordinates(s, d);
    SpotCoordinates(s);
  }

  // ---------- The bit layout ----------

  const SPOT_INDEX_TO_BIT_INDEX: seq<nat> :=
    [11, 5, 31, 25, 10, 4, 30, 24, 3, 29, 23, 17, 2, 28, 22, 16]
    + [27, 21, 15, 9, 26, 20, 14, 8, 19, 13, 7, 1, 18, 12, 6, 0]

  /** The bit of a spot. One step north-east adds 1 and one step north-west adds 7, modulo 32. */
  function SpotBitIndex(s: Spot): BitIndex {
    var n := 14 - 4 * Row(s) - 3 * Col(s);
    if n < 0 then n + 32 else n
  }

  lemma TableIsRotatedLayout(s: Spot)
    ensures |SPOT_INDEX_TO_BIT_INDEX| == 32 && SPOT_INDEX_TO_BIT_INDEX[s] == SpotBitIndex(s)
  {
    match s {
      case 0 => case 1 => case 2 => case 3 => case 4 => case 5 => case 6 => case 7 =>
      case 8 => case 9 => case 10 => case 11 => case 12 => case 13 => case 14 => case 15 =>
      case 16 => case 17 => case 18 => case 19 => case 20 => case 21 => case 22 => case 23 =>
      case 24 => case 25 => case 26 => case 27 => case 28 => case 29 => case 30 => case _ =>
    }
  }

  lemma SpotBitIndexInjective(s: Spot, t: Spot)
    requires SpotBitIndex(s) == SpotBitIndex(t)
    ensures s == t
  {
  }

  /** bit_index_to_spot_index. */
  function SpotOfBit(i: BitIndex): Spot {
    match i
    case 0 => 31  case 1 => 27  case 2 => 12  case 3 => 8
    case 4 => 5  case 5 => 1  case 6 => 30  case 7 => 26
    case 8 => 23  case 9 => 19  case 10 => 4  case 11 => 0
    case 12 => 29  case 13 => 25  case 14 => 22  case 15 => 18
    case 16 => 15  case 17 => 11  case 18 => 28  case 19 => 24
    case 20 => 21  case 21 => 17  case 22 => 14  case 23 => 10
    case 24 => 7  case 25 => 3  case 26 => 20  case 27 => 16
    case 28 => 13  case 29 => 9  case 30 => 6  case _ => 2
  }

  lemma SpotOfLowBit(i: BitIndex)
    requires i < 16
    ensures SpotBitIndex(SpotOfBit(i)) == i
  {
    match i {
      case 0 => case 1 => case 2 => case 3 => case 4 => case 5 => case 6 => case 7 =>
      case 8 => case 9 => case 10 => case 11 => case 12 => case 13 => case 14 => case _ =>
    }
  }

  lemma SpotOfHighBit(i: BitIndex)
    requires 16 <= i
    ensures SpotBitIndex(SpotOfBit(i)) == i
  {
    match i {
      case 16 => case 17 => case 18 => case 19 => case 20 => case 21 => case 22 => case 23 =>
      case 24 => case 25 => case 26 => case 27 => case 28 => case 29 => case 30 => case _ =>
    }
  }

  lemma SpotOfBitInverse(i: BitIndex)
    ensures SpotBitIndex(SpotOfBit(i)) == i
  {
    if i < 16 {
      SpotOfLowBit(i);
    } else {
      SpotOfHighBit(i);
    }
  }

  lemma SpotBitIndexInverse(s: Spot)
    ensures SpotOfBit(SpotBitIndex(s)) == s
  {
    SpotOfBitInverse(SpotBitIndex(s));
    SpotBitIndexInjective(s, SpotOfBit(SpotBitIndex(s)));
  }

  /** The loop that fills bit_index_to_spot_index inverts the table. */
  method GenerateBitIndexToSpotIndex() returns (result: array<nat>)
    ensures result.Length == 32
    ensures forall s: Spot :: result[SpotBitIndex(s)] == s
    ensures forall i: BitIndex :: result[i] == SpotOfBit(i)
  {
    result := new nat[32](_ => 0);
    for spotIndex := 0 to 32
      invariant forall s: Spot :: s < spotIndex ==> result[SpotBitIndex(s)] == s
    {
      TableIsRotatedLayout(spotIndex);
      result[SPOT_INDEX_TO_BIT_INDEX[spotIndex]] := spotIndex;
      forall s: Spot | s < spotIndex ensures SpotBitIndex(s) != SpotBitIndex(spotIndex) {
        if SpotBitIndex(s) == SpotBitIndex(spotIndex) {
          SpotBitIndexInjective(s, spotIndex);
        }
      }
    }
    forall i: BitIndex ensures result[i] == SpotOfBit(i) {
      SpotOfBitInverse(i);
    }
  }

  function Delta(d: Direction): int {
    match d
    case NorthWest => 7
    case NorthEast => 1
    case SouthEast => -7
    case SouthWest => -1
  }

  // Reduction modulo 32 of a bit position moved by less than 32.
  function Wrap(n: int): int {
    if n < 0 then n + 32 else if n >= 32 then n - 32 else n
  }

  lemma NextBitIndex(s: Spot, d: Direction)
    requires HasNext(s, d)
    ensures SpotBitIndex(Next(s, d)) == Wrap(SpotBitIndex(s) + Delta(d))
  {
    NextCoordinates(s, d);
  }

  // ---------- Words ----------

  /** 1 << i. */
  function BitMask(i: BitIndex): Word {
    match i
    case 0 => 0x00000001  case 1 => 0x00000002  case 2 => 0x00000004  case 3 => 0x00000008
    case 4 => 0x00000010  case 5 => 0x00000020  case 6 => 0x00000040  case 7 => 0x00000080
    case 8 => 0x00000100  case 9 => 0x00000200  case 10 => 0x00000400  case 11 => 0x00000800
    case 12 => 0x00001000  case 13 => 0x00002000  case 14 => 0x00004000  case 15 => 0x00008000
    case 16 => 0x00010000  case 17 => 0x00020000  case 18 => 0x00040000  case 19 => 0x00080000
    case 20 => 0x00100000  case 21 => 0x00200000  case 22 => 0x00400000  case 23 => 0x00800000
    case 24 => 0x01000000  case 25 => 0x02000000  case 26 => 0x04000000  case 27 => 0x08000000
    case 28 => 0x10000000  case 29 => 0x20000000  case 30 => 0x40000000  case _ => 0x80000000
  }

  function SpotBitWord(s: Spot): Word {
    BitMask(SpotBitIndex(s))
  }

  predicate Meets(a: Word, b: Word) {
    a & b != 0
  }

  predicate HasBit(b: Word, i: BitIndex) {
    Meets(b, BitMask(i))
  }

  predicate HasSpot(b: Word, s: Spot) {
    HasBit(b, SpotBitIndex(s))
  }

  function ShiftWord(b: Word, d: Direction): Word {
    match d
    case NorthEast => b.RotateLeft(1)
    case NorthWest => b.RotateLeft(7)
    case SouthWest => b.RotateRight(1)
    case SouthEast => b.RotateRight(7)
  }

  const NE_ATTACKS_MASK: Word := 0x3cfcf0cc
  const NE_MOVES_MASK: Word := 0x7dfdf5dd
  const NW_MOVES_MASK: Word := 0x79fbf3db

  function MovesMaskWord(d: Direction): Word {
    match d
    case NorthEast => NE_MOVES_MASK
    case NorthWest => NW_MOVES_MASK
    case SouthEast => NW_MOVES_MASK.RotateLeft(7)
    case SouthWest => NE_MOVES_MASK.RotateLeft(1)
  }

  function AttacksMaskWord(d: Direction): Word {
    match d
    case NorthEast => NE_ATTACKS_MASK
    case NorthWest => NE_ATTACKS_MASK.RotateRight(6)
    case SouthEast => NE_ATTACKS_MASK.RotateLeft(8)
    case SouthWest => NE_ATTACKS_MASK.RotateLeft(2)
  }

  // ---------- Single bits ----------

  predicate SingleBit(m: Word) {
    m != 0 && m & (m - 1) == 0
  }

  lemma AllOrNothing(b: Word, m: Word)
    requires SingleBit(m)
    ensures b & m == 0 || b & m == m
  {
  }

  lemma MaskIsSingleBit(i: BitIndex)
    ensures SingleBit(BitMask(i))
  {
  }

  lemma MaskDoubles(i: BitIndex)
    requires i < 31
    ensures BitMask(i + 1) == BitMask(i) << 1 && BitMask(i) < BitMask(i + 1)
  {
    match i {
      case 0 => case 1 => case 2 => case 3 => case 4 => case 5 => case 6 => case 7 =>
      case 8 => case 9 => case 10 => case 11 => case 12 => case 13 => case 14 => case 15 =>
      case 16 => case 17 => case 18 => case 19 => case 20 => case 21 => case 22 => case 23 =>
      case 24 => case 25 => case 26 => case 27 => case 28 => case 29 => case _ =>
    }
  }

  lemma {:induction false} MaskGrows(i: BitIndex, j: BitIndex)
    requires i < j
    ensures BitMask(i) < BitMask(j)
  {
    MaskDoubles(j - 1);
    if i < j - 1 {
      MaskGrows(i, j - 1);
    }
  }

  lemma SameMaskSameBit(i: BitIndex, j: BitIndex)
    requires BitMask(i) == BitMask(j)
    ensures i == j
  {
    if i < j {
      MaskGrows(i, j);
    } else if j < i {
      MaskGrows(j, i);
    }
  }

  lemma SingleBitsMeet(m: Word, n: Word)
    requires SingleBit(m) && SingleBit(n)
    ensures Meets(m, n) <==> m == n
  {
    AllOrNothing(m, n);
    AllOrNothing(n, m);
  }

  lemma MaskHasOnlyItsBit(i: BitIndex, j: BitIndex)
    ensures HasBit(BitMask(i), j) <==> i == j
  {
    MaskIsSingleBit(i);
    MaskIsSingleBit(j);
    SingleBitsMeet(BitMask(i), BitMask(j));
    if BitMask(i) == BitMask(j) {
      SameMaskSameBit(i, j);
    }
  }

  // ---------- Boolean operations bit by bit ----------

  lemma OrMasked(a: Word, b: Word, m: Word)
    ensures (a | b) & m != 0 <==> a & m != 0 || b & m != 0
  {
  }

  lemma AndMasked(a: Word, b: Word, m: Word)
    requires (a & m == 0 || a & m == m) && (b & m == 0 || b & m == m)
    ensures (a & b) & m != 0 <==> a & m != 0 && b & m != 0
  {
  }

  lemma NotMasked(a: Word, m: Word)
    requires m != 0 && (a & m == 0 || a & m == m)
    ensures !a & m != 0 <==> a & m == 0
  {
  }

  lemma AndSingle(a: Word, b: Word, m: Word)
    requires SingleBit(m)
    ensures (a & b) & m != 0 <==> a & m != 0 && b & m != 0
  {
    AllOrNothing(a, m);
    AllOrNothing(b, m);
    AndMasked(a, b, m);
  }

  lemma NotSingle(a: Word, m: Word)
    requires SingleBit(m)
    ensures !a & m != 0 <==> a & m == 0
  {
    AllOrNothing(a, m);
    NotMasked(a, m);
  }

  lemma MeetsOr(a: Word, b: Word, m: Word)
    ensures Meets(a | b, m) <==> Meets(a, m) || Meets(b, m)
  {
    OrMasked(a, b, m);
  }

  lemma MeetsAnd(a: Word, b: Word, m: Word)
    requires SingleBit(m)
    ensures Meets(a & b, m) <==> Meets(a, m) && Meets(b, m)
  {
    AndSingle(a, b, m);
  }

  lemma MeetsNot(a: Word, m: Word)
    requires SingleBit(m)
    ensures Meets(!a, m) <==> !Meets(a, m)
  {
    NotSingle(a, m);
  }

  lemma HasBitOr(a: Word, b: Word, i: BitIndex)
    ensures HasBit(a | b, i) <==> HasBit(a, i) || HasBit(b, i)
  {
    MeetsOr(a, b, BitMask(i));
  }

  lemma HasBitAnd(a: Word, b: Word, i: BitIndex)
    ensures HasBit(a & b, i) <==> HasBit(a, i) && HasBit(b, i)
  {
    MaskIsSingleBit(i);
    MeetsAnd(a, b, BitMask(i));
  }

  lemma HasBitNot(a: Word, i: BitIndex)
    ensures HasBit(!a, i) <==> !HasBit(a, i)
  {
    MaskIsSingleBit(i);
    MeetsNot(a, BitMask(i));
  }

  // ---------- Rotations ----------

  lemma Left1(b: Word, m: Word)
    ensures b.RotateLeft(1) & m.RotateLeft(1) != 0 <==> b & m != 0
  {
  }

  lemma MaskLeft1(i: BitIndex)
    ensures BitMask(i).RotateLeft(1) == BitMask(Wrap(i + 1))
  {
    match i {
      case 0 => case 1 => case 2 => case 3 => case 4 => case 5 => case 6 => case 7 =>
      case 8 => case 9 => case 10 => case 11 => case 12 => case 13 => case 14 => case 15 =>
      case 16 => case 17 => case 18 => case 19 => case 20 => case 21 => case 22 => case 23 =>
      case 24 => case 25 => case 26 => case 27 => case 28 => case 29 => case 30 => case _ =>
    }
  }

  lemma MeetsLeft1(b: Word, m: Word, n: Word)
    requires n == m.RotateLeft(1)
    ensures Meets(b.RotateLeft(1), n) <==> Meets(b, m)
  {
    Left1(b, m);
  }

  lemma HasBitLeft1(b: Word, i: BitIndex)
    ensures HasBit(b.RotateLeft(1), Wrap(i + 1)) <==> HasBit(b, i)
  {
    MaskLeft1(i);
    MeetsLeft1(b, BitMask(i), BitMask(Wrap(i + 1)));
  }

  lemma Left7(b: Word, m: Word)
    ensures b.RotateLeft(7) & m.RotateLeft(7) != 0 <==> b & m != 0
  {
  }

  lemma MaskLeft7(i: BitIndex)
    ensures BitMask(i).RotateLeft(7) == BitMask(Wrap(i + 7))
  {
    match i {
      case 0 => case 1 => case 2 => case 3 => case 4 => case 5 => case 6 => case 7 =>
      case 8 => case 9 => case 10 => case 11 => case 12 => case 13 => case 14 => case 15 =>
      case 16 => case 17 => case 18 => case 19 => case 20 => case 21 => case 22 => case 23 =>
      case 24 => case 25 => case 26 => case 27 => case 28 => case 29 => case 30 => case _ =>
    }
  }

  lemma MeetsLeft7(b: Word, m: Word, n: Word)
    requires n == m.RotateLeft(7)
    ensures Meets(b.RotateLeft(7), n) <==> Meets(b, m)
  {
    Left7(b, m);
  }

  lemma HasBitLeft7(b: Word, i: BitIndex)
    ensures HasBit(b.RotateLeft(7), Wrap(i + 7)) <==> HasBit(b, i)
  {
    MaskLeft7(i);
    MeetsLeft7(b, BitMask(i), BitMask(Wrap(i + 7)));
  }

  lemma Right1(b: Word, m: Word)
    ensures b.RotateRight(1) & m.RotateRight(1) != 0 <==> b & m != 0
  {
  }

  lemma MaskRight1(i: BitIndex)
    ensures BitMask(i).RotateRight(1) == BitMask(Wrap(i - 1))
  {
    match i {
      case 0 => case 1 => case 2 => case 3 => case 4 => case 5 => case 6 => case 7 =>
      case 8 => case 9 => case 10 => case 11 => case 12 => case 13 => case 14 => case 15 =>
      case 16 => case 17 => case 18 => case 19 => case 20 => case 21 => case 22 => case 23 =>
      case 24 => case 25 => case 26 => case 27 => case 28 => case 29 => case 30 => case _ =>
    }
  }

  lemma MeetsRight1(b: Word, m: Word, n: Word)
    requires n == m.RotateRight(1)
    ensures Meets(b.RotateRight(1), n) <==> Meets(b, m)
  {
    Right1(b, m);
  }

  lemma HasBitRight1(b: Word, i: BitIndex)
    ensures HasBit(b.RotateRight(1), Wrap(i - 1)) <==> HasBit(b, i)
  {
    MaskRight1(i);
    MeetsRight1(b, BitMask(i), BitMask(Wrap(i - 1)));
  }

  lemma Right7(b: Word, m: Word)
    ensures b.RotateRight(7) & m.RotateRight(7) != 0 <==> b & m != 0
  {
  }

  lemma MaskRight7(i: BitIndex)
    ensures BitMask(i).RotateRight(7) == BitMask(Wrap(i - 7))
  {
    match i {
      case 0 => case 1 => case 2 => case 3 => case 4 => case 5 => case 6 => case 7 =>
      case 8 => case 9 => case 10 => case 11 => case 12 => case 13 => case 14 => case 15 =>
      case 16 => case 17 => case 18 => case 19 => case 20 => case 21 => case 22 => case 23 =>
      case 24 => case 25 => case 26 => case 27 => case 28 => case 29 => case 30 => case _ =>
    }
  }

  lemma MeetsRight7(b: Word, m: Word, n: Word)
    requires n == m.RotateRight(7)
    ensures Meets(b.RotateRight(7), n) <==> Meets(b, m)
  {
    Right7(b, m);
  }

  lemma HasBitRight7(b: Word, i: BitIndex)
    ensures HasBit(b.RotateRight(7), Wrap(i - 7)) <==> HasBit(b, i)
  {
    MaskRight7(i);
    MeetsRight7(b, BitMask(i), BitMask(Wrap(i - 7)));
  }

  lemma HasBitShift(b: Word, i: BitIndex, d: Direction)
    ensures HasBit(ShiftWord(b, d), Wrap(i + Delta(d))) <==> HasBit(b, i)
  {
    match d
    case NorthEast => HasBitLeft1(b, i);
    case NorthWest => HasBitLeft7(b, i);
    case SouthWest => HasBitRight1(b, i);
    case SouthEast => HasBitRight7(b, i);
  }

  // ---------- Edge masks ----------

  lemma NorthEastMaskTop(s: Spot)
    requires s < 16
    ensures 0x7dfdf5dd & BitMask(SpotBitIndex(s)) != 0 <==> OnBoard(Row(s) - 1, Col(s) + 1)
  {
    match s {
      case 0 => case 1 => case 2 => case 3 => case 4 => case 5 => case 6 => case 7 =>
      case 8 => case 9 => case 10 => case 11 => case 12 => case 13 => case 14 => case _ =>
    }
  }

  lemma NorthEastMaskBottom(s: Spot)
    requires 16 <= s
    ensures 0x7dfdf5dd & BitMask(SpotBitIndex(s)) != 0 <==> OnBoard(Row(s) - 1, Col(s) + 1)
  {
    match s {
      case 16 => case 17 => case 18 => case 19 => case 20 => case 21 => case 22 => case 23 =>
      case 24 => case 25 => case 26 => case 27 => case 28 => case 29 => case 30 => case _ =>
    }
  }

  lemma NorthWestMaskTop(s: Spot)
    requires s < 16
    ensures 0x79fbf3db & BitMask(SpotBitIndex(s)) != 0 <==> OnBoard(Row(s) - 1, Col(s) - 1)
  {
    match s {
      case 0 => case 1 => case 2 => case 3 => case 4 => case 5 => case 6 => case 7 =>
      case 8 => case 9 => case 10 => case 11 => case 12 => case 13 => case 14 => case _ =>
    }
  }

  lemma NorthWestMaskBottom(s: Spot)
    requires 16 <= s
    ensures 0x79fbf3db & BitMask(SpotBitIndex(s)) != 0 <==> OnBoard(Row(s) - 1, Col(s) - 1)
  {
    match s {
      case 16 => case 17 => case 18 => case 19 => case 20 => case 21 => case 22 => case 23 =>
      case 24 => case 25 => case 26 => case 27 => case 28 => case 29 => case 30 => case _ =>
    }
  }

  lemma NorthEastMask(s: Spot)
    ensures HasSpot(MovesMaskWord(NorthEast), s) <==> HasNext(s, NorthEast)
  {
    assert Meets(0x7dfdf5dd, SpotBitWord(s)) <==> HasNext(s, NorthEast) by {
      if s < 16 {
        NorthEastMaskTop(s);
      } else {
        NorthEastMaskBottom(s);
      }
    }
  }

  lemma NorthWestMask(s: Spot)
    ensures HasSpot(MovesMaskWord(NorthWest), s) <==> HasNext(s, NorthWest)
  {
    assert Meets(0x79fbf3db, SpotBitWord(s)) <==> HasNext(s, NorthWest) by {
      if s < 16 {
        NorthWestMaskTop(s);
      } else {
        NorthWestMaskBottom(s);
      }
    }
  }

  lemma NorthMask(s: Spot, d: Direction)
    requires d.NorthEast? || d.NorthWest?
    ensures HasSpot(MovesMaskWord(d), s) <==> HasNext(s, d)
  {
    if d.NorthEast? {
      NorthEastMask(s);
    } else {
      NorthWestMask(s);
    }
  }

  lemma SouthMaskIsShiftedNorthMask(d: Direction)
    requires d.SouthEast? || d.SouthWest?
    ensures MovesMaskWord(d) == ShiftWord(MovesMaskWord(Opposite(d)), Opposite(d))
  {
  }

  /** The four edge masks keep exactly the spots whose neighbour is on the board. */
  lemma MovesMaskIsEdge(s: Spot, d: Direction)
    ensures HasSpot(MovesMaskWord(d), s) <==> HasNext(s, d)
  {
    if d.NorthEast? || d.NorthWest? {
      NorthMask(s, d);
    } else {
      var north := Opposite(d);
      var j := Wrap(SpotBitIndex(s) - Delta(north));
      var t := SpotOfBit(j);
      SpotOfBitInverse(j);
      SouthMaskIsShiftedNorthMask(d);
      HasBitShift(MovesMaskWord(north), j, north);
      NorthMask(t, north);
      if HasNext(t, north) {
        NextBitIndex(t, north);
        SpotBitIndexInjective(Next(t, north), s);
        NextThereAndBack(t, north);
      }
      if HasNext(s, d) {
        NextBitIndex(s, d);
        SpotBitIndexInjective(Next(s, d), t);
        NextThereAndBack(s, d);
      }
    }
  }

  lemma AttacksMaskIsTwoSteps(d: Direction)
    ensures AttacksMaskWord(d) == MovesMaskWord(d) & ShiftWord(MovesMaskWord(d), Opposite(d))
  {
  }

  lemma AttacksMaskIsEdge(s: Spot, d: Direction)
    ensures HasSpot(AttacksMaskWord(d), s) <==> HasNext(s, d) && HasNext(Next(s, d), d)
  {
    AttacksMaskIsTwoSteps(d);
    HasBitAnd(MovesMaskWord(d), ShiftWord(MovesMaskWord(d), Opposite(d)), SpotBitIndex(s));
    MovesMaskIsEdge(s, d);
    if HasNext(s, d) {
      NextBitIndex(s, d);
      MovesMaskIsEdge(Next(s, d), d);
      HasBitShift(MovesMaskWord(d), SpotBitIndex(Next(s, d)), Opposite(d));
    }
  }

  // ---------- Bitboards ----------

  /** A word in a wrapper of its own: outside this module words are only combined with these functions. */
  datatype Bitboard = Bitboard(word: Word)

  function AndWord(a: Word, b: Word): Word {
    a & b
  }

  function NotWord(a: Word): Word {
    !a
  }

  function And(a: Bitboard, b: Bitboard): Bitboard {
    Bitboard(AndWord(a.word, b.word))
  }

  function Or(a: Bitboard, b: Bitboard): Bitboard {
    Bitboard(a.word | b.word)
  }

  function Not(a: Bitboard): Bitboard {
    Bitboard(NotWord(a.word))
  }

  function Shift(b: Bitboard, d: Direction): Bitboard {
    Bitboard(ShiftWord(b.word, d))
  }

  function MovesMask(d: Direction): Bitboard {
    Bitboard(MovesMaskWord(d))
  }

  function AttacksMask(d: Direction): Bitboard {
    Bitboard(AttacksMaskWord(d))
  }

  function SpotBit(s: Spot): Bitboard {
    Bitboard(SpotBitWord(s))
  }

  const BITBOARD_EMPTY := Bitboard(0)
  const WHITE_PIECES_SQUARES := Bitboard(0x041c71c3)
  const BLACK_PIECES_SQUARES := Bitboard(0xe3820c38)
  const WHITE_BASE := Bitboard(0x00041041)
  const BLACK_BASE := Bitboard(0x82000820)

  function OppositeBase(c: Side): Bitboard {
    if c == White then BLACK_BASE else WHITE_BASE
  }

  predicate Has(b: Bitboard, s: Spot) {
    HasSpot(b.word, s)
  }

  /** The spots whose bit is set. */
  function Spots(b: Bitboard): set<Spot> {
    set s: Spot | Has(b, s)
  }

  lemma HasOr(a: Bitboard, b: Bitboard, s: Spot)
    ensures Has(Or(a, b), s) <==> Has(a, s) || Has(b, s)
  {
    HasBitOr(a.word, b.word, SpotBitIndex(s));
  }

  lemma HasAnd(a: Bitboard, b: Bitboard, s: Spot)
    ensures Has(And(a, b), s) <==> Has(a, s) && Has(b, s)
  {
    HasBitAnd(a.word, b.word, SpotBitIndex(s));
  }

  lemma HasNot(a: Bitboard, s: Spot)
    ensures Has(Not(a), s) <==> !Has(a, s)
  {
    HasBitNot(a.word, SpotBitIndex(s));
  }

  lemma SpotsOr(a: Bitboard, b: Bitboard)
    ensures Spots(Or(a, b)) == Spots(a) + Spots(b)
  {
    hide Has, Or;
    forall s: Spot ensures Has(Or(a, b), s) <==> Has(a, s) || Has(b, s) {
      HasOr(a, b, s);
    }
  }

  lemma SpotsAnd(a: Bitboard, b: Bitboard)
    ensures Spots(And(a, b)) == Spots(a) * Spots(b)
  {
    hide Has, And;
    forall s: Spot ensures Has(And(a, b), s) <==> Has(a, s) && Has(b, s) {
      HasAnd(a, b, s);
    }
  }

  lemma SpotsNot(a: Bitboard)
    ensures forall s: Spot :: s in Spots(Not(a)) <==> s !in Spots(a)
  {
    hide Has, Not;
    forall s: Spot ensures Has(Not(a), s) <==> !Has(a, s) {
      HasNot(a, s);
    }
  }

  lemma SpotBitHas(s: Spot, t: Spot)
    ensures Has(SpotBit(s), t) <==> t == s
  {
    MaskHasOnlyItsBit(SpotBitIndex(s), SpotBitIndex(t));
    if SpotBitIndex(s) == SpotBitIndex(t) {
      SpotBitIndexInjective(s, t);
    }
  }

  lemma SpotsOfSpotBit(s: Spot)
    ensures Spots(SpotBit(s)) == {s}
  {
    hide Has, SpotBit;
    forall t: Spot ensures Has(SpotBit(s), t) <==> t == s {
      SpotBitHas(s, t);
    }
  }

  lemma SpotsWithout(b: Bitboard, s: Spot)
    ensures Spots(And(b, Not(SpotBit(s)))) == Spots(b) - {s}
  {
    hide Spots, And, Not, SpotBit;
    SpotsAnd(b, Not(SpotBit(s)));
    SpotsNot(SpotBit(s));
    SpotsOfSpotBit(s);
  }

  lemma MasksHave(d: Direction, s: Spot)
    ensures Has(MovesMask(d), s) <==> HasNext(s, d)
    ensures Has(AttacksMask(d), s) <==> HasNext(s, d) && HasNext(Next(s, d), d)
  {
    hide HasSpot, MovesMaskWord, AttacksMaskWord, HasNext, Next;
    MovesMaskIsEdge(s, d);
    AttacksMaskIsEdge(s, d);
  }

  lemma SpotsOfMasks(d: Direction)
    ensures Spots(MovesMask(d)) == set s: Spot | HasNext(s, d)
    ensures Spots(AttacksMask(d)) == set s: Spot | HasNext(s, d) && HasNext(Next(s, d), d)
  {
    hide Has, MovesMask, AttacksMask, HasNext, Next;
    forall s: Spot
      ensures Has(MovesMask(d), s) <==> HasNext(s, d)
      ensures Has(AttacksMask(d), s) <==> HasNext(s, d) && HasNext(Next(s, d), d)
    {
      MasksHave(d, s);
    }
  }

  lemma HasShift(b: Bitboard, s: Spot, d: Direction)
    requires HasNext(s, d)
    ensures Has(Shift(b, d), Next(s, d)) <==> Has(b, s)
  {
    HasBitShift(b.word, SpotBitIndex(s), d);
    NextBitIndex(s, d);
  }

  // The spot whose bit a rotation carries to t.
  lemma RotatedFrom(t: Spot, d: Direction) returns (s: Spot)
    ensures SpotBitIndex(t) == Wrap(SpotBitIndex(s) + Delta(d))
  {
    var j := Wrap(SpotBitIndex(t) - Delta(d));
    s := SpotOfBit(j);
    SpotOfBitInverse(j);
  }

  lemma ShiftedSpot(b: Bitboard, d: Direction, t: Spot) returns (s: Spot)
    ensures Has(Shift(b, d), t) <==> Has(b, s)
    ensures HasNext(s, d) ==> Next(s, d) == t
  {
    s := RotatedFrom(t, d);
    HasBitShift(b.word, SpotBitIndex(s), d);
    if HasNext(s, d) {
      NextBitIndex(s, d);
      SpotBitIndexInjective(Next(s, d), t);
    }
  }

  /** A word that keeps to spots with a d-neighbour is shifted exactly onto those neighbours: the
      rotation never carries a piece across an edge. */
  lemma ShiftFollowsBoard(b: Bitboard, d: Direction)
    requires forall s :: s in Spots(b) ==> HasNext(s, d)
    ensures Spots(Shift(b, d)) == set s | s in Spots(b) :: Next(s, d)
  {
    hide Has, Shift, HasNext, Next;
    forall t: Spot
      ensures t in Spots(Shift(b, d)) <==> exists s :: s in Spots(b) && Next(s, d) == t
    {
      var s := ShiftedSpot(b, d, t);
      assert s in Spots(b) <==> Has(b, s);
      if r :| r in Spots(b) && Next(r, d) == t {
        HasShift(b, r, d);
      }
    }
  }

  // ---------- Iterating over the set bits ----------

  predicate ClearBelow(b: Word, m: Word) {
    b & (m - 1) == 0
  }

  lemma NoLowerBits(b: Word, m: Word)
    requires SingleBit(m) && b & (m - 1) == 0 && b & m == 0
    ensures b & ((m << 1) - 1) == 0
  {
  }

  lemma ClearBelowNext(b: Word, m: Word, n: Word)
    requires SingleBit(m) && ClearBelow(b, m) && !Meets(b, m) && n == m << 1
    ensures ClearBelow(b, n)
  {
    NoLowerBits(b, m);
  }

  lemma AllBitsClear(b: Word)
    requires b & 0x7fffffff == 0 && b & 0x80000000 == 0
    ensures b == 0
  {
  }

  lemma TopBitLeft(b: Word)
    requires b != 0 && ClearBelow(b, BitMask(31))
    ensures HasBit(b, 31)
  {
    if !HasBit(b, 31) {
      AllBitsClear(b);
    }
  }

  lemma NextBitUp(b: Word, i: BitIndex)
    requires b != 0 && ClearBelow(b, BitMask(i)) && !HasBit(b, i)
    ensures i < 31 && ClearBelow(b, BitMask(i + 1))
  {
    if i == 31 {
      TopBitLeft(b);
    } else {
      MaskIsSingleBit(i);
      MaskDoubles(i);
      ClearBelowNext(b, BitMask(i), BitMask(i + 1));
    }
  }

  lemma NothingBelowOne(b: Word)
    ensures ClearBelow(b, BitMask(0))
  {
  }

  function CountTrailingZerosFrom(b: Word, i: BitIndex): (r: BitIndex)
    requires b != 0 && ClearBelow(b, BitMask(i))
    ensures HasBit(b, r) && ClearBelow(b, BitMask(r))
    decreases 32 - i
  {
    if HasBit(b, i) then i
    else
      NextBitUp(b, i);
      CountTrailingZerosFrom(b, i + 1)
  }

  /** std::countr_zero of a non-zero word: its lowest set bit. */
  function CountTrailingZeros(b: Word): (r: BitIndex)
    requires b != 0
    ensures HasBit(b, r) && ClearBelow(b, BitMask(r))
  {
    NothingBelowOne(b);
    CountTrailingZerosFrom(b, 0)
  }

  lemma LowestBitOnly(b: Word, m: Word)
    requires SingleBit(m) && b & m != 0 && b & (m - 1) == 0
    ensures b & (b - 1) == b & !m
  {
  }

  function ClearLowestWord(b: Word): Word {
    b & (b - 1)
  }

  lemma ClearingIsMasking(b: Word, m: Word)
    requires b != 0 && SingleBit(m) && Meets(b, m) && ClearBelow(b, m)
    ensures ClearLowestWord(b) == AndWord(b, NotWord(m))
  {
    LowestBitOnly(b, m);
  }

  /** What dereferencing the iterator yields: bit_to_spot_index. */
  function LowestSpot(b: Bitboard): Spot
    requires b != BITBOARD_EMPTY
  {
    SpotOfBit(CountTrailingZeros(b.word))
  }

  /** What ++ does to the iterator: value &= value - 1. */
  function ClearLowest(b: Bitboard): Bitboard
    requires b != BITBOARD_EMPTY
  {
    Bitboard(ClearLowestWord(b.word))
  }

  lemma ClearLowestMasks(b: Bitboard, m: Bitboard)
    requires b != BITBOARD_EMPTY && SingleBit(m.word) && Meets(b.word, m.word) && ClearBelow(b.word, m.word)
    ensures ClearLowest(b) == And(b, Not(m))
  {
    hide SingleBit, Meets, ClearBelow, ClearLowestWord, AndWord, NotWord;
    ClearingIsMasking(b.word, m.word);
  }

  lemma LowestSpotBit(b: Bitboard)
    requires b != BITBOARD_EMPTY
    ensures var m := SpotBit(LowestSpot(b)).word; SingleBit(m) && Meets(b.word, m) && ClearBelow(b.word, m)
  {
    hide BitMask, SpotOfBit, SpotBitIndex, ClearBelow, Meets, SingleBit;
    SpotOfBitInverse(CountTrailingZeros(b.word));
    MaskIsSingleBit(CountTrailingZeros(b.word));
  }

  lemma ClearLowestIsWithout(b: Bitboard)
    requires b != BITBOARD_EMPTY
    ensures ClearLowest(b) == And(b, Not(SpotBit(LowestSpot(b))))
    ensures Has(b, LowestSpot(b))
  {
    hide BitMask, SpotBitIndex, SpotOfBit, ClearBelow, Meets, SingleBit, LowestSpot, ClearLowest, And, Not;
    LowestSpotBit(b);
    ClearLowestMasks(b, SpotBit(LowestSpot(b)));
  }

  /** One step of the iterator yields a spot of the word and leaves the others. */
  lemma IteratorStep(b: Bitboard)
    requires b != BITBOARD_EMPTY
    ensures LowestSpot(b) in Spots(b)
    ensures Spots(ClearLowest(b)) == Spots(b) - {LowestSpot(b)}
  {
    hide Has, LowestSpot, ClearLowest, And, Not, SpotBit;
    ClearLowestIsWithout(b);
    SpotsWithout(b, LowestSpot(b));
  }

  /** The spots SpotsBitIterator yields, in order. */
  function SpotList(b: Bitboard): (l: seq<Spot>)
    decreases |Spots(b)|
  {
    if b == BITBOARD_EMPTY then []
    else
      IteratorStep(b);
      [LowestSpot(b)] + SpotList(ClearLowest(b))
  }

  predicate Distinct<T(==)>(l: seq<T>) {
    forall i, j :: 0 <= i < j < |l| ==> l[i] != l[j]
  }

  /** The iterator visits every spot of the word exactly once. */
  lemma {:induction false} SpotListIsSpots(b: Bitboard)
    ensures Distinct(SpotList(b))
    ensures forall s: Spot :: s in SpotList(b) <==> s in Spots(b)
    decreases |Spots(b)|
  {
    hide Spots, LowestSpot, ClearLowest;
    if b == BITBOARD_EMPTY {
      EmptyIffNoSpots(b);
    } else {
      IteratorStep(b);
      SpotListIsSpots(ClearLowest(b));
    }
  }

  lemma ZeroMasked(m: Word)
    ensures 0 & m == 0
  {
  }

  lemma EmptyIffNoSpots(b: Bitboard)
    ensures b == BITBOARD_EMPTY <==> Spots(b) == {}
  {
    if b == BITBOARD_EMPTY {
      forall s: Spot ensures !Has(b, s) {
        ZeroMasked(SpotBitWord(s));
      }
    } else {
      IteratorStep(b);
    }
  }

  // ---------- Constants of the start position ----------

  lemma WhiteSquaresTop(s: Spot)
    requires s < 16
    ensures 0x041c71c3 & BitMask(SpotBitIndex(s)) != 0 <==> Row(s) >= 5
  {
    match s {
      case 0 => case 1 => case 2 => case 3 => case 4 => case 5 => case 6 => case 7 =>
      case 8 => case 9 => case 10 => case 11 => case 12 => case 13 => case 14 => case _ =>
    }
  }

  lemma WhiteSquaresBottom(s: Spot)
    requires 16 <= s
    ensures 0x041c71c3 & BitMask(SpotBitIndex(s)) != 0 <==> Row(s) >= 5
  {
    match s {
      case 16 => case 17 => case 18 => case 19 => case 20 => case 21 => case 22 => case 23 =>
      case 24 => case 25 => case 26 => case 27 => case 28 => case 29 => case 30 => case _ =>
    }
  }

  lemma BlackSquaresTop(s: Spot)
    requires s < 16
    ensures 0xe3820c38 & BitMask(SpotBitIndex(s)) != 0 <==> Row(s) <= 2
  {
    match s {
      case 0 => case 1 => case 2 => case 3 => case 4 => case 5 => case 6 => case 7 =>
      case 8 => case 9 => case 10 => case 11 => case 12 => case 13 => case 14 => case _ =>
    }
  }

  lemma BlackSquaresBottom(s: Spot)
    requires 16 <= s
    ensures 0xe3820c38 & BitMask(SpotBitIndex(s)) != 0 <==> Row(s) <= 2
  {
    match s {
      case 16 => case 17 => case 18 => case 19 => case 20 => case 21 => case 22 => case 23 =>
      case 24 => case 25 => case 26 => case 27 => case 28 => case 29 => case 30 => case _ =>
    }
  }

  lemma WhiteBaseTop(s: Spot)
    requires s < 16
    ensures 0x00041041 & BitMask(SpotBitIndex(s)) != 0 <==> Row(s) == 7
  {
    match s {
      case 0 => case 1 => case 2 => case 3 => case 4 => case 5 => case 6 => case 7 =>
      case 8 => case 9 => case 10 => case 11 => case 12 => case 13 => case 14 => case _ =>
    }
  }

  lemma WhiteBaseBottom(s: Spot)
    requires 16 <= s
    ensures 0x00041041 & BitMask(SpotBitIndex(s)) != 0 <==> Row(s) == 7
  {
    match s {
      case 16 => case 17 => case 18 => case 19 => case 20 => case 21 => case 22 => case 23 =>
      case 24 => case 25 => case 26 => case 27 => case 28 => case 29 => case 30 => case _ =>
    }
  }

  lemma BlackBaseTop(s: Spot)
    requires s < 16
    ensures 0x82000820 & BitMask(SpotBitIndex(s)) != 0 <==> Row(s) == 0
  {
    match s {
      case 0 => case 1 => case 2 => case 3 => case 4 => case 5 => case 6 => case 7 =>
      case 8 => case 9 => case 10 => case 11 => case 12 => case 13 => case 14 => case _ =>
    }
  }

  lemma BlackBaseBottom(s: Spot)
    requires 16 <= s
    ensures 0x82000820 & BitMask(SpotBitIndex(s)) != 0 <==> Row(s) == 0
  {
    match s {
      case 16 => case 17 => case 18 => case 19 => case 20 => case 21 => case 22 => case 23 =>
      case 24 => case 25 => case 26 => case 27 => case 28 => case 29 => case 30 => case _ =>
    }
  }

  lemma WhiteSquares(s: Spot)
    ensures Has(WHITE_PIECES_SQUARES, s) <==> Row(s) >= 5
  {
    assert Meets(0x041c71c3, SpotBitWord(s)) <==> Row(s) >= 5 by {
      if s < 16 {
        WhiteSquaresTop(s);
      } else {
        WhiteSquaresBottom(s);
      }
    }
  }

  lemma BlackSquares(s: Spot)
    ensures Has(BLACK_PIECES_SQUARES, s) <==> Row(s) <= 2
  {
    assert Meets(0xe3820c38, SpotBitWord(s)) <==> Row(s) <= 2 by {
      if s < 16 {
        BlackSquaresTop(s);
      } else {
        BlackSquaresBottom(s);
      }
    }
  }

  lemma WhiteBase(s: Spot)
    ensures Has(WHITE_BASE, s) <==> Row(s) == 7
  {
    assert Meets(0x00041041, SpotBitWord(s)) <==> Row(s) == 7 by {
      if s < 16 {
        WhiteBaseTop(s);
      } else {
        WhiteBaseBottom(s);
      }
    }
  }

  lemma BlackBase(s: Spot)
    ensures Has(BLACK_BASE, s) <==> Row(s) == 0
  {
    assert Meets(0x82000820, SpotBitWord(s)) <==> Row(s) == 0 by {
      if s < 16 {
        BlackBaseTop(s);
      } else {
        BlackBaseBottom(s);
      }
    }
  }

  /** The start constants are the three nearest rows of each side, the bases the outermost ones. */
  lemma StartConstants()
    ensures Spots(WHITE_PIECES_SQUARES) == set s: Spot | Row(s) >= 5
    ensures Spots(BLACK_PIECES_SQUARES) == set s: Spot | Row(s) <= 2
    ensures Spots(WHITE_BASE) == set s: Spot | Row(s) == 7
    ensures Spots(BLACK_BASE) == set s: Spot | Row(s) == 0
    ensures Spots(BITBOARD_EMPTY) == {}
  {
    hide Has, Row;
    EmptyIffNoSpots(BITBOARD_EMPTY);
    forall s: Spot
      ensures Has(WHITE_PIECES_SQUARES, s) <==> Row(s) >= 5
      ensures Has(BLACK_PIECES_SQUARES, s) <==> Row(s) <= 2
      ensures Has(WHITE_BASE, s) <==> Row(s) == 7
      ensures Has(BLACK_BASE, s) <==> Row(s) == 0
    {
      WhiteSquares(s);
      BlackSquares(s);
      WhiteBase(s);
      BlackBase(s);
    }
  }

  // ---------- Single spots ----------

  /** bit << k, without rotation. */
  function ShiftLeft(b: Bitboard, k: nat): Bitboard
    requires k == 1 || k == 7
  {
    if k == 1 then Bitboard(b.word << 1) else Bitboard(b.word << 7)
  }

  lemma MaskShiftedLeft7(i: BitIndex)
    requires i < 25
    ensures BitMask(i) << 7 == BitMask(i + 7)
  {
    match i {
      case 0 => case 1 => case 2 => case 3 => case 4 => case 5 => case 6 => case 7 =>
      case 8 => case 9 => case 10 => case 11 => case 12 => case 13 => case 14 => case 15 =>
      case 16 => case 17 => case 18 => case 19 => case 20 => case 21 => case 22 => case 23 => case _ =>
    }
  }

  lemma SpotBitShiftedLeft(s: Spot, k: nat)
    requires (k == 1 || k == 7) && SpotBitIndex(s) + k < 32
    ensures ShiftLeft(SpotBit(s), k) == SpotBit(SpotOfBit(SpotBitIndex(s) + k))
  {
    hide BitMask, SpotOfBit, SpotBitIndex;
    SpotOfBitInverse(SpotBitIndex(s) + k);
    if k == 1 {
      MaskDoubles(SpotBitIndex(s));
    } else {
      MaskShiftedLeft7(SpotBitIndex(s));
    }
  }

  lemma MaskShifted(i: BitIndex, d: Direction)
    ensures ShiftWord(BitMask(i), d) == BitMask(Wrap(i + Delta(d)))
  {
    hide BitMask;
    match d
    case NorthEast => MaskLeft1(i);
    case NorthWest => MaskLeft7(i);
    case SouthWest => MaskRight1(i);
    case SouthEast => MaskRight7(i);
  }

  lemma SpotBitShifted(s: Spot, d: Direction)
    ensures Shift(SpotBit(s), d) == SpotBit(SpotOfBit(Wrap(SpotBitIndex(s) + Delta(d))))
  {
    hide BitMask, SpotOfBit, SpotBitIndex, ShiftWord;
    MaskShifted(SpotBitIndex(s), d);
    SpotOfBitInverse(Wrap(SpotBitIndex(s) + Delta(d)));
  }

  lemma SpotBitsMeet(b: Bitboard, s: Spot)
    ensures And(b, SpotBit(s)) != BITBOARD_EMPTY <==> s in Spots(b)
    ensures And(SpotBit(s), b) != BITBOARD_EMPTY <==> s in Spots(b)
  {
    hide Spots, And, SpotBit;
    SpotsAnd(b, SpotBit(s));
    SpotsAnd(SpotBit(s), b);
    SpotsOfSpotBit(s);
    EmptyIffNoSpots(And(b, SpotBit(s)));
    EmptyIffNoSpots(And(SpotBit(s), b));
    assert s in Spots(b) <==> s in Spots(b) * {s};
    assert s in Spots(b) <==> s in {s} * Spots(b);
  }

  lemma SpotOfSpotBit(s: Spot)
    ensures SpotBit(s) != BITBOARD_EMPTY && LowestSpot(SpotBit(s)) == s
  {
    hide Spots, SpotBit, LowestSpot;
    SpotsOfSpotBit(s);
    EmptyIffNoSpots(SpotBit(s));
    IteratorStep(SpotBit(s));
  }
}
