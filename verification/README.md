# Checkers over TCP: a verified model

This project models, in Dafny, the parts of the checkers program and of its bundled libraries in which a
mistake would be hardest to see, and proves what they are for. `dafny verify dfyconfig.toml` checks all of it.

**The game.** The engine keeps the board in three 32-bit words with a rotated bit layout, so that a diagonal
step is a rotation by 1 or 7 and the board's edges live in eight masks. `Board.dfy` proves the layout, the
masks and the bit iterator against plain 8x8 coordinates. `Rules.dfy` writes the game on sets of spots.
`Engine.dfy` and `MoveLists.dfy` prove that every expression on words denotes what those rules give, and
`CheckersEngine.dfy` is the engine class with its fields and loops, each method tied to the rules. `Game.dfy`
and `TurnRule.dfy` prove what whole games keep, and where the code departs from its own comments; `OneGame.dfy`
is one game from the start position in which all of that shows. `ClientModel.dfy` is the client's second board
beside its engine and `HiddenPieces.dfy` what it misses, `Session.dfy` the server's session, and `Replication.dfy`
the three engines replaying one log of moves over FIFO links, under every interleaving, and draining the links
once the users stop.

**Printing numbers.** `Bignum.dfy`, `Powers.dfy` and `Convolution.dfy` hold the arithmetic of base-2^32 digit
sequences; `Bigint.dfy` is the in-place class `bigint`. `Digits.dfy`, `FixedFormat.dfy`, `ShortestFormat.dfy`
and `FallbackFormat.dfy` are the Steele and White printing loops on top of it, `ReadBack.dfy` the binary numbers
the printed decimal is read back among, `PrintedNumber.dfy` the same in real numbers, with the exponent that is
returned, and `LowerEnd.dfy` a number whose shortest decimal is not printed.
`Capacity.dfy` is why the parts of a double never need more than the 32 bigits that are stored inline.

**The log queue and its workers.** `CircularQueue.dfy`, `BlockingQueue.dfy`, `ThreadPool.dfy` and
`WorkerLoops.dfy`: the ring buffer, the monitor around it, and the pool with its shutdown protocol.

**The codec.** `Codec.dfy`: `pack` and `unpack` for integers and strings, each value through its own pointer.
`WireFormat.dfy`: what each character of a format stands for, in bytes and ranges written out.

`MachineWords.dfy` holds the sizes of the machine's unsigned words.

Six results are about the code not doing what its comments or its callers expect. Each is kept as the code has
it, shown to happen, and given its exact condition. Where a game shows it, that game starts at `reset` and makes
listed moves only:

- A capture whose bit indices wrap (twelve jumps) removes nothing. `Rules.WrappedJumps` lists the twelve, and
  `Game.OfferedCapture` says a capture removes its piece if and only if it is not one of them. The client's second
  board then misses exactly the pieces jumped in such captures and not really captured since
  (`HiddenPieces.MirrorMissesTheHidden`). `OneGame.WrappedCapturesNeedNotEnd` is a game in which a king makes such
  captures for ever and keeps the turn.
- The comment at checkers_engine.cpp line 64 says the turn stays if the same piece can move on. The second call
  asks about the square the piece has left. `TurnRule.TurnIsRight` says on the board before the move exactly when
  the answer is still right; `OneGame.TurnKeptWrongly` and `OneGame.TurnLostWrongly` show both ways of being wrong.
- `compare` takes equal numbers for different ones when one of them stores more bigits, and the last loop of
  `subtract_aligned` borrows from one digit only. `BigintClass.Misread` and `BigintClass.Stalls` are the exact
  conditions; `DivmodAssign` and `SubtractAligned` say what comes out in each case, and the divisions of the
  printing loops are proved never to meet either.
- The shortest printing also compares the remainder with the lower distance, and there the first effect shows:
  when that distance has a larger exponent than the denominator, a decimal exactly on the lower midpoint of an even
  significand is passed over. `FallbackFormatting.FullyShortest` says the output is the shortest and closest that
  reads back if and only if the loop sees the lower end (so for every number with a negative binary exponent), the
  significand is odd, or no decimal on the lower midpoint would win. `LowerEnd.PrintsMoreThanSixDigits` proves
  that fallback_format prints more than six digits of a number that six such digits read back. In this tree
  format_float calls fallback_format only with a given precision (format-inl.h lines 2351-2379); the shortest
  branch is for callers that pass a negative one.
- A width in front of an `s` looks like the size of the destination, but a string of exactly that length is
  copied whole and its terminator lands one byte further. `Codec.WidthBoundsUnlessMet` says a width of k >= 1 keeps
  to k bytes if and only if the length is not k; `Codec.ThreeInThree` is "3s" with "abc".
- The pool's destructor returns if and only if the queue's capacity is neither 0, which is always full, nor
  2^64 - 1, which wraps to a disabled queue (`ThreadPool.DestructorReturnsIffRoom`).

Spots, bits and digits are natural numbers with their range in the type; a wrap-around of the source (rotations,
64-bit differences and carries, the size_t of the queue, the format's width, the truncation of arguments) is
written out. What cannot happen is proved not to: the 64-bit and 128-bit accumulators of the bignum do not
overflow.

## Model

| member | source | states |
|---|---|---|
| `Board.TableIsRotatedLayout` | checkers-tcp-core/include/board.h:175-184 | the index table is the rotated layout: the spot in row r, column c has bit 14 - 4r - 3c modulo 32 |
| `Board.GenerateBitIndexToSpotIndex` | checkers-tcp-core/include/board.h:208-215 | the loop fills the inverse of that table, for all 32 bits |
| `Board.MovesMaskIsEdge` | checkers-tcp-core/include/board.h:145-160 | each move mask has exactly the spots with a neighbour on the board in its direction |
| `Board.AttacksMaskIsEdge` | checkers-tcp-core/include/board.h:125-140 | each attack mask has exactly the spots from which a jump in its direction stays on the board |
| `Board.ShiftFollowsBoard` | checkers-tcp-core/include/board.h:252-261 | a word that keeps to its mask is rotated exactly onto the neighbours: nothing leaks across an edge |
| `Board.IteratorStep` | checkers-tcp-core/include/board.h:286-292 | one step of the iterator yields a spot of the word and leaves exactly the others |
| `Board.SpotListIsSpots` | checkers-tcp-core/include/board.h:267-308 | the iterator yields every spot of the word once and nothing else |
| `Board.SpotOfSpotBit` | checkers-tcp-core/include/board.h:227-230 | bit_to_spot_index inverts spot_index_to_bit |
| `Board.StartConstants` | checkers-tcp-core/include/board.h:100-120 | the start constants are three rows a side, the bases the outermost rows |
| `Rules.MoveShapeIsUnique` | checkers-tcp-core/include/board.h:41-46 | two spots are joined by at most one of a step and a jump, in one direction: displacements are disjoint modulo 32 |
| `Rules.StepHitsNothing` | checkers-tcp-core/src/checkers_engine.cpp:45-62 | a step that claims to be a capture removes nothing |
| `Rules.JumpHitsMidpoint` | checkers-tcp-core/src/checkers_engine.cpp:45-62 | a jump removes the square between exactly when the plain bit difference is not wrapped |
| `Rules.WrappedJumps` | checkers-tcp-core/src/checkers_engine.cpp:46-62 | the wrapped jumps are the twelve from bits 20-23, 28, 29 (north-west) and 2-5, 10, 11 (south-east) |
| `Engine.MovesRefine` | checkers-tcp-core/src/checkers_engine.cpp:227-252 | for every board and every set of pieces, man and king moves are the empty diagonal neighbours |
| `Engine.CaptureMovesRefine` | checkers-tcp-core/src/checkers_engine.cpp:259-284 | for every board and every set of pieces, man and king captures are the empty squares behind a neighbouring opponent |
| `Engine.CapturesRefine` | checkers-tcp-core/src/checkers_engine.cpp:212-220 | captures() is non-zero if and only if some piece of the side to move can capture |
| `Engine.PlayRefines` | checkers-tcp-core/src/checkers_engine.cpp:31-69 | make_move on words is the move of the rules on sets, for any spots and any type byte |
| `Engine.IsValidRefines` | checkers-tcp-core/src/checkers_engine.cpp:199-206 | is_valid is true exactly for a step or jump of an own piece, whatever the type byte and any duty to capture |
| `Engine.CapturedIndexIsMidpoint` | checkers-tcp-core/src/checkers_engine.cpp:165-176 | for a jump, get_captured_index is the square between, also where make_move wraps |
| `MoveLists.ValidMovesExact` | checkers-tcp-core/src/checkers_engine.cpp:75-100 | the list of valid moves has each offered move once and nothing else |
| `MoveLists.ValidMovesFromExact` | checkers-tcp-core/src/checkers_engine.cpp:107-132 | the list for one spot is duplicate-free and is the part of the whole list that starts there, for every spot |
| `MoveLists.BoardListExact` | checkers-tcp-core/src/checkers_engine.cpp:138-158 | board() lists each piece once with its colour and rank and nothing else |
| `CheckersEngineClass.CheckersEngine.constructor` | checkers-tcp-core/src/checkers_engine.cpp:11-14 | a new engine is empty and nobody's turn |
| `CheckersEngineClass.CheckersEngine.Reset` | checkers-tcp-core/src/checkers_engine.cpp:19-25 | reset leaves the start position of the rules |
| `CheckersEngineClass.CheckersEngine.MakeMove` | checkers-tcp-core/src/checkers_engine.cpp:31-69 | the field updates, case by case, leave the position the rules give |
| `CheckersEngineClass.CheckersEngine.MovesOfPiece` | checkers-tcp-core/src/checkers_engine.cpp:81-97 | the inner loops append the moves of one piece in iterator order |
| `CheckersEngineClass.CheckersEngine.MovesOfPass` | checkers-tcp-core/src/checkers_engine.cpp:80-97 | the outer loops append the moves of all kings or all men |
| `CheckersEngineClass.CheckersEngine.ValidMoves` | checkers-tcp-core/src/checkers_engine.cpp:75-100 | the loops return exactly the offered moves, each once |
| `CheckersEngineClass.CheckersEngine.ValidMovesFrom` | checkers-tcp-core/src/checkers_engine.cpp:107-132 | the loops return exactly the offered moves from that spot, each once |
| `CheckersEngineClass.CheckersEngine.IsValidMove` | checkers-tcp-core/src/checkers_engine.cpp:199-206 | the answer is the check of the rules |
| `CheckersEngineClass.CheckersEngine.PlacedPieces` | checkers-tcp-core/src/checkers_engine.cpp:142-155 | one loop of board() lists one kind of piece |
| `CheckersEngineClass.CheckersEngine.BoardSpots` | checkers-tcp-core/src/checkers_engine.cpp:138-158 | the loops list each piece once with its colour and rank and nothing else |
| `Game.MoveEffect` | checkers-tcp-core/src/checkers_engine.cpp:31-69 | a valid move with any type byte moves one own piece, crowns at most that one, takes at most one opponent, keeps colours disjoint and kings on pieces |
| `Game.OfferedIsValid` | checkers-tcp-core/src/checkers_engine.cpp:75-100 | every listed move passes is_valid, is a capture exactly if any piece can capture, and promotes exactly a man on the opposite base |
| `Game.OfferedKind` | checkers-tcp-core/include/board.h:51-57 | the type byte of a listed move is 1 for a jump plus 2 for a man that reaches the far row |
| `Game.OfferedMoveIsUnique` | checkers-tcp-core/src/checkers_engine.cpp:75-100 | between two spots at most one move is listed |
| `Game.OfferedCapture` | checkers-tcp-core/src/checkers_engine.cpp:45-63 | for a listed capture the square between holds an opponent, who is removed if and only if the jump is not wrapped |
| `Game.ReachableIsSound` | checkers-tcp-core/src/checkers_engine.cpp:19-69 | over every game: disjoint colours, kings on pieces, at most twelve a side, no man on its opposite base |
| `Game.OfferedKeepsSound` | checkers-tcp-core/src/checkers_engine.cpp:31-69 | every offered move keeps that invariant, and neither side gains a piece |
| `Game.MoveLowersDistance` | checkers-tcp-core/src/checkers_engine.cpp:31-44 | an offered move never raises the men's total distance to promotion, and a man's move lowers it |
| `Game.ManMovesAreBounded` | checkers-tcp-core/include/board.h:100-120 | the distance starts at 144, so no game has more than 144 man moves |
| `Game.OtherSideHasPieces` | checkers-tcp-core/src/checkers_engine.cpp:31-69 | in every game the side not to move has a piece |
| `Game.TurnHoldingIsBounded` | checkers-tcp-core/src/checkers_engine.cpp:63-68 | without wrapped captures a side makes at most as many moves in a row as the opponent had pieces when it got the turn |
| `TurnRule.JumpsFromVacated` | checkers-tcp-core/src/checkers_engine.cpp:64-68 | from the square just left the same captures are open as before the move, but for the one just made |
| `TurnRule.JumpsFromLanding` | checkers-tcp-core/src/checkers_engine.cpp:64-68 | from the new square the same captures are open as before the move, and after a wrapped one also the jump back |
| `TurnRule.TurnIsRight` | checkers-tcp-core/src/checkers_engine.cpp:64-68 | for every listed capture: the turn is kept exactly when the piece can capture again, if and only if, on the board before the move, a forward capture is open from the new square, or another capture from the old square is open just when the piece ends as a king with a backward capture open |
| `OneGame.ListedIsOffered` | checkers-tcp-core/src/checkers_engine.cpp:75-100 | a move found in the words of the list of valid moves is an offered move, with the board it leaves |
| `OneGame.TurnKeptWrongly` | checkers-tcp-core/src/checkers_engine.cpp:64-68 | in a game from the start a capturing piece keeps the turn with no capture open to anyone of its side |
| `OneGame.TurnLostWrongly` | checkers-tcp-core/src/checkers_engine.cpp:64-68 | in a game from the start a king loses the turn after an unwrapped capture although it can capture again |
| `OneGame.WrappedCapturesNeedNotEnd` | checkers-tcp-core/src/checkers_engine.cpp:45-68 | for every n a game from the start ends with 2n listed captures in a row that take nothing, the turn never passing |
| `ClientModel.MirrorStep` | checkers-tcp-client/src/checkers_model.cpp:140-169 | after an offered move the shown pieces are engine pieces of their colour; the boards occupy the same spots if and only if the move was not a wrapped capture |
| `ClientModel.MirrorOverGames` | checkers-tcp-client/src/checkers_model.cpp:140-169 | over whole games the shown pieces are engine pieces of their colour, all of them if no capture was wrapped; and no king is ever shown as one, because the promotion test reads a square just cleared |
| `HiddenPieces.MirrorMissesTheHidden` | checkers-tcp-client/src/checkers_model.cpp:140-169 | over every game exactly the hidden pieces are not shown: those jumped in a wrapped capture and not captured since; so the boards agree on occupancy if and only if there are none |
| `HiddenPieces.HiddenCounts` | checkers-tcp-client/src/checkers_model.cpp:160-164 | one more is hidden after a wrapped capture of a shown piece, one less after a capture that takes a hidden one, as many otherwise |
| `ClientModel.OfferedCaptureIndex` | checkers-tcp-client/src/checkers_model.cpp:160-164 | the index the client clears is on the board and holds the opponent jumped over |
| `ClientModel.CheckersModel.constructor` | checkers-tcp-client/src/checkers_model.cpp:14-33 | a new client shows the start position |
| `ClientModel.CheckersModel.Setup` | checkers-tcp-client/src/checkers_model.cpp:14-33 | the engine is reset and its board copied |
| `ClientModel.CheckersModel.ShowStart` | checkers-tcp-client/src/checkers_model.cpp:18-32 | the loop over board() fills the shown board with the start position |
| `ClientModel.CheckersModel.Show` | checkers-tcp-client/src/checkers_model.cpp:146-163 | the writes to the shown board, in the code's order |
| `ClientModel.CheckersModel.MakeMove` | checkers-tcp-client/src/checkers_model.cpp:140-169 | plays the one offered move between the two spots on both boards, or changes nothing and says INVALID |
| `Session.AcceptedMove` | checkers-tcp-server/src/game_session.cpp:162-169 | an accepted move has its exact effect, keeps the counts, is sent to the opponent only and does not end the session |
| `Session.RefusalEndsSession` | checkers-tcp-server/src/game_session.cpp:92-135 | a refusal in any round: the session ends with that round, both players are told, and the final board is the one before the round with the accepted moves of that round on it |
| `Session.ToldIffRefused` | checkers-tcp-server/src/game_session.cpp:160-176 | a player is told INVALID_MOVE if and only if some move of the session was refused |
| `Session.ToldExactly` | checkers-tcp-server/src/game_session.cpp:92-190 | over all rounds each player is sent each message exactly as often as something happened that it is sent for |
| `Session.ResignationIsTold` | checkers-tcp-server/src/game_session.cpp:177-181 | a player hears of a resignation if and only if the other one resigned in a served round |
| `Session.DisconnectionIsTold` | checkers-tcp-server/src/game_session.cpp:105-123 | a player is told the opponent has gone if and only if the other one hung up or could not be read |
| `Session.ServerErrorIsTold` | checkers-tcp-server/src/game_session.cpp:128-133 | each player is told the server has gone if and only if a socket reported anything else |
| `Session.MoveIsTold` | checkers-tcp-server/src/game_session.cpp:162-170 | a move reaches a player if and only if the other one made it in a served round and it was valid then |
| `Session.RefusalIsTold` | checkers-tcp-server/src/game_session.cpp:170-175 | each player is told INVALID_MOVE if and only if a move of either was refused |
| `Session.FailedPollEndsQuietly` | checkers-tcp-server/src/game_session.cpp:96-101 | a failed poll ends the session, tells nobody and leaves the board alone |
| `Session.SessionEndsIff` | checkers-tcp-server/src/game_session.cpp:92-140 | a session ends exactly when poll fails, a player resigns, hangs up, cannot be read or has a move refused, or a socket reports anything else |
| `Session.ServerIsSafe` | checkers-tcp-server/src/game_session.cpp:92-135 | whatever both clients send: colours stay disjoint, kings stay on pieces, no side gains a piece |
| `Session.SecondSocketIsStillServed` | checkers-tcp-server/src/game_session.cpp:103-134 | in the round in which the first socket ends the session the second one is still served: its valid move is played and forwarded, and that is the final board |
| `Session.ExitEndsSession` | checkers-tcp-server/src/game_session.cpp:92 | after a round that has ended the session no later round changes anything |
| `Session.SessionData.constructor` | checkers-tcp-server/src/game_session.cpp:144-152 | a session starts from the start position |
| `Session.SessionData.HandleMessage` | checkers-tcp-server/src/game_session.cpp:160-187 | engine, messages sent and exit flag change as the specification of one message says |
| `Session.SessionData.HandleEvent` | checkers-tcp-server/src/game_session.cpp:103-134 | the same for hang-ups, failed reads and unknown events |
| `Session.SessionData.Routine` | checkers-tcp-server/src/game_session.cpp:82-137 | the loop handles the rounds poll reports, both sockets in each, until an exit |
| `Replication.WhiteOpens` | checkers-tcp-server/src/game_session.cpp:86-88 | the first socket, and only that, is told that it plays white, and its player opens |
| `Replication.MoverIsCaughtUp` | checkers-tcp-client/qml/CheckerBoard.qml:28-30 | a client whose engine gives it the turn has replayed the whole log, and nothing is on its way to it |
| `Replication.ServerAccepts` | checkers-tcp-server/src/game_session.cpp:162-169 | the message the server takes is the next move of the log and is accepted, replayed and forwarded |
| `Replication.StepKeepsInv` | checkers-tcp-server/src/game_session.cpp:160-176 | every step of a user, the server or a client keeps the replication invariant |
| `Replication.ReplicationHolds` | checkers-tcp-client/src/checkers_model.cpp:140-169 | over every interleaving all three engines are replays of prefixes of one log of offered moves, and the server never refuses a move |
| `Replication.QuietMeansEqual` | checkers-tcp-server/src/game_session.cpp:160-176 | with all links empty the three engines are equal |
| `Replication.HandlingLowersPending` | checkers-tcp-server/src/game_session.cpp:160-176 | from any state of the invariant, every message the server or a client handles keeps the invariant and the log and lowers twice the messages on the way up plus those on the way down by exactly one |
| `Replication.SomeoneCanHandle` | checkers-tcp-server/src/game_session.cpp:160-176 | as long as a message is on its way some party can handle it |
| `Replication.LinksDrain` | checkers-tcp-client/src/checkers_model.cpp:140-169 | once the users stop, in whatever order messages are handled: no more steps than that number, somebody can always make the next one, and after the last all three engines are the replay of every move made |
| `Replication.SecondMoverIsRefused` | checkers-tcp-server/src/game_session.cpp:167-174 | of two moves offered in one position the second is invalid once the first has passed the turn |
| `Replication.RefusalWithoutTheGuard` | checkers-tcp-server/src/game_session.cpp:160-176 | without the assumption on the users there is a run from the start, both players opening, in which the server refuses a move and ends the session |
| `BigintClass.Bigint.SubtractBits` | third-party/spdlog/include/spdlog/fmt/bundled/format-inl.h:380-384 | one digit of a difference with its borrow, through a wrapped 64-bit value |
| `BigintClass.Bigint.RemoveLeadingZeros` | third-party/spdlog/include/spdlog/fmt/bundled/format-inl.h:386-390 | the value stays, the top digit is non-zero or the number is a single zero |
| `BigintClass.Bigint.SubtractAligned` | third-party/spdlog/include/spdlog/fmt/bundled/format-inl.h:393-402 | subtracts the value, exactly if and only if the borrow does not stall, and by how much it is off when it does |
| `BigintClass.NoStall` | third-party/spdlog/include/spdlog/fmt/bundled/format-inl.h:400 | a dividend at most one bigit longer than the divisor never stalls |
| `BigintClass.StallHappens` | third-party/spdlog/include/spdlog/fmt/bundled/format-inl.h:400 | 2^64 minus 1 does stall |
| `BigintClass.LongQuotient` | third-party/spdlog/include/spdlog/fmt/bundled/format-inl.h:585-596 | a dividend two or more bigits longer has a quotient of at least 2^32, which the int counter cannot hold |
| `BigintClass.Bigint.MultiplySmall` | third-party/spdlog/include/spdlog/fmt/bundled/format-inl.h:404-413 | multiplies the value by a 32-bit number, without overflow of the 64-bit intermediate |
| `BigintClass.Bigint.MultiplyLarge` | third-party/spdlog/include/spdlog/fmt/bundled/format-inl.h:415-430 | multiplies the value by a 64-bit number, without overflow of the carry |
| `BigintClass.Bigint.AssignBigint` | third-party/spdlog/include/spdlog/fmt/bundled/format-inl.h:440-446 | copies digits and exponent |
| `BigintClass.Bigint.AssignNumber` | third-party/spdlog/include/spdlog/fmt/bundled/format-inl.h:448-456 | holds the number, with a non-zero top digit if it is not zero, in at most two bigits |
| `BigintClass.Bigint.ShiftLeft` | third-party/spdlog/include/spdlog/fmt/bundled/format-inl.h:460-473 | multiplies the value by 2^shift, part in the exponent, part in the digits |
| `BigintClass.Compare` | third-party/spdlog/include/spdlog/fmt/bundled/format-inl.h:481-495 | the sign of the difference, with equal numbers ranked by how many bigits they store |
| `BigintClass.CompareIsExact` | third-party/spdlog/include/spdlog/fmt/bundled/format-inl.h:481-495 | exact whenever the operand with more stored bigits has a non-zero lowest bigit |
| `BigintClass.MisreadHappens` | third-party/spdlog/include/spdlog/fmt/bundled/format-inl.h:481-495 | 2^32 stored in two ways compares as different |
| `BigintClass.LowBigitNonzero` | third-party/spdlog/include/spdlog/fmt/bundled/format-inl.h:585-596 | a divisor with a non-zero lowest bigit is never mistaken |
| `BigintClass.AlignedComparesExactly` | third-party/spdlog/include/spdlog/fmt/bundled/format-inl.h:572-596 | after align no equal dividend is mistaken |
| `BigintClass.AddCompare` | third-party/spdlog/include/spdlog/fmt/bundled/format-inl.h:498-519 | the sign of lhs1 + lhs2 - rhs, in spite of the early exits |
| `BigintClass.Bigint.PowerStep` | third-party/spdlog/include/spdlog/fmt/bundled/format-inl.h:533-537 | one turn of the bit scan squares the power and takes in the next bit |
| `BigintClass.FindTopBit` | third-party/spdlog/include/spdlog/fmt/bundled/format-inl.h:525-528 | the bit scan finds the highest power of two in the exponent, within an int |
| `BigintClass.Bigint.AssignPow10` | third-party/spdlog/include/spdlog/fmt/bundled/format-inl.h:522-539 | holds exactly 10^e for every e the int bitmask can scan, and on the way never stores more than 7e / 96 + 2 bigits |
| `BigintClass.FivesAreShort` | third-party/spdlog/include/spdlog/fmt/bundled/format-inl.h:528-538 | 5^h is stored in at most 7h / 96 + 1 bigits |
| `Convolution.DiagonalsAreProduct` | third-party/spdlog/include/spdlog/fmt/bundled/format-inl.h:548-565 | the diagonal sums, as digits, are the product |
| `BigintClass.Bigint.Square` | third-party/spdlog/include/spdlog/fmt/bundled/format-inl.h:541-568 | leaves exactly the square, within a 128-bit accumulator |
| `BigintClass.Bigint.Align` | third-party/spdlog/include/spdlog/fmt/bundled/format-inl.h:572-581 | the exponent becomes the smaller of the two and the value stays |
| `BigintClass.MovedUp` | third-party/spdlog/include/spdlog/fmt/bundled/format-inl.h:575-580 | the loop from the top moves every digit up, none overwritten before it is read, and zeros fill the places below |
| `BigintClass.Bigint.DivmodAssign` | third-party/spdlog/include/spdlog/fmt/bundled/format-inl.h:585-596 | terminates with old = q * d + new and new < d, unless the operands are misread, and then q is 0 and nothing changes; stores no more bigits than fit beside the divisor |
| `Digits.RoundHalfEvenIsNearest` | third-party/spdlog/include/spdlog/fmt/bundled/format-inl.h:2312-2313 | round-half-even is a nearest integer, and the even one of two |
| `Digits.PropagateCarry` | third-party/spdlog/include/spdlog/fmt/bundled/format-inl.h:2314-2327 | the carry loop keeps the value; all nines become a 1 with the exponent raised |
| `FixedFormat.NextDigit` | third-party/spdlog/include/spdlog/fmt/bundled/format-inl.h:2306-2311 | each division yields one decimal digit and a remainder below the denominator, and can be repeated |
| `FixedFormat.LastDigit` | third-party/spdlog/include/spdlog/fmt/bundled/format-inl.h:2311-2330 | the last digit is rounded half-even with what is left |
| `FixedFormat.FixedDigits` | third-party/spdlog/include/spdlog/fmt/bundled/format-inl.h:2297-2330 | the n digits with the final exponent are the value rounded half-even to n digits |
| `ShortestFormat.GoOn` | third-party/spdlog/include/spdlog/fmt/bundled/format-inl.h:2275-2295 | when neither test succeeds no decimal of this length lies in the interval, and the next digit is below ten |
| `ShortestFormat.Stop` | third-party/spdlog/include/spdlog/fmt/bundled/format-inl.h:2279-2291 | when a test succeeds the digit as the code rounds it lies in the interval and is the closest there |
| `ShortestFormat.StopAtEven` | third-party/spdlog/include/spdlog/fmt/bundled/format-inl.h:2279-2291 | of two decimals equally close the one with the even last digit is taken |
| `ShortestFormat.Tests` | third-party/spdlog/include/spdlog/fmt/bundled/format-inl.h:2275-2277 | what the two comparisons tell about the remainder |
| `ShortestFormat.FinishDigit` | third-party/spdlog/include/spdlog/fmt/bundled/format-inl.h:2280-2287 | when the last digit is incremented |
| `ShortestFormat.DigitAndTests` | third-party/spdlog/include/spdlog/fmt/bundled/format-inl.h:2273-2277 | one turn up to its tests: the digit extends the decimal, and the tests say where what is left lies between the midpoints, equality with the lower one counting exactly if lower has no larger exponent than the denominator |
| `ShortestFormat.BigitsOfEqual` | third-party/spdlog/include/spdlog/fmt/bundled/format-inl.h:2275 | a remainder equal to the lower distance stores no more bigits exactly if the exponents are equal, which is when compare sees the equality |
| `ShortestFormat.ShortestDigits` | third-party/spdlog/include/spdlog/fmt/bundled/format-inl.h:2266-2296 | terminates; every digit is at most nine; the decimal reads back as the number, no shorter one does, and none of its length that does is closer, where a decimal on the lower midpoint counts exactly if lower has no larger exponent than the denominator |
| `FallbackFormatting.IntervalOfNumber` | third-party/spdlog/include/spdlog/fmt/bundled/format-inl.h:2221-2266 | numerator over denominator times 10^exp10 is the number, and the distances are half the gaps to its neighbours |
| `FallbackFormatting.MoreFactorsOfTwo` | third-party/spdlog/include/spdlog/fmt/bundled/format-inl.h:2233-2244 | a numerator with the larger exponent is never equal to the denominator, so never misread |
| `FallbackFormatting.PrepareInteger` | third-party/spdlog/include/spdlog/fmt/bundled/format-inl.h:2233-2244 | the first case of the set-up holds the rounding interval |
| `FallbackFormatting.PrepareSmall` | third-party/spdlog/include/spdlog/fmt/bundled/format-inl.h:2245-2255 | the second case does |
| `FallbackFormatting.PrepareFraction` | third-party/spdlog/include/spdlog/fmt/bundled/format-inl.h:2256-2265 | the third case does |
| `FallbackFormatting.Prepare` | third-party/spdlog/include/spdlog/fmt/bundled/format-inl.h:2233-2266 | in all three cases numerator, denominator and distances hold the interval, the numerator is never misread, and its exponent is that of lower |
| `FallbackFormatting.FullyShortest` | third-party/spdlog/include/spdlog/fmt/bundled/format-inl.h:2266-2296 | what is printed is the shortest decimal that reads back, and the closest, if and only if the lower end is seen, the significand is odd, or no decimal on the lower midpoint would win |
| `LowerEnd.SixDigitsReadBack` | third-party/spdlog/include/spdlog/fmt/bundled/format-inl.h:2275-2279 | for 4720687866210938 * 2^33 six digits lie exactly on the lower midpoint and read the number back |
| `LowerEnd.PrintsMoreThanSixDigits` | third-party/spdlog/include/spdlog/fmt/bundled/format-inl.h:2216-2296 | fallback_format prints more than six digits for that number, so not the shortest |
| `FallbackFormatting.OnlyDigit` | third-party/spdlog/include/spdlog/fmt/bundled/format-inl.h:2299-2304 | with no digits wanted the one digit is the number rounded half-even to a power of ten |
| `FallbackFormatting.DoublesFit` | third-party/spdlog/include/spdlog/fmt/bundled/format-inl.h:435 | for the parts of a double and an exponent estimate that is off by at most one, the denominator and the exponents leave room for everything in 32 bigits, in all three cases of the set-up |
| `FallbackFormatting.FallbackFormat` | third-party/spdlog/include/spdlog/fmt/bundled/format-inl.h:2216-2331 | for every f * 2^e with a fitting exponent estimate: the correctly rounded decimal of the length asked for, or the shortest that reads back, with the exact condition for the latter and ties to even; for a double no bigint ever stores more than 32 bigits |
| `ReadBack.AssignIsNormal` | third-party/spdlog/include/spdlog/fmt/bundled/format-inl.h:206-230 | fp::assign leaves a full significand or the least exponent, and says the predecessor is closer exactly for a power of two above the least exponent |
| `ReadBack.ZeroPattern` | third-party/spdlog/include/spdlog/fmt/bundled/format-inl.h:206-230 | the pattern of all zeros is zero at the least exponent |
| `ReadBack.NextPattern` | third-party/spdlog/include/spdlog/fmt/bundled/format-inl.h:206-230 | every bit pattern is the number one unit in the last place above the one before it, which from zero on fixes the number of each |
| `ReadBack.OnePointNought` | third-party/spdlog/include/spdlog/fmt/bundled/format-inl.h:206-230 | the patterns of 1.0 as a double and as a float |
| `ReadBack.OthersAreFarther` | third-party/spdlog/include/spdlog/fmt/bundled/format-inl.h:221-231 | every other binary number of the format is at least a unit of the last place away, or half of one below where the predecessor is closer |
| `ReadBack.IntervalIsNearest` | third-party/spdlog/include/spdlog/fmt/bundled/format-inl.h:2219-2231 | every decimal in the rounding interval is nearest to its number among all binary numbers of the format, and alone so strictly inside |
| `ReadBack.ShortestReadsBack` | third-party/spdlog/include/spdlog/fmt/bundled/format-inl.h:2226-2231 | of all binary numbers of the format the printed one is nearest to the decimal, and alone so if its significand is odd |
| `ReadBack.RoundedReadsBack` | third-party/spdlog/include/spdlog/fmt/bundled/format-inl.h:2297-2330 | with given digits, if the last decimal place is finer than the significand, the decimal printed is strictly nearer to the number than to any other of the format |
| `ReadBack.SeventeenDigitsReadBack` | third-party/spdlog/include/spdlog/fmt/bundled/format-inl.h:2297-2330 | so it is for every double from 17 digits on, and every float from 9 |
| `ReadBack.SixteenDigitsAreAnotherNumber` | third-party/spdlog/include/spdlog/fmt/bundled/format-inl.h:2297-2330 | 16 digits are not enough: fallback_format prints 10^16 + 2 as 10^16, another double |
| `PrintedNumber.IntervalHoldsNumber` | third-party/spdlog/include/spdlog/fmt/bundled/format-inl.h:2221-2266 | as real numbers, numerator over denominator times 10^exp10 is f * 2^e |
| `PrintedNumber.ShortestIsNearest` | third-party/spdlog/include/spdlog/fmt/bundled/format-inl.h:2266-2296 | the digits times ten to the exponent returned are a decimal to which the number printed is nearest among all numbers of the format, and alone so if its significand is odd |
| `PrintedNumber.NoShorterReadsBack` | third-party/spdlog/include/spdlog/fmt/bundled/format-inl.h:2266-2296 | to every decimal of fewer digits another number of the format is at least as near, and nearer if the significand is even and the lower end is seen |
| `PrintedNumber.RoundedIsNearest` | third-party/spdlog/include/spdlog/fmt/bundled/format-inl.h:2297-2330 | the digits of given precision times ten to the exponent returned are nearest to the number, from 17 digits for a double and 9 for a float |
| `PrintedNumber.RoundedIsHalfAway` | third-party/spdlog/include/spdlog/fmt/bundled/format-inl.h:2297-2330 | and for every precision, as many digits as asked for, at most half a unit of the last place away, also for a precision of zero |
| `CircularQueue.QueueIsSuffixOfPushes` | third-party/spdlog/include/spdlog/details/circular_q.h:48-102 | over every run of pushes and legal pops on a newly constructed queue for c elements: it holds the last ones pushed, in order, a push adding one unless there are c, and pushed = popped + dropped + held |
| `CircularQueue.PushesOntoNewQueue` | third-party/spdlog/include/spdlog/details/circular_q.h:27-62 | n pushes onto a new queue for c elements leave exactly the last min(n, c), with max(0, n - c) drops |
| `CircularQueue.NothingEntersWrappedQueue` | third-party/spdlog/include/spdlog/details/circular_q.h:27-62 | a queue constructed for 2^64 - 1 elements never holds any and counts no drops |
| `CircularQueue.CircularQ.Disabled` | third-party/spdlog/include/spdlog/details/circular_q.h:24-25 | a default queue is disabled and empty |
| `CircularQueue.CircularQ.constructor` | third-party/spdlog/include/spdlog/details/circular_q.h:27-30 | an empty queue of that capacity; one of 2^64 - 1 is disabled |
| `CircularQueue.CircularQ.MoveFrom` | third-party/spdlog/include/spdlog/details/circular_q.h:37-46 | takes over the contents and leaves the other queue disabled, or itself if moved onto itself |
| `CircularQueue.CircularQ.PushBack` | third-party/spdlog/include/spdlog/details/circular_q.h:49-62 | appends, dropping the oldest element and counting it when full |
| `CircularQueue.CircularQ.Front` | third-party/spdlog/include/spdlog/details/circular_q.h:66-69 | the oldest element |
| `CircularQueue.CircularQ.Size` | third-party/spdlog/include/spdlog/details/circular_q.h:77-87 | the number of elements, on both sides of the wrap |
| `CircularQueue.CircularQ.At` | third-party/spdlog/include/spdlog/details/circular_q.h:91-95 | the i-th oldest element |
| `CircularQueue.CircularQ.PopFront` | third-party/spdlog/include/spdlog/details/circular_q.h:99-102 | removes the oldest element |
| `CircularQueue.CircularQ.Empty` | third-party/spdlog/include/spdlog/details/circular_q.h:104-107 | true exactly for no elements |
| `CircularQueue.CircularQ.Full` | third-party/spdlog/include/spdlog/details/circular_q.h:109-117 | true exactly when the next push would drop; a capacity of zero is full and empty at once |
| `CircularQueue.CircularQ.OverrunCounter` | third-party/spdlog/include/spdlog/details/circular_q.h:119-122 | the number of drops, modulo 2^64 |
| `BlockingQueue.MpmcBlockingQueue.constructor` | third-party/spdlog/include/spdlog/details/mpmc_blocking_q.h:26-28 | an empty queue of that capacity |
| `BlockingQueue.MpmcBlockingQueue.Enqueue` | third-party/spdlog/include/spdlog/details/mpmc_blocking_q.h:32-40 | waits while full and never drops anything |
| `BlockingQueue.MpmcBlockingQueue.EnqueueNowait` | third-party/spdlog/include/spdlog/details/mpmc_blocking_q.h:43-50 | enters at once and drops one element if full |
| `BlockingQueue.MpmcBlockingQueue.DequeueFor` | third-party/spdlog/include/spdlog/details/mpmc_blocking_q.h:54-67 | takes the oldest element, or nothing from an empty queue |
| `BlockingQueue.MpmcBlockingQueue.OverrunCounter` | third-party/spdlog/include/spdlog/details/mpmc_blocking_q.h:107-111 | the drops so far, modulo 2^64 |
| `BlockingQueue.MpmcBlockingQueue.Size` | third-party/spdlog/include/spdlog/details/mpmc_blocking_q.h:113-117 | the number of elements |
| `ThreadPool.StepKeepsInv` | third-party/spdlog/include/spdlog/details/thread_pool-inl.h:43-131 | each of the seven steps keeps order, counts, ledgers and the shutdown state |
| `ThreadPool.EveryMessageIsAccountedFor` | third-party/spdlog/include/spdlog/details/thread_pool-inl.h:81-131 | in every run enqueued = taken + lost + queued, message for message and in order; each worker has handled what it took; the counter counts the drops |
| `ThreadPool.NewPoolHasItsThreads` | third-party/spdlog/include/spdlog/details/thread_pool-inl.h:16-32 | a pool is created exactly for 1 to 1000 threads, with a waiting worker for each |
| `ThreadPool.WhoWaits` | third-party/spdlog/include/spdlog/details/thread_pool-inl.h:81-91 | while the pool is open an overrunning post never waits, and a blocking one waits exactly for a full queue |
| `ThreadPool.PostDropsIffItOverruns` | third-party/spdlog/include/spdlog/details/thread_pool-inl.h:81-91 | a post drops a message if and only if it overruns a full queue, and then the oldest |
| `ThreadPool.BlockingLosesNothing` | third-party/spdlog/include/spdlog/details/thread_pool-inl.h:81-91 | in every run whose posts all block nothing is dropped or ignored: posted = taken + queued |
| `ThreadPool.OpenPoolIsServed` | third-party/spdlog/include/spdlog/details/thread_pool-inl.h:93-131 | while the pool is open, some worker can go on whenever a message is queued or in hand |
| `ThreadPool.ShutdownHandlesEverything` | third-party/spdlog/include/spdlog/details/thread_pool-inl.h:43-58 | at the end of the joins everything queued at the start has been taken, in order, nothing lost, and each worker has handled all it took and consumed exactly one terminate message, last |
| `ThreadPool.SomeoneCanMove` | third-party/spdlog/include/spdlog/details/mpmc_blocking_q.h:32-67 | with room in the queue some thread can move until the workers are joined |
| `ThreadPool.ShutdownIsBounded` | third-party/spdlog/include/spdlog/details/thread_pool-inl.h:43-58 | only a bounded number of steps other than timeouts can follow the start of the destructor |
| `ThreadPool.DestructorReturnsIffRoom` | third-party/spdlog/include/spdlog/details/thread_pool-inl.h:16-58 | the destructor can return if and only if the capacity is neither 0 nor 2^64 - 1 |
| `WorkerLoops.PostAsyncMsg` | third-party/spdlog/include/spdlog/details/thread_pool-inl.h:81-91 | enters by the policy's rule |
| `WorkerLoops.ProcessNextMsg` | third-party/spdlog/include/spdlog/details/thread_pool-inl.h:101-131 | passes on the oldest message; false for a terminate message only |
| `WorkerLoops.WorkerLoop` | third-party/spdlog/include/spdlog/details/thread_pool-inl.h:93-96 | handles everything before the first terminate message, in order, and consumes that one |
| `WorkerLoops.PostTerminates` | third-party/spdlog/include/spdlog/details/thread_pool-inl.h:47-50 | posts terminate messages behind everything queued and drops nothing, as far as there is room |
| `Codec.UnsignedOfInt` | third-party/pack_unpack/src/pack.cpp:56-70 | the bytes written for an integer are its residue, most significant first |
| `Codec.ReducedExactly` | third-party/pack_unpack/src/pack.cpp:72-124 | an integer comes back unchanged if and only if it is in the range of its field |
| `Codec.PackI16` | third-party/pack_unpack/src/pack.cpp:56-58 | two bytes, most significant first, and no other byte of the buffer |
| `Codec.PackI32` | third-party/pack_unpack/src/pack.cpp:60-63 | four bytes |
| `Codec.PackI64` | third-party/pack_unpack/src/pack.cpp:65-70 | eight bytes |
| `Codec.ReadersAgree` | third-party/pack_unpack/src/pack.cpp:72-135 | the six readers give the unsigned and the re-signed value of the bytes |
| `Codec.PackField` | third-party/pack_unpack/src/pack.cpp:164-252 | one case of pack writes its field and no other byte of the buffer |
| `Codec.Pack` | third-party/pack_unpack/src/pack.cpp:137-259 | writes the fields one after the other and returns their length modulo 2^32 |
| `Codec.UnpackField` | third-party/pack_unpack/src/pack.cpp:286-366 | one case of unpack reads its field, moves on by its length, and writes an integer to its variable, or a string with its terminator to the front of its array and nothing else there |
| `Codec.Unpack` | third-party/pack_unpack/src/pack.cpp:261-378 | reads the fields one after the other, each with its own width; every value ends up where its own pointer points, a string terminated and with the rest of its array unchanged |
| `Codec.RoundTrip` | third-party/pack_unpack/src/pack.cpp:137-378 | for every format and matching arguments with strings up to 65535 bytes: every argument comes back as its own field restores it, and exactly the bytes written are read |
| `Codec.RoundTripExactly` | third-party/pack_unpack/src/pack.cpp:137-378 | all arguments come back unchanged if and only if integers are in range and strings within 65535 bytes and their widths |
| `Codec.FormatRoundTrip` | third-party/pack_unpack/src/pack.cpp:137-378 | without widths, in range and within 65535 bytes, unpack returns what pack was given |
| `Codec.WidthIsDecimal` | third-party/pack_unpack/src/pack.cpp:368-374 | the accumulated width is the number the digits spell in decimal, modulo 2^64 |
| `Codec.WidthPrefix` | third-party/pack_unpack/src/pack.cpp:357-374 | a decimal number in front of a string is the width of that string and of nothing behind it |
| `Codec.WidthBoundsUnlessMet` | third-party/pack_unpack/src/pack.cpp:357-363 | a string field with a width k of at least 1 takes at most k bytes of the destination, terminator included, if and only if the length in the buffer is not k |
| `Codec.DestinationsOfWidth` | third-party/pack_unpack/src/pack.cpp:357-363 | the same in terms of the string that was packed, for every field of a format |
| `Codec.ThreeInThree` | third-party/pack_unpack/src/pack.cpp:357-363 | the format 3s with a string of three bytes takes four |
| `WireFormat.OneByteLetters` | third-party/pack_unpack/src/pack.cpp:166-176 | c and C write the low byte of any integer and read back the value of -128..127, or of 0..255, that agrees with it modulo 256 |
| `WireFormat.TwoByteLetters` | third-party/pack_unpack/src/pack.cpp:178-189 | h and H: two bytes, the higher first; back comes the value of -32768..32767, or of 0..65535, that agrees modulo 65536 |
| `WireFormat.FourByteLetters` | third-party/pack_unpack/src/pack.cpp:190-201 | l and L: four bytes, and the value modulo 2^32 in the signed or unsigned range |
| `WireFormat.EightByteLetters` | third-party/pack_unpack/src/pack.cpp:202-213 | q and Q: eight bytes, and the value modulo 2^64 in the signed or unsigned range |
| `WireFormat.StringBytes` | third-party/pack_unpack/src/pack.cpp:244-252 | s, with any number in front: the length modulo 65536 in two bytes and all the characters |
| `WireFormat.StringLetter` | third-party/pack_unpack/src/pack.cpp:356-364 | up to 65535 characters come back, cut to one less than the width if they are more than that |
| `WireFormat.OtherCharacter` | third-party/pack_unpack/src/pack.cpp:368-374 | any other character stands for nothing, and ends the number in front of it |
| `WireFormat.FormatsConcatenate` | third-party/pack_unpack/src/pack.cpp:137-378 | a format made of two, the first not ending in a digit, packs the arguments of the first and then those of the second, and unpacks what each would |

## Left out

- `Replication.StepKeepsInv`: a client starts a move only while its engine's turn is its own colour; the client's
  code does not check this, so it is an assumption on the users. Resigning and disconnecting are not among its
  steps, because they end the session.
- `Replication.ReplicationHolds`: links carry whole decoded messages in order; sockets, poll, partial reads and
  byte framing are not modelled.
- `Session.SessionData.Routine`: what poll and receive report is a parameter; the log lines, the socket clean-up
  and the atomic type of the exit flag are left out.
- `CheckersEngineClass.CheckersEngine.MakeMove`: spots are below 32; the code indexes its tables with a byte from
  the network unchecked, and larger values are outside the language's rules.
- `Game.TurnHoldingIsBounded`: excludes wrapped captures, for which the bound is false
  (`OneGame.WrappedCapturesNeedNotEnd`).
- `ClientModel.MirrorOverGames`: says nothing about the rank of a shown piece except that it is never a king.
- `ClientModel.CheckersModel.MakeMove`: highlighting, list roles and change signals of the user interface are left out.
- `BigintClass.Bigint.SubtractAligned`: asks for the operands the source's assertions ask for; the int range of the
  exponent is not modelled.
- `BigintClass.Bigint.DivmodAssign`: excludes dividends two or more bigits longer than the divisor, which the source
  accepts: they can stall (`BigintClass.StallHappens`), and their quotient does not fit the int it is counted in
  (`BigintClass.LongQuotient`).
- `BigintClass.Bigint.Square`: the 128-bit accumulator is a natural number proved to stay below 2^128, for numbers
  of at most 2^32 bigits; the portable two-word accumulator is not part of this model.
- `ShortestFormat.ShortestDigits`: where lower has the larger exponent, minimality and closeness leave out decimals
  exactly on the lower midpoint, because the code passes over them (`FallbackFormatting.FullyShortest`).
- `FallbackFormatting.FallbackFormat`: takes the number apart beforehand (`ReadBack.Assign`), takes the exponent
  estimate as given, returns digits as numbers instead of characters, and limits |exp10| to 2^30 as assign_pow10 needs.
- `ReadBack.ShortestReadsBack`: infinities and the greatest exponent are not among the binary numbers.
- `PrintedNumber.NoShorterReadsBack`: takes decimals down to one digit at the estimated exponent exp10.
- `ReadBack.RoundedReadsBack`: takes numbers of at least 10^exp10, whose first digit is not zero.
- `WorkerLoops.WorkerLoop`: one worker alone with a queue that already holds a terminate message, without which the
  loop waits for ever; other threads in between are the steps of `ThreadPool`.
- `ThreadPool.DestructorReturnsIffRoom`: nobody posts once the destructor has started, and a logger that throws or
  never returns is not modelled; a timeout is a step that takes nothing from an empty queue.
- `Codec.RoundTrip`: the floating-point letters f, d and g (pack754 and unpack754) are not part of this model.
- detect_move_type, bitboard_to_board and the stream operators: declared or defined but not used by the game.
- The lobby map of the server: look-ups only.
- Dragonbox, Grisu and the rest of the formatting library; the other parts of the logging library.
