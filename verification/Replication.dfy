/** Three engines, four FIFO links: a client plays a move on its own engine and sends it, the server checks
    and replays it and forwards it, the other client replays it. Links carry whole decoded messages; a step
    is one user move, one message handled by the server, or one message handled by a client. */
module Replication {
  import opened Board
  import opened Rules
  import opened Game
  import opened Session
  import OneGame

  datatype Pair<T> = Pair(first: T, second: T) {
    function At(i: Player): T {
      if i == 0 then first else second
    }

    function With(i: Player, x: T): Pair<T> {
      if i == 0 then this.(first := x) else this.(second := x)
    }
  }

  // log, applied and handled are history: the moves users have made, in order, and how many of them each
  // client and the server have replayed.
  datatype System = System(
    clients: Pair<Position>, server: Position, exited: bool,
    up: Pair<seq<Message>>, down: Pair<seq<Message>>,
    log: seq<Move>, applied: Pair<nat>, handled: nat)

  // The first player gets IM_WHITE.
  function ColorOfPlayer(i: Player): Side {
    if i == 0 then White else Black
  }

  function Init(): System {
    System(Pair(Start(), Start()), Start(), false, Pair([], []), Pair([], []), [], Pair(0, 0), 0)
  }

  /** The server tells exactly the player who opens that it plays white. */
  lemma WhiteOpens(i: Player)
    ensures Start().turn == ColorOfPlayer(i) <==> GameStarted(true) in Box(Opening(), i)
    ensures ColorOfPlayer(0) != ColorOfPlayer(1)
    ensures forall t, m :: UserMoves(Init(), t, i, m) ==> i == 0
  {
    hide UserMovesFreely;
    StartTurn();
  }

  // ---------- Steps ----------

  /** Player i makes a move offered on its own engine. The client does not check whose turn that is. */
  ghost predicate UserMovesFreely(s: System, t: System, i: Player, m: Move) {
    && Offers(s.clients.At(i), m)
    && t == s.(clients := s.clients.With(i, Play(s.clients.At(i), m)),
               up := s.up.With(i, s.up.At(i) + [MoveMessage(m)]),
               log := s.log + [m],
               applied := s.applied.With(i, |s.log| + 1))
  }

  /** The same on the user's own turn. The guard is an assumption on the users. */
  ghost predicate UserMoves(s: System, t: System, i: Player, m: Move) {
    s.clients.At(i).turn == ColorOfPlayer(i) && UserMovesFreely(s, t, i, m)
  }

  ghost predicate ServerHandles(s: System, t: System, i: Player) {
    && !s.exited && s.up.At(i) != []
    && var after := AfterMessage(Server(s.server, Outbox([], []), false), i, s.up.At(i)[0]);
       t == s.(server := after.position,
               exited := after.isExit,
               up := s.up.With(i, s.up.At(i)[1..]),
               down := Pair(s.down.first + after.sent.first, s.down.second + after.sent.second),
               handled := s.handled + 1)
  }

  /** The client looks the move up among its offered moves, by its two spots; the type byte is ignored. */
  ghost predicate Finds(p: Position, msg: Message, m: Move) {
    msg.MoveMessage? && Offers(p, m) && m.from == msg.move.from && m.to == msg.move.to
  }

  ghost predicate ClientHandles(s: System, t: System, i: Player) {
    && s.down.At(i) != []
    && var popped := s.(down := s.down.With(i, s.down.At(i)[1..]));
       if exists m :: Finds(s.clients.At(i), s.down.At(i)[0], m)
       then exists m :: Finds(s.clients.At(i), s.down.At(i)[0], m) &&
                        t == popped.(clients := s.clients.With(i, Play(s.clients.At(i), m)),
                                     applied := s.applied.With(i, s.applied.At(i) + 1))
       else t == popped
  }

  ghost predicate Step(s: System, t: System) {
    || (exists i: Player, m: Move :: UserMoves(s, t, i, m))
    || (exists i: Player :: ServerHandles(s, t, i))
    || (exists i: Player :: ClientHandles(s, t, i))
  }

  ghost predicate Run(ss: seq<System>) {
    |ss| > 0 && ss[0] == Init() && forall k :: 0 <= k < |ss| - 1 ==> Step(ss[k], ss[k + 1])
  }

  // ---------- The invariant ----------

  function Messages(ms: seq<Move>): seq<Message> {
    seq(|ms|, k requires 0 <= k < |ms| => MoveMessage(ms[k]))
  }

  /** All three engines are replays of prefixes of one log of offered moves. */
  ghost predicate OneLog(s: System) {
    && Legal(s.log) && s.handled <= |s.log|
    && s.server == Replay(s.log[..s.handled])
    && (forall i: Player :: s.applied.At(i) <= |s.log| && s.clients.At(i) == Replay(s.log[..s.applied.At(i)]))
  }

  /** The leader has played the whole log; what is on its way is exactly what the others still lack, and all
      of it was the leader's turn. */
  ghost predicate Leads(s: System, i: Player) {
    && s.applied.At(i) == |s.log| && s.applied.At(1 - i) <= s.handled <= |s.log|
    && s.up.At(i) == Messages(s.log[s.handled..]) && s.up.At(1 - i) == []
    && s.down.At(1 - i) == Messages(s.log[s.applied.At(1 - i)..s.handled]) && s.down.At(i) == []
    && forall k :: s.applied.At(1 - i) <= k < |s.log| ==> Replay(s.log[..k]).turn == ColorOfPlayer(i)
  }

  ghost predicate Inv(s: System) {
    OneLog(s) && !s.exited && exists i: Player :: Leads(s, i)
  }

  lemma {:induction false} LegalPrefix(ms: seq<Move>, k: nat)
    requires Legal(ms) && k < |ms|
    ensures Legal(ms[..k]) && Offers(Replay(ms[..k]), ms[k])
    ensures ms[..k + 1][..k] == ms[..k] && Replay(ms[..k + 1]) == Play(Replay(ms[..k]), ms[k])
  {
    hide Play, Offers, Start;
    assert ms[..k + 1][..k] == ms[..k];
    if k < |ms| - 1 {
      LegalPrefix(ms[..|ms| - 1], k);
      assert ms[..|ms| - 1][..k] == ms[..k] && ms[..|ms| - 1][..k + 1] == ms[..k + 1];
    } else {
      assert ms[..k + 1] == ms;
    }
  }

  lemma MessagesStep(ms: seq<Move>)
    ensures ms == [] <==> Messages(ms) == []
    ensures ms != [] ==> Messages(ms) == [MoveMessage(ms[0])] + Messages(ms[1..])
    ensures forall m :: Messages(ms + [m]) == Messages(ms) + [MoveMessage(m)]
  {
  }

  // ---------- Preservation ----------

  /** Only a client that has replayed the whole log can start a move. */
  lemma MoverIsCaughtUp(s: System, i: Player)
    requires Inv(s) && s.clients.At(i).turn == ColorOfPlayer(i)
    ensures s.applied.At(i) == |s.log| && Leads(s, i)
  {
    hide Replay, Legal, Start;
    var l: Player :| Leads(s, l);
    if l != i {
      assert l == 1 - i;
      assert s.applied.At(i) == |s.log|;
      assert s.log[s.handled..] == [] && s.log[s.applied.At(i)..s.handled] == [];
    }
  }

  lemma UserMoveKeepsInv(s: System, t: System, i: Player, m: Move)
    requires Inv(s) && UserMoves(s, t, i, m)
    ensures Inv(t)
  {
    hide Replay, Legal, Start, Play, Offers;
    MoverIsCaughtUp(s, i);
    assert s.log[..|s.log|] == s.log;
    LegalAppend(s.log, m);
    assert t.log[..|t.log|] == t.log;
    MessagesStep(s.log[s.handled..]);
    assert t.log[t.handled..] == s.log[s.handled..] + [m];
    assert t.log[t.applied.At(1 - i)..t.handled] == s.log[s.applied.At(1 - i)..s.handled];
    assert Leads(t, i);
  }

  lemma ServerForwards(p: Position, i: Player, m: Move)
    requires IsValid(p, m)
    ensures AfterMessage(Server(p, Outbox([], []), false), i, MoveMessage(m))
            == Server(Play(p, m), if i == 0 then Outbox([], [MoveMessage(m)]) else Outbox([MoveMessage(m)], []), false)
  {
    hide Play;
  }

  // The server accepts the leader's next move, replays it and forwards it.
  lemma ServerAccepts(s: System, t: System, i: Player)
    requires OneLog(s) && !s.exited && Leads(s, i) && ServerHandles(s, t, i)
    ensures s.handled < |s.log| && OneLog(t)
    ensures t == s.(server := t.server, up := s.up.With(i, Messages(s.log[s.handled + 1..])), handled := s.handled + 1,
                    down := s.down.With(1 - i, s.down.At(1 - i) + [MoveMessage(s.log[s.handled])]))
  {
    hide Replay, Legal, Start, Play, Offers, IsValid, AfterMessage, Messages;
    MessagesStep(s.log[s.handled..]);
    var m := s.log[s.handled];
    assert s.log[s.handled..][0] == m && s.log[s.handled..][1..] == s.log[s.handled + 1..];
    LegalPrefix(s.log, s.handled);
    OfferedIsValid(s.server, m);
    ServerForwards(s.server, i, m);
    assert s.down.first + [] == s.down.first && s.down.second + [] == s.down.second;
  }

  lemma ServerKeepsInv(s: System, t: System, i: Player)
    requires Inv(s) && ServerHandles(s, t, i)
    ensures Inv(t)
  {
    hide Replay, Legal, Start, Messages, OneLog;
    var l: Player :| Leads(s, l);
    assert l == i;
    ServerAccepts(s, t, i);
    var a := s.applied.At(1 - i);
    MessagesStep(s.log[a..s.handled]);
    assert s.log[a..s.handled + 1] == s.log[a..s.handled] + [s.log[s.handled]];
    assert Leads(t, i);
  }

  lemma ClientKeepsInv(s: System, t: System, i: Player)
    requires Inv(s) && ClientHandles(s, t, i)
    ensures Inv(t) && t.applied.At(i) == s.applied.At(i) + 1
  {
    hide Replay, Legal, Start, Play, Offers;
    var l: Player :| Leads(s, l);
    assert l == 1 - i;
    var a := s.applied.At(i);
    var m := s.log[a];
    assert s.log[a..s.handled][0] == m && s.log[a..s.handled][1..] == s.log[a + 1..s.handled];
    MessagesStep(s.log[a..s.handled]);
    LegalPrefix(s.log, a);
    assert Finds(s.clients.At(i), s.down.At(i)[0], m);
    forall n | Finds(s.clients.At(i), s.down.At(i)[0], n) ensures n == m {
      OfferedMoveIsUnique(s.clients.At(i), m, n);
    }
    assert Leads(t, l);
  }

  lemma StepKeepsInv(s: System, t: System)
    requires Inv(s) && Step(s, t)
    ensures Inv(t)
  {
    hide Inv, UserMoves, ServerHandles, ClientHandles;
    if i: Player, m: Move :| UserMoves(s, t, i, m) {
      UserMoveKeepsInv(s, t, i, m);
    } else if i: Player :| ServerHandles(s, t, i) {
      ServerKeepsInv(s, t, i);
    } else {
      var i: Player :| ClientHandles(s, t, i);
      ClientKeepsInv(s, t, i);
    }
  }

  lemma InitHasInv()
    ensures Inv(Init())
  {
    hide Start;
    assert Leads(Init(), 0);
  }

  /** Over every interleaving the engines of both clients and of the server are replays of prefixes of one
      log of offered moves, and the server never answers INVALID_MOVE. */
  lemma {:induction false} ReplicationHolds(ss: seq<System>)
    requires Run(ss)
    ensures var s := ss[|ss| - 1]; Inv(s) && OneLog(s) && !s.exited
  {
    hide Step;
    if |ss| == 1 {
      InitHasInv();
    } else {
      var rs := ss[..|ss| - 1];
      ReplicationHolds(rs);
      StepKeepsInv(rs[|rs| - 1], ss[|ss| - 1]);
    }
  }

  /** When nothing is on its way, the three engines hold the same position: the replay of the whole log. */
  lemma EmptyLinksMeanEqual(s: System)
    requires Inv(s) && s.up == Pair([], []) && s.down == Pair([], [])
    ensures s.server == Replay(s.log) && s.clients == Pair(Replay(s.log), Replay(s.log))
  {
    hide Replay, Legal;
    var l: Player :| Leads(s, l);
    assert |Messages(s.log[s.handled..])| == 0;
    assert s.log[..s.handled] == s.log;
    assert |Messages(s.log[s.applied.At(1 - l)..s.handled])| == 0;
    assert s.clients.At(0) == s.clients.At(1) == Replay(s.log);
  }

  /** So it is at the end of any run that leaves the links empty. */
  lemma QuietMeansEqual(ss: seq<System>)
    requires Run(ss)
    requires var s := ss[|ss| - 1]; s.up == Pair([], []) && s.down == Pair([], [])
    ensures var s := ss[|ss| - 1]; s.server == Replay(s.log) && s.clients == Pair(Replay(s.log), Replay(s.log))
  {
    hide Replay, Inv, Step;
    ReplicationHolds(ss);
    EmptyLinksMeanEqual(ss[|ss| - 1]);
  }

  // ---------- The links drain ----------

  /** The server or a client handles a message; no user moves. */
  ghost predicate Handles(s: System, t: System) {
    (exists i: Player :: ServerHandles(s, t, i)) || (exists i: Player :: ClientHandles(s, t, i))
  }

  ghost predicate Drain(ss: seq<System>) {
    |ss| > 0 && forall k :: 0 <= k < |ss| - 1 ==> Handles(ss[k], ss[k + 1])
  }

  // The messages still to be handled: one on its way to the server will be forwarded, so it counts twice.
  function Pending(s: System): nat {
    2 * (|s.up.first| + |s.up.second|) + |s.down.first| + |s.down.second|
  }

  lemma ServerLowersPending(s: System, t: System, i: Player)
    requires Inv(s) && ServerHandles(s, t, i)
    ensures t.log == s.log && Pending(t) == Pending(s) - 1
  {
    hide Replay, Legal, OneLog, AfterMessage;
    var l: Player :| Leads(s, l);
    assert l == i;
    ServerAccepts(s, t, i);
  }

  lemma ClientLowersPending(s: System, t: System, i: Player)
    requires ClientHandles(s, t, i)
    ensures t.log == s.log && Pending(t) == Pending(s) - 1
  {
    hide Finds, Play;
  }

  lemma HandlingLowersPending(s: System, t: System)
    requires Inv(s) && Handles(s, t)
    ensures Inv(t) && t.log == s.log && Pending(t) == Pending(s) - 1
  {
    hide Inv, ServerHandles, ClientHandles, Pending;
    if i: Player :| ServerHandles(s, t, i) {
      ServerKeepsInv(s, t, i);
      ServerLowersPending(s, t, i);
    } else {
      var i: Player :| ClientHandles(s, t, i);
      ClientKeepsInv(s, t, i);
      ClientLowersPending(s, t, i);
    }
  }

  /** As long as anything is on its way, somebody can handle it. */
  lemma SomeoneCanHandle(s: System) returns (t: System)
    requires !s.exited && Pending(s) > 0
    ensures Handles(s, t)
  {
    hide AfterMessage, Finds, Play;
    var i: Player := if s.up.first != [] || s.down.first != [] then 0 else 1;
    if s.up.At(i) != [] {
      var after := AfterMessage(Server(s.server, Outbox([], []), false), i, s.up.At(i)[0]);
      t := s.(server := after.position, exited := after.isExit, up := s.up.With(i, s.up.At(i)[1..]),
              down := Pair(s.down.first + after.sent.first, s.down.second + after.sent.second),
              handled := s.handled + 1);
      assert ServerHandles(s, t, i);
    } else {
      var msg := s.down.At(i)[0];
      t := s.(down := s.down.With(i, s.down.At(i)[1..]));
      if m :| Finds(s.clients.At(i), msg, m) {
        t := t.(clients := s.clients.With(i, Play(s.clients.At(i), m)),
                applied := s.applied.With(i, s.applied.At(i) + 1));
      }
      assert ClientHandles(s, t, i);
    }
  }

  lemma {:induction false} DrainCounts(ss: seq<System>)
    requires Drain(ss) && Inv(ss[0])
    ensures var s := ss[|ss| - 1]; Inv(s) && s.log == ss[0].log && |ss| - 1 + Pending(s) == Pending(ss[0])
  {
    hide Handles, Inv, Pending;
    if |ss| > 1 {
      var rs := ss[..|ss| - 1];
      DrainCounts(rs);
      HandlingLowersPending(rs[|rs| - 1], ss[|ss| - 1]);
    }
  }

  /** Once the users stop, in whatever order the messages are handled, there are never more than Pending steps,
      nobody is stuck before the last of them, and after it all three engines hold the replay of every move made. */
  lemma LinksDrain(rs: seq<System>, ss: seq<System>)
    requires Run(rs) && Drain(ss) && ss[0] == rs[|rs| - 1]
    ensures |ss| - 1 <= Pending(ss[0])
    ensures var s := ss[|ss| - 1];
            if |ss| - 1 < Pending(ss[0]) then exists t :: Handles(s, t)
            else s.server == Replay(ss[0].log) && s.clients == Pair(Replay(ss[0].log), Replay(ss[0].log))
  {
    hide Step, Handles, Replay, OneLog;
    ReplicationHolds(rs);
    DrainCounts(ss);
    var s := ss[|ss| - 1];
    if Pending(s) > 0 {
      var t := SomeoneCanHandle(s);
    } else {
      assert s.up == Pair([], []) && s.down == Pair([], []);
      EmptyLinksMeanEqual(s);
    }
  }

  // ---------- Without the assumption on the users ----------

  ghost predicate FreeStep(s: System, t: System) {
    || (exists i: Player, m: Move :: UserMovesFreely(s, t, i, m))
    || (exists i: Player :: ServerHandles(s, t, i))
    || (exists i: Player :: ClientHandles(s, t, i))
  }

  ghost predicate FreeRun(ss: seq<System>) {
    |ss| > 0 && ss[0] == Init() && forall k :: 0 <= k < |ss| - 1 ==> FreeStep(ss[k], ss[k + 1])
  }

  /** Of two moves offered in the same position, if the first passes the turn then the second is invalid
      after it. */
  lemma SecondMoverIsRefused(p: Position, m: Move, n: Move)
    requires Consistent(p) && Offers(p, m) && Offers(p, n) && Play(p, m).turn != p.turn
    ensures !IsValid(Play(p, m), n)
  {
    hide Play, KindOf, Captured, CanCapture, OffersTowards;
    OfferedIsValid(p, m);
    MoveEffect(p, m);
    ConsistentSides(Play(p, m));
  }

  // The system after both players have made the move m on their engines at the start, and the server has
  // handled `handled` of the two messages; p is the start position and q the position after m.
  ghost function BothMoved(m: Move, p: Position, q: Position, moved: nat, handled: nat): System {
    var msg := MoveMessage(m);
    System(Pair(if moved >= 1 then q else p, if moved >= 2 then q else p), if handled >= 1 then q else p, handled >= 2,
           Pair(if moved >= 1 && handled < 1 then [msg] else [], if moved >= 2 && handled < 2 then [msg] else []),
           Pair(if handled >= 2 then [Error(InvalidMove)] else [],
                if handled == 0 then [] else if handled == 1 then [msg] else [msg, Error(InvalidMove)]),
           if moved == 0 then [] else if moved == 1 then [m] else [m, m],
           Pair(if moved >= 1 then 1 else 0, if moved >= 2 then 2 else 0), handled)
  }

  lemma FirstMoves(m: Move, p: Position, q: Position)
    requires Offers(p, m) && q == Play(p, m)
    ensures UserMovesFreely(BothMoved(m, p, q, 0, 0), BothMoved(m, p, q, 1, 0), 0, m)
  {
    hide Play, Offers;
    var s, t := BothMoved(m, p, q, 0, 0), BothMoved(m, p, q, 1, 0);
    assert s.log + [m] == t.log;
    assert s.up.first + [MoveMessage(m)] == t.up.first;
  }

  lemma SecondMoves(m: Move, p: Position, q: Position)
    requires Offers(p, m) && q == Play(p, m)
    ensures UserMovesFreely(BothMoved(m, p, q, 1, 0), BothMoved(m, p, q, 2, 0), 1, m)
  {
    hide Play, Offers;
    var s, t := BothMoved(m, p, q, 1, 0), BothMoved(m, p, q, 2, 0);
    assert s.log + [m] == t.log;
    assert s.up.second + [MoveMessage(m)] == t.up.second;
  }

  lemma ServerTakesBoth(m: Move, p: Position, q: Position)
    requires IsValid(p, m) && q == Play(p, m) && !IsValid(q, m)
    ensures ServerHandles(BothMoved(m, p, q, 2, 0), BothMoved(m, p, q, 2, 1), 0)
    ensures ServerHandles(BothMoved(m, p, q, 2, 1), BothMoved(m, p, q, 2, 2), 1)
  {
    hide Play, IsValid;
    var msg := MoveMessage(m);
    assert [msg][1..] == [] && [] + [msg] == [msg];
    ServerForwards(p, 0, m);
    RejectedMove(Server(q, Outbox([], []), false), 1, m);
    var s, t, u := BothMoved(m, p, q, 2, 0), BothMoved(m, p, q, 2, 1), BothMoved(m, p, q, 2, 2);
    assert s.down.first + [] == t.down.first && s.down.second + [msg] == t.down.second;
    assert t.down.first + [Error(InvalidMove)] == u.down.first && t.down.second + [Error(InvalidMove)] == u.down.second;
  }

  /** Without the guard four steps from the start end the session: both players open with the same move, the
      server plays the first and refuses the second. */
  lemma RefusalWithoutTheGuard() returns (ss: seq<System>)
    ensures FreeRun(ss) && |ss| == 5 && ss[4].exited && Error(InvalidMove) in ss[4].down.first
  {
    hide Play, Offers, IsValid, Start, UserMovesFreely, ServerHandles;
    var m := OneGame.GAME[0];
    var p, q := Start(), Play(Start(), m);
    OneGame.FirstMove();
    StartIsSound();
    SoundIsConsistent(p);
    OfferedIsValid(p, m);
    StartTurn();
    SecondMoverIsRefused(p, m, m);
    FirstMoves(m, p, q);
    SecondMoves(m, p, q);
    ServerTakesBoth(m, p, q);
    ss := [BothMoved(m, p, q, 0, 0), BothMoved(m, p, q, 1, 0), BothMoved(m, p, q, 2, 0),
           BothMoved(m, p, q, 2, 1), BothMoved(m, p, q, 2, 2)];
    assert FreeStep(ss[0], ss[1]) && FreeStep(ss[1], ss[2]) && FreeStep(ss[2], ss[3]) && FreeStep(ss[3], ss[4]);
    assert ss[0] == Init();
  }

  lemma StartTurn()
    ensures Start().turn == White
  {
  }
}
