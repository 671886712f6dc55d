/** The server's side of a game: one engine, two sockets, and the loop that handles what poll reports. */
module Session {
  import opened Board
  import opened Rules
  import opened Engine
  import opened Game
  import opened CheckersEngineClass

  type Player = i: nat | i < 2

  datatype ErrorType = OpponentDisconnected | ServerDisconnected | InvalidMove

  // Decoded messages. Unknown stands for every other message type.
  datatype Message = MoveMessage(move: Move) | Resign | Error(error: ErrorType) | GameStarted(white: bool) | Unknown

  // What has been sent to each of the two sockets.
  datatype Outbox = Outbox(first: seq<Message>, second: seq<Message>)

  function Send(o: Outbox, i: Player, msg: Message): Outbox {
    if i == 0 then o.(first := o.first + [msg]) else o.(second := o.second + [msg])
  }

  function SendBoth(o: Outbox, msg: Message): Outbox {
    Send(Send(o, 0, msg), 1, msg)
  }

  // What poll reports for one socket, and for one round of the loop.
  datatype Event = Quiet | HangUp | ReceiveFailed | Received(msg: Message) | OtherEvent
  datatype Round = PollFailed | Polled(first: Event, second: Event)

  datatype Server = Server(position: Position, sent: Outbox, isExit: bool)

  // ---------- handle_message ----------

  ghost function AfterMessage(s: Server, i: Player, msg: Message): Server {
    match msg
    case MoveMessage(m) =>
      if IsValid(s.position, m) then s.(position := Play(s.position, m), sent := Send(s.sent, 1 - i, msg))
      else s.(sent := SendBoth(s.sent, Error(InvalidMove)), isExit := true)
    case Resign => s.(sent := Send(s.sent, 1 - i, msg), isExit := true)
    case _ => s
  }

  ghost function AfterEvent(s: Server, i: Player, ev: Event): Server {
    match ev
    case Quiet => s
    case HangUp => s.(sent := Send(s.sent, 1 - i, Error(OpponentDisconnected)), isExit := true)
    case ReceiveFailed => s.(sent := Send(s.sent, 1 - i, Error(OpponentDisconnected)), isExit := true)
    case Received(msg) => AfterMessage(s, i, msg)
    case OtherEvent => s.(sent := SendBoth(s.sent, Error(ServerDisconnected)), isExit := true)
  }

  // The second socket is looked at even if the first one has just ended the session.
  ghost function AfterRound(s: Server, r: Round): Server {
    match r
    case PollFailed => s.(isExit := true)
    case Polled(first, second) => AfterEvent(AfterEvent(s, 0, first), 1, second)
  }

  ghost function AfterRounds(s: Server, rounds: seq<Round>): Server
    decreases |rounds|
  {
    if rounds == [] || s.isExit then s else AfterRounds(AfterRound(s, rounds[0]), rounds[1..])
  }

  // ---------- Safety under arbitrary play ----------

  /** The mover keeps its pieces, the opponent loses at most the one captured; nothing else happens. */
  lemma AcceptedMove(s: Server, i: Player, m: Move)
    requires Consistent(s.position) && IsValid(s.position, m)
    ensures var t := AfterMessage(s, i, MoveMessage(m));
            && Effect(s.position, m, t.position, Captured(s.position, m)) && CountsKept(s.position, t.position)
            && t.isExit == s.isExit && t.sent == Send(s.sent, 1 - i, MoveMessage(m))
  {
    hide Play, Captured, Effect, CountsKept, Consistent;
    MoveEffect(s.position, m);
  }

  // The refusal itself; RefusalEndsSession says what comes of it in a whole session.
  lemma RejectedMove(s: Server, i: Player, m: Move)
    requires !IsValid(s.position, m)
    ensures var t := AfterMessage(s, i, MoveMessage(m));
            && t.position == s.position && t.isExit
            && t.sent == Outbox(s.sent.first + [Error(InvalidMove)], s.sent.second + [Error(InvalidMove)])
  {
  }

  predicate NoMorePieces(p: Position, q: Position) {
    |q.white| <= |p.white| && |q.black| <= |p.black|
  }

  lemma EffectIsSafe(p: Position, m: Move, q: Position, captured: set<Spot>)
    requires Effect(p, m, q, captured) && CountsKept(p, q)
    ensures Consistent(q) && NoMorePieces(p, q)
  {
  }

  lemma EventIsSafe(s: Server, i: Player, ev: Event)
    requires Consistent(s.position)
    ensures var t := AfterEvent(s, i, ev); Consistent(t.position) && NoMorePieces(s.position, t.position)
  {
    hide Play, Captured, Effect, CountsKept, Consistent, IsValid;
    if ev.Received? && ev.msg.MoveMessage? && IsValid(s.position, ev.msg.move) {
      var m := ev.msg.move;
      AcceptedMove(s, i, m);
      EffectIsSafe(s.position, m, Play(s.position, m), Captured(s.position, m));
    }
  }

  /** Whatever two clients send, with any type byte and from either socket, the colours stay disjoint,
      kings stay on occupied spots and no side ever gains a piece. */
  lemma {:induction false} ServerIsSafe(s: Server, rounds: seq<Round>)
    requires Consistent(s.position)
    ensures var t := AfterRounds(s, rounds); Consistent(t.position) && NoMorePieces(s.position, t.position)
    decreases |rounds|
  {
    hide Consistent, AfterEvent;
    if rounds != [] && !s.isExit {
      var r := rounds[0];
      if r.Polled? {
        EventIsSafe(s, 0, r.first);
        EventIsSafe(AfterEvent(s, 0, r.first), 1, r.second);
      }
      ServerIsSafe(AfterRound(s, r), rounds[1..]);
    }
  }

  // ---------- How a session ends ----------

  /** Once a round has ended the session no later round is looked at. */
  lemma ExitEndsSession(s: Server, rounds: seq<Round>, more: seq<Round>)
    requires AfterRounds(s, rounds).isExit
    ensures AfterRounds(s, rounds + more) == AfterRounds(s, rounds)
    decreases |rounds|
  {
    if rounds != [] && !s.isExit {
      assert (rounds + more)[0] == rounds[0] && (rounds + more)[1..] == rounds[1..] + more;
      ExitEndsSession(AfterRound(s, rounds[0]), rounds[1..], more);
    }
  }

  lemma OneMoreRound(s: Server, rounds: seq<Round>, r: Round)
    ensures var t := AfterRounds(s, rounds); AfterRounds(s, rounds + [r]) == if t.isExit then t else AfterRound(t, r)
    decreases |rounds|
  {
    hide AfterRound;
    if rounds == [] {
      assert ([] + [r])[0] == r && ([] + [r])[1..] == [];
    } else if !s.isExit {
      assert (rounds + [r])[0] == rounds[0] && (rounds + [r])[1..] == rounds[1..] + [r];
      OneMoreRound(AfterRound(s, rounds[0]), rounds[1..], r);
    }
  }

  ghost predicate IsMove(ev: Event) {
    ev.Received? && ev.msg.MoveMessage?
  }

  /** The event is a move that the engine's check refuses, or accepts. */
  ghost predicate Refused(s: Server, ev: Event) {
    IsMove(ev) && !IsValid(s.position, ev.msg.move)
  }

  ghost predicate Accepted(s: Server, ev: Event) {
    IsMove(ev) && IsValid(s.position, ev.msg.move)
  }

  lemma OnlyMovesMove(s: Server, i: Player, ev: Event)
    ensures AfterEvent(s, i, ev).position == if Accepted(s, ev) then Play(s.position, ev.msg.move) else s.position
    ensures AfterEvent(s, i, ev).isExit == (s.isExit || ev.HangUp? || ev.ReceiveFailed? || ev.OtherEvent? ||
                                            (ev.Received? && ev.msg.Resign?) || Refused(s, ev))
    ensures s.sent.first <= AfterEvent(s, i, ev).sent.first && s.sent.second <= AfterEvent(s, i, ev).sent.second
  {
    hide Play, IsValid;
  }

  /** In the round in which the first socket ends the session the second one is still served: its move is played
      on the engine and forwarded to the first player, whatever rounds would follow. */
  lemma SecondSocketIsStillServed(s: Server, a: Event, m: Move, more: seq<Round>)
    requires !s.isExit && AfterEvent(s, 0, a).isExit && IsValid(s.position, m)
    ensures var t := AfterRounds(s, [Polled(a, Received(MoveMessage(m)))] + more);
            && t.isExit && t.position == Play(s.position, m)
            && t.sent.first == AfterEvent(s, 0, a).sent.first + [MoveMessage(m)]
            && t.sent.second == AfterEvent(s, 0, a).sent.second
  {
    hide Play, IsValid, AfterRounds;
    var r := Polled(a, Received(MoveMessage(m)));
    OnlyMovesMove(s, 0, a);
    AfterNoRounds(s);
    OneMoreRound(s, [], r);
    assert [] + [r] == [r];
    ExitEndsSession(s, [r], more);
  }

  lemma AfterNoRounds(s: Server)
    ensures AfterRounds(s, []) == s
  {
  }

  /** One of the moves of round k is refused, by the engine as it is when its turn comes. */
  ghost predicate RefusedInRound(s: Server, rounds: seq<Round>, k: nat) {
    && k < |rounds| && rounds[k].Polled?
    && var b := AfterRounds(s, rounds[..k]);
       !b.isExit && (Refused(b, rounds[k].first) || Refused(AfterEvent(b, 0, rounds[k].first), rounds[k].second))
  }

  /** What a refusal anywhere in a session comes to. The session ends with that round and both players are told.
      The final board is the one before the round with the accepted moves of that round on it: the second
      player's if the first one's was refused, and the first player's if the second one's was. */
  lemma RefusalEndsSession(s: Server, rounds: seq<Round>, k: nat)
    requires RefusedInRound(s, rounds, k)
    ensures var b, a, c := AfterRounds(s, rounds[..k]), rounds[k].first, rounds[k].second;
            var t := AfterRounds(s, rounds);
            && t.isExit
            && b.sent.first <= t.sent.first && b.sent.second <= t.sent.second
            && (if Refused(b, a) then
                  && t.position == (if Accepted(b, c) then Play(b.position, c.msg.move) else b.position)
                  && b.sent.first + [Error(InvalidMove)] <= t.sent.first
                  && b.sent.second + [Error(InvalidMove)] <= t.sent.second
                else
                  && t.position == (if Accepted(b, a) then Play(b.position, a.msg.move) else b.position)
                  && t.sent == SendBoth(AfterEvent(b, 0, a).sent, Error(InvalidMove)))
  {
    hide Play, IsValid, AfterRounds;
    var b, r := AfterRounds(s, rounds[..k]), rounds[k];
    OneMoreRound(s, rounds[..k], r);
    assert rounds[..k] + [r] == rounds[..k + 1];
    OnlyMovesMove(b, 0, r.first);
    OnlyMovesMove(AfterEvent(b, 0, r.first), 1, r.second);
    ExitEndsSession(s, rounds[..k + 1], rounds[k + 1..]);
    assert rounds[..k + 1] + rounds[k + 1..] == rounds;
    if Refused(b, r.first) {
      RejectedMove(b, 0, r.first.msg.move);
    } else {
      RejectedMove(AfterEvent(b, 0, r.first), 1, r.second.msg.move);
    }
  }

  predicate ToldInvalid(o: Outbox) {
    Error(InvalidMove) in o.first || Error(InvalidMove) in o.second
  }

  lemma EventTells(s: Server, i: Player, ev: Event)
    ensures ToldInvalid(AfterEvent(s, i, ev).sent) <==> ToldInvalid(s.sent) || Refused(s, ev)
  {
    hide Play, IsValid;
  }

  /** A player is told INVALID_MOVE if and only if a move was refused somewhere in the session. */
  lemma {:induction false} ToldIffRefused(s: Server, rounds: seq<Round>)
    requires !ToldInvalid(s.sent)
    ensures ToldInvalid(AfterRounds(s, rounds).sent) <==> exists k: nat :: RefusedInRound(s, rounds, k)
  {
    hide AfterRounds, ToldInvalid, Refused, AfterEvent;
    if rounds == [] {
      AfterNoRounds(s);
    } else {
      var n := |rounds| - 1;
      var rs, r := rounds[..n], rounds[n];
      ToldIffRefused(s, rs);
      OneMoreRound(s, rs, r);
      assert rs + [r] == rounds;
      RefusedEarlier(s, rounds, n);
      var b := AfterRounds(s, rs);
      if r.Polled? && !b.isExit {
        EventTells(b, 0, r.first);
        EventTells(AfterEvent(b, 0, r.first), 1, r.second);
      }
      assert RefusedInRound(s, rounds, n) <==>
             r.Polled? && !b.isExit && (Refused(b, r.first) || Refused(AfterEvent(b, 0, r.first), r.second));
    }
  }

  lemma RefusedEarlier(s: Server, rounds: seq<Round>, n: nat)
    requires |rounds| == n + 1
    ensures (exists k: nat :: RefusedInRound(s, rounds, k)) <==>
            (exists k: nat :: RefusedInRound(s, rounds[..n], k)) || RefusedInRound(s, rounds, n)
  {
    hide AfterRounds, Refused, AfterEvent;
    forall k: nat | k < n ensures RefusedInRound(s, rounds[..n], k) <==> RefusedInRound(s, rounds, k) {
      assert rounds[..n][..k] == rounds[..k];
    }
    if k: nat :| RefusedInRound(s, rounds[..n], k) {
      assert RefusedInRound(s, rounds, k);
    }
    if k: nat :| RefusedInRound(s, rounds, k) {
      assert k < n ==> RefusedInRound(s, rounds[..n], k);
    }
  }

  // ---------- Who is told what ----------

  function Box(o: Outbox, j: Player): seq<Message> {
    if j == 0 then o.first else o.second
  }

  function Other(j: Player): Player {
    1 - j
  }

  function EventOf(r: Round, i: Player): Event
    requires r.Polled?
  {
    if i == 0 then r.first else r.second
  }

  /** Round k is looked at: no earlier one has ended the session. */
  ghost predicate Served(s: Server, rounds: seq<Round>, k: nat) {
    k < |rounds| && !AfterRounds(s, rounds[..k]).isExit
  }

  // Socket i reports ev in round k.
  ghost predicate Reports(s: Server, rounds: seq<Round>, k: nat, i: Player, ev: Event) {
    Served(s, rounds, k) && rounds[k].Polled? && EventOf(rounds[k], i) == ev
  }

  /** The server as it is when it looks at socket i in round k. */
  ghost function Before(s: Server, rounds: seq<Round>, k: nat, i: Player): Server
    requires k < |rounds| && rounds[k].Polled?
  {
    var b := AfterRounds(s, rounds[..k]);
    if i == 0 then b else AfterEvent(b, 0, rounds[k].first)
  }

  /** Why player j is sent msg while socket i is looked at, message by message. */
  ghost predicate Causes(s: Server, i: Player, ev: Event, j: Player, msg: Message) {
    match msg
    case MoveMessage(m) => i != j && ev == Received(msg) && IsValid(s.position, m)
    case Resign => i != j && ev == Received(Resign)
    case Error(OpponentDisconnected) => i != j && (ev == HangUp || ev == ReceiveFailed)
    case Error(ServerDisconnected) => ev == OtherEvent
    case Error(InvalidMove) => Refused(s, ev)
    case GameStarted(white) => false
    case Unknown => false
  }

  function Copies(o: Outbox, j: Player, msg: Message): nat {
    multiset(Box(o, j))[msg]
  }

  lemma OneMoreCopy(o: Outbox, i: Player, sent: Message, j: Player, msg: Message)
    ensures Copies(Send(o, i, sent), j, msg) == Copies(o, j, msg) + (if i == j && sent == msg then 1 else 0)
  {
  }

  lemma BothMoreCopies(o: Outbox, sent: Message, j: Player, msg: Message)
    ensures Copies(SendBoth(o, sent), j, msg) == Copies(o, j, msg) + (if sent == msg then 1 else 0)
  {
    hide Send, Copies;
    OneMoreCopy(o, 0, sent, j, msg);
    OneMoreCopy(Send(o, 0, sent), 1, sent, j, msg);
  }

  lemma EventSends(s: Server, i: Player, ev: Event, j: Player, msg: Message)
    ensures Copies(AfterEvent(s, i, ev).sent, j, msg) ==
            Copies(s.sent, j, msg) + (if Causes(s, i, ev, j, msg) then 1 else 0)
  {
    hide Play, IsValid, Send, SendBoth, Copies;
    match ev
    case Quiet =>
    case HangUp =>
      OneMoreCopy(s.sent, 1 - i, Error(OpponentDisconnected), j, msg);
    case ReceiveFailed =>
      OneMoreCopy(s.sent, 1 - i, Error(OpponentDisconnected), j, msg);
    case Received(m) =>
      OneMoreCopy(s.sent, 1 - i, m, j, msg);
      BothMoreCopies(s.sent, Error(InvalidMove), j, msg);
    case OtherEvent =>
      BothMoreCopies(s.sent, Error(ServerDisconnected), j, msg);
  }

  /** How many events of the session should have made the server send msg to player j. */
  ghost function CauseCount(s: Server, rounds: seq<Round>, j: Player, msg: Message): nat {
    if rounds == [] then 0
    else
      var n := |rounds| - 1;
      var b, r := AfterRounds(s, rounds[..n]), rounds[n];
      CauseCount(s, rounds[..n], j, msg) +
      if b.isExit || r.PollFailed? then 0
      else (if Causes(b, 0, r.first, j, msg) then 1 else 0) +
           (if Causes(AfterEvent(b, 0, r.first), 1, r.second, j, msg) then 1 else 0)
  }

  /** Each player is sent each message as often as something happened that it is sent for, over all rounds of a
      session. */
  lemma {:induction false} ToldExactly(s: Server, rounds: seq<Round>, j: Player, msg: Message)
    ensures Copies(AfterRounds(s, rounds).sent, j, msg) == Copies(s.sent, j, msg) + CauseCount(s, rounds, j, msg)
  {
    hide AfterRounds, AfterEvent, Causes, Copies;
    if rounds == [] {
      AfterNoRounds(s);
    } else {
      var n := |rounds| - 1;
      var rs, r := rounds[..n], rounds[n];
      ToldExactly(s, rs, j, msg);
      OneMoreRound(s, rs, r);
      assert rs + [r] == rounds;
      var b := AfterRounds(s, rs);
      if r.Polled? && !b.isExit {
        EventSends(b, 0, r.first, j, msg);
        EventSends(AfterEvent(b, 0, r.first), 1, r.second, j, msg);
      }
    }
  }

  ghost predicate CausedIn(s: Server, rounds: seq<Round>, k: nat, j: Player, msg: Message) {
    && Served(s, rounds, k) && rounds[k].Polled?
    && exists i: Player :: Causes(Before(s, rounds, k, i), i, EventOf(rounds[k], i), j, msg)
  }

  lemma {:induction false} CountedIffCaused(s: Server, rounds: seq<Round>, j: Player, msg: Message)
    ensures CauseCount(s, rounds, j, msg) > 0 <==> exists k: nat :: CausedIn(s, rounds, k, j, msg)
  {
    hide AfterRounds, AfterEvent, Causes;
    if rounds != [] {
      var n := |rounds| - 1;
      CountedIffCaused(s, rounds[..n], j, msg);
      forall k: nat | k < n ensures CausedIn(s, rounds[..n], k, j, msg) <==> CausedIn(s, rounds, k, j, msg) {
        assert rounds[..n][..k] == rounds[..k] && rounds[..n][k] == rounds[k];
      }
      CausedEarlier(s, rounds, n, j, msg);
      LastCause(s, rounds, n, j, msg);
    }
  }

  lemma CausedEarlier(s: Server, rounds: seq<Round>, n: nat, j: Player, msg: Message)
    requires |rounds| == n + 1
    requires forall k: nat :: k < n ==> (CausedIn(s, rounds[..n], k, j, msg) <==> CausedIn(s, rounds, k, j, msg))
    ensures (exists k: nat :: CausedIn(s, rounds, k, j, msg)) <==>
            (exists k: nat :: CausedIn(s, rounds[..n], k, j, msg)) || CausedIn(s, rounds, n, j, msg)
  {
    hide Before, Causes, AfterRounds;
    if k: nat :| CausedIn(s, rounds[..n], k, j, msg) {
      assert CausedIn(s, rounds, k, j, msg);
    }
    if k: nat :| CausedIn(s, rounds, k, j, msg) {
      assert k < n ==> CausedIn(s, rounds[..n], k, j, msg);
    }
  }

  lemma LastCause(s: Server, rounds: seq<Round>, n: nat, j: Player, msg: Message)
    requires |rounds| == n + 1
    ensures CausedIn(s, rounds, n, j, msg) <==>
            var b, r := AfterRounds(s, rounds[..n]), rounds[n];
            !b.isExit && r.Polled? && (Causes(b, 0, r.first, j, msg) ||
                                       Causes(AfterEvent(b, 0, r.first), 1, r.second, j, msg))
  {
    hide AfterRounds, AfterEvent, Causes;
    var b, r := AfterRounds(s, rounds[..n]), rounds[n];
    if r.Polled? {
      assert Before(s, rounds, n, 0) == b && Before(s, rounds, n, 1) == AfterEvent(b, 0, r.first);
      assert EventOf(r, 0) == r.first && EventOf(r, 1) == r.second;
    }
  }

  /** A message not sent before the rounds is in a player's box after them if and only if one of them caused it. */
  lemma ToldIffCaused(s: Server, rounds: seq<Round>, j: Player, msg: Message)
    requires msg !in Box(s.sent, j)
    ensures msg in Box(AfterRounds(s, rounds).sent, j) <==> exists k: nat :: CausedIn(s, rounds, k, j, msg)
  {
    hide AfterRounds, CauseCount, CausedIn;
    ToldExactly(s, rounds, j, msg);
    CountedIffCaused(s, rounds, j, msg);
  }

  function Opening(): Outbox {
    Outbox([GameStarted(true)], [GameStarted(false)])
  }

  // A session as Routine begins it.
  ghost function NewSession(): Server {
    Server(Start(), Opening(), false)
  }

  /** A player hears of a resignation if and only if the other one resigned in a served round. */
  lemma ResignationIsTold(rounds: seq<Round>, j: Player)
    ensures Resign in Box(AfterRounds(NewSession(), rounds).sent, j) <==>
            exists k: nat :: Reports(NewSession(), rounds, k, Other(j), Received(Resign))
  {
    hide AfterRounds, AfterEvent, Start;
    ToldIffCaused(NewSession(), rounds, j, Resign);
    forall k: nat ensures CausedIn(NewSession(), rounds, k, j, Resign) <==>
                          Reports(NewSession(), rounds, k, Other(j), Received(Resign)) {
      if Reports(NewSession(), rounds, k, Other(j), Received(Resign)) {
        assert Causes(Before(NewSession(), rounds, k, Other(j)), Other(j), EventOf(rounds[k], Other(j)), j, Resign);
      }
    }
  }

  /** A player is told that the opponent has gone if and only if the other one hung up or could not be read. */
  lemma DisconnectionIsTold(rounds: seq<Round>, j: Player)
    ensures Error(OpponentDisconnected) in Box(AfterRounds(NewSession(), rounds).sent, j) <==>
            exists k: nat :: Reports(NewSession(), rounds, k, Other(j), HangUp)
                             || Reports(NewSession(), rounds, k, Other(j), ReceiveFailed)
  {
    hide AfterRounds, AfterEvent, Start;
    var s, msg := NewSession(), Error(OpponentDisconnected);
    ToldIffCaused(s, rounds, j, msg);
    forall k: nat ensures CausedIn(s, rounds, k, j, msg) <==>
                          Reports(s, rounds, k, Other(j), HangUp) || Reports(s, rounds, k, Other(j), ReceiveFailed) {
      if Reports(s, rounds, k, Other(j), HangUp) || Reports(s, rounds, k, Other(j), ReceiveFailed) {
        assert Causes(Before(s, rounds, k, Other(j)), Other(j), EventOf(rounds[k], Other(j)), j, msg);
      }
    }
  }

  /** Both players are told that the server has gone, exactly if one of the sockets reported anything else. */
  lemma ServerErrorIsTold(rounds: seq<Round>, j: Player)
    ensures Error(ServerDisconnected) in Box(AfterRounds(NewSession(), rounds).sent, j) <==>
            exists k: nat, i: Player :: Reports(NewSession(), rounds, k, i, OtherEvent)
  {
    hide AfterRounds, AfterEvent, Start;
    var s, msg := NewSession(), Error(ServerDisconnected);
    ToldIffCaused(s, rounds, j, msg);
    forall k: nat, i: Player | Reports(s, rounds, k, i, OtherEvent) ensures CausedIn(s, rounds, k, j, msg) {
      assert Causes(Before(s, rounds, k, i), i, EventOf(rounds[k], i), j, msg);
    }
    forall k: nat | CausedIn(s, rounds, k, j, msg) ensures exists i: Player :: Reports(s, rounds, k, i, OtherEvent) {
      var i: Player :| Causes(Before(s, rounds, k, i), i, EventOf(rounds[k], i), j, msg);
      assert Reports(s, rounds, k, i, OtherEvent);
    }
  }

  /** A move reaches a player if and only if the other one made it in a served round and it was valid then. */
  lemma MoveIsTold(rounds: seq<Round>, j: Player, m: Move)
    ensures MoveMessage(m) in Box(AfterRounds(NewSession(), rounds).sent, j) <==>
            exists k: nat :: Reports(NewSession(), rounds, k, Other(j), Received(MoveMessage(m)))
                             && IsValid(Before(NewSession(), rounds, k, Other(j)).position, m)
  {
    hide AfterRounds, AfterEvent, Start, IsValid;
    var s, msg := NewSession(), MoveMessage(m);
    ToldIffCaused(s, rounds, j, msg);
    forall k: nat ensures CausedIn(s, rounds, k, j, msg) <==>
                          Reports(s, rounds, k, Other(j), Received(msg))
                          && IsValid(Before(s, rounds, k, Other(j)).position, m) {
      if Reports(s, rounds, k, Other(j), Received(msg)) && IsValid(Before(s, rounds, k, Other(j)).position, m) {
        assert Causes(Before(s, rounds, k, Other(j)), Other(j), EventOf(rounds[k], Other(j)), j, msg);
      }
    }
  }

  /** Each of the two players is told INVALID_MOVE if and only if a move of either was refused. */
  lemma RefusalIsTold(rounds: seq<Round>, j: Player)
    ensures Error(InvalidMove) in Box(AfterRounds(NewSession(), rounds).sent, j) <==>
            exists k: nat :: RefusedInRound(NewSession(), rounds, k)
  {
    hide AfterRounds, AfterEvent, Start, Refused;
    var s, msg := NewSession(), Error(InvalidMove);
    ToldIffCaused(s, rounds, j, msg);
    forall k: nat ensures CausedIn(s, rounds, k, j, msg) <==> RefusedInRound(s, rounds, k) {
      if Served(s, rounds, k) && rounds[k].Polled? {
        var b, r := AfterRounds(s, rounds[..k]), rounds[k];
        assert Causes(b, 0, r.first, j, msg) ==> Causes(Before(s, rounds, k, 0), 0, EventOf(r, 0), j, msg);
        assert Causes(AfterEvent(b, 0, r.first), 1, r.second, j, msg) ==>
            Causes(Before(s, rounds, k, 1), 1, EventOf(r, 1), j, msg);
      }
    }
  }

  /** A failed poll ends the session, tells nobody and leaves the board alone. */
  lemma FailedPollEndsQuietly(s: Server, rounds: seq<Round>, k: nat)
    requires Served(s, rounds, k) && rounds[k].PollFailed?
    ensures var b := AfterRounds(s, rounds[..k]); AfterRounds(s, rounds) == Server(b.position, b.sent, true)
  {
    hide AfterRounds;
    OneMoreRound(s, rounds[..k], rounds[k]);
    assert rounds[..k] + [rounds[k]] == rounds[..k + 1];
    ExitEndsSession(s, rounds[..k + 1], rounds[k + 1..]);
    assert rounds[..k + 1] + rounds[k + 1..] == rounds;
  }

  // Why the session ends in round k.
  ghost predicate Ends(b: Server, i: Player, ev: Event) {
    ev in {HangUp, ReceiveFailed, OtherEvent, Received(Resign)} || Refused(b, ev)
  }

  ghost predicate EndsIn(s: Server, rounds: seq<Round>, k: nat) {
    && Served(s, rounds, k)
    && (rounds[k].PollFailed? || exists i: Player :: Ends(Before(s, rounds, k, i), i, EventOf(rounds[k], i)))
  }

  /** A session goes on until poll fails, a player resigns, hangs up, cannot be read or has a move refused, or
      a socket reports anything else. */
  lemma {:induction false} SessionEndsIff(s: Server, rounds: seq<Round>)
    requires !s.isExit
    ensures AfterRounds(s, rounds).isExit <==> exists k: nat :: EndsIn(s, rounds, k)
  {
    hide AfterRounds, AfterEvent, Ends;
    if rounds == [] {
      AfterNoRounds(s);
    } else {
      var n := |rounds| - 1;
      var rs, r := rounds[..n], rounds[n];
      var b := AfterRounds(s, rs);
      SessionEndsIff(s, rs);
      OneMoreRound(s, rs, r);
      assert rs + [r] == rounds;
      forall k: nat | k < n ensures EndsIn(s, rs, k) <==> EndsIn(s, rounds, k) {
        assert rs[..k] == rounds[..k] && rs[k] == rounds[k];
        if rounds[k].Polled? {
          assert forall i: Player :: Before(s, rs, k, i) == Before(s, rounds, k, i);
        }
      }
      if b.isExit {
        var k: nat :| EndsIn(s, rs, k);
        assert EndsIn(s, rounds, k);
      } else {
        LastRoundEnds(s, rounds, n);
        assert AfterRounds(s, rounds).isExit <==> EndsIn(s, rounds, n);
        forall k: nat | EndsIn(s, rounds, k) ensures k == n {
          assert k < n ==> EndsIn(s, rs, k);
        }
      }
    }
  }

  lemma EventEnds(s: Server, i: Player, ev: Event)
    ensures AfterEvent(s, i, ev).isExit <==> s.isExit || Ends(s, i, ev)
  {
    hide Play, IsValid;
  }

  lemma LastRoundEnds(s: Server, rounds: seq<Round>, n: nat)
    requires |rounds| == n + 1 && !AfterRounds(s, rounds[..n]).isExit
    ensures EndsIn(s, rounds, n) <==> AfterRound(AfterRounds(s, rounds[..n]), rounds[n]).isExit
  {
    hide AfterRounds, AfterEvent, Ends;
    var b, r := AfterRounds(s, rounds[..n]), rounds[n];
    if r.Polled? {
      var c := AfterEvent(b, 0, r.first);
      EventEnds(b, 0, r.first);
      EventEnds(c, 1, r.second);
      assert Before(s, rounds, n, 0) == b && Before(s, rounds, n, 1) == c;
      assert EventOf(r, 0) == r.first && EventOf(r, 1) == r.second;
      assert Ends(b, 0, r.first) ==> Ends(Before(s, rounds, n, 0), 0, EventOf(r, 0));
      assert Ends(c, 1, r.second) ==> Ends(Before(s, rounds, n, 1), 1, EventOf(r, 1));
    }
  }

  // ---------- The class ----------

  class SessionData {
    const engine: CheckersEngine
    var sent: Outbox
    var isExit: bool

    ghost predicate Valid()
      reads this, engine, engine.pieces
    {
      engine.Ready() && Consistent(Abs(engine.State()))
    }

    ghost function View(): Server
      requires Valid()
      reads this, engine, engine.pieces
    {
      Server(Abs(engine.State()), sent, isExit)
    }

    constructor ()
      ensures Valid() && View() == Server(Start(), Outbox([], []), false)
      ensures fresh(engine) && fresh(engine.pieces)
    {
      engine := new CheckersEngine();
      sent := Outbox([], []);
      isExit := false;
      new;
      engine.Reset();
      StartIsSound();
    }

    method HandleMessage(i: Player, msg: Message)
      requires Valid()
      modifies this, engine, engine.pieces
      ensures Valid() && View() == AfterMessage(old(View()), i, msg)
    {
      hide Abs, Play, Consistent, Captured, PlayWords, Send, SendBoth, IsValid, Effect, CountsKept;
      match msg {
        case MoveMessage(m) =>
          ghost var before := View();
          var valid := engine.IsValidMove(m);
          if valid {
            AcceptedMove(before, i, m);
            EffectIsSafe(before.position, m, Play(before.position, m), Captured(before.position, m));
            engine.MakeMove(m);
            sent := Send(sent, 1 - i, msg);
          } else {
            sent := SendBoth(sent, Error(InvalidMove));
            isExit := true;
          }
        case Resign =>
          sent := Send(sent, 1 - i, msg);
          isExit := true;
        case _ =>
      }
    }

    method HandleEvent(i: Player, ev: Event)
      requires Valid()
      modifies this, engine, engine.pieces
      ensures Valid() && View() == AfterEvent(old(View()), i, ev)
    {
      hide Abs, Consistent, Send, SendBoth, AfterMessage;
      match ev {
        case Quiet =>
        case HangUp =>
          sent := Send(sent, 1 - i, Error(OpponentDisconnected));
          isExit := true;
        case Received(msg) =>
          HandleMessage(i, msg);
        case ReceiveFailed =>
          sent := Send(sent, 1 - i, Error(OpponentDisconnected));
          isExit := true;
        case OtherEvent =>
          sent := SendBoth(sent, Error(ServerDisconnected));
          isExit := true;
      }
    }

    /** game_session_routine(), for the rounds poll will report. */
    method Routine(rounds: seq<Round>)
      requires Valid() && View() == Server(Start(), Outbox([], []), false)
      modifies this, engine, engine.pieces
      ensures Valid()
      ensures View() == AfterRounds(NewSession(), rounds)
    {
      hide Abs, Consistent, AfterEvent, Start;
      sent := Send(Send(sent, 0, GameStarted(true)), 1, GameStarted(false));
      ghost var start := View();
      assert start == NewSession();
      var k := 0;
      while !isExit && k < |rounds|
        invariant 0 <= k <= |rounds| && Valid()
        invariant AfterRounds(View(), rounds[k..]) == AfterRounds(start, rounds)
        decreases |rounds| - k
      {
        assert rounds[k..][0] == rounds[k] && rounds[k..][1..] == rounds[k + 1..];
        match rounds[k] {
          case PollFailed =>
            isExit := true;
          case Polled(first, second) =>
            HandleEvent(0, first);
            HandleEvent(1, second);
        }
        k := k + 1;
      }
    }
  }
}
