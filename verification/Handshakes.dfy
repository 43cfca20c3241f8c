/** The client's and the server's machines joined by two queues. */
module Handshakes {
  import opened Wrappers
  import opened HandshakeState
  import opened Dialogue
  import opened HandshakeSafety
  import opened ClientPath
  import opened ServerPath
  import C = ClientMachine
  import S = ServerMachine

  datatype Pair = Pair(c: C.Client, s: S.Server, toServer: seq<Item>, toClient: seq<Item>)

  const STARTED := Pair(C.START, S.START, [], [])

  function Front(queue: seq<Item>): Option<Item> {
    if queue == [] then None else Some(queue[0])
  }

  function After(queue: seq<Item>, used: bool): seq<Item> {
    if used && queue != [] then queue[1..] else queue
  }

  /** Whose turn it is, and whether an operation that is left to that side's application is still pending. */
  datatype Turn = Turn(client: bool, busy: bool)

  /** What a turn finds: everything turns out well, but what can be pending is, as long as the application is busy. */
  function VerdictOf(busy: bool, pends: bool): Verdict {
    if busy && pends then Retry else Accept
  }

  /** One side takes a turn. */
  function Step(cc: C.Config, sc: S.Config, y: Pair, t: Turn): Pair {
    if t.client then
      var (next, used, flushed) := C.Turn(cc, y.c, Front(y.toClient), VerdictOf(t.busy, ClientPends(y.c)));
      y.(c := next, toClient := After(y.toClient, used), toServer := y.toServer + flushed)
    else
      var (next, used, flushed) := S.Turn(sc, y.s, Front(y.toServer), VerdictOf(t.busy, ServerPends(y.s)));
      y.(s := next, toServer := After(y.toServer, used), toClient := y.toClient + flushed)
  }

  function Run(cc: C.Config, sc: S.Config, y: Pair, turns: seq<Turn>): Pair
    decreases |turns|
  {
    if turns == [] then y else Run(cc, sc, Step(cc, sc, y, turns[0]), turns[1..])
  }

  /**
   * Two sides at phases x and y of one dialogue: whoever is ahead has said everything in between,
   * and what the other has not read of it is in the queue or still pending.
   */
  ghost predicate Between(p: Plan, client: bool, x: nat, y: nat, outQueue: seq<Item>, pending: seq<Item>, inQueue: seq<Item>, peerPending: seq<Item>) {
    && (x >= y ==> inQueue + peerPending == [] && outQueue + pending == Items(p, y, x) && Only(p, client, y, x))
    && (x <= y ==> outQueue + pending == [] && inQueue + peerPending == Items(p, x, y) && Only(p, !client, x, y))
  }

  lemma BetweenTurns(p: Plan, client: bool, x: nat, y: nat, outQueue: seq<Item>, pending: seq<Item>, inQueue: seq<Item>, peerPending: seq<Item>)
    requires Between(p, client, x, y, outQueue, pending, inQueue, peerPending)
    ensures Between(p, !client, y, x, inQueue, peerPending, outQueue, pending)
  {}

  /** What is at the front of a queue is the next item of the dialogue. */
  lemma FrontIsNext(p: Plan, client: bool, x: nat, y: nat, outQueue: seq<Item>, pending: seq<Item>, inQueue: seq<Item>, peerPending: seq<Item>) returns (j: nat)
    requires Between(p, client, x, y, outQueue, pending, inQueue, peerPending)
    ensures NextFrom(p, x, Front(inQueue), j, !client)
    ensures inQueue != [] ==> x < y && j < y && Items(p, j + 1, y) == inQueue[1..] + peerPending
  {
    j := 0;
    if inQueue != [] {
      j := FirstItem(p, x, y);
      assert (inQueue + peerPending)[1..] == inQueue[1..] + peerPending;
    }
  }

  /** A turn that follows the dialogue keeps two sides together. */
  lemma StaysBetween(p: Plan, client: bool, x: nat, x': nat, y: nat, j: nat, used: bool, outQueue: seq<Item>, pending: seq<Item>,
                     flushed: seq<Item>, after: seq<Item>, inQueue: seq<Item>, peerPending: seq<Item>)
    requires Between(p, client, x, y, outQueue, pending, inQueue, peerPending)
    requires inQueue != [] ==> x < y && j < y && Items(p, j + 1, y) == inQueue[1..] + peerPending
    requires Moves(p, client, x, x', j, used, pending, flushed, after) && (used ==> inQueue != [] && x <= j)
    ensures Between(p, client, x', y, outQueue + flushed, after, After(inQueue, used), peerPending)
  {
    hide ItemAt, MsgAt, Said, Items;
    assert (outQueue + flushed) + after == outQueue + (flushed + after);
    if used {
      assert outQueue + pending == [];
      NothingBetween(p, x', y);
    } else if x >= y {
      ItemsSplit(p, y, x, x');
      assert (outQueue + pending) + Items(p, x, x') == outQueue + (pending + Items(p, x, x'));
    } else {
      assert pending == [] && outQueue == [];
      if x' <= y {
        ItemsSplit(p, x, x', y);
        BothSpeak(p, client, x, x');
      } else {
        ItemsSplit(p, x, y, x');
        BothSpeak(p, client, x, y);
      }
    }
  }

  lemma NothingBetween(p: Plan, x: nat, y: nat)
    ensures x == y ==> Items(p, x, y) == []
  {}

  /** In phases where only the one and only the other side speaks, nobody does. */
  lemma BothSpeak(p: Plan, client: bool, x: nat, y: nat)
    requires Only(p, client, x, y) && Only(p, !client, x, y)
    ensures Items(p, x, y) == []
  {
    hide ItemAt, MsgAt, Said, Items;
    NothingSaid(p, x, y);
  }

  /** The two sides and their queues follow the dialogue that their configurations lead to. */
  ghost predicate InStep(p: Plan, cc: C.Config, sc: S.Config, y: Pair) {
    && p == PlanOf(cc, sc) && Agreed(cc, sc)
    && ClientAt(p, y.c) && ClientOk(cc, y.c) && !y.c.core.readReleased
    && ServerAt(p, sc, y.s) && ServerOk(y.s) && !y.s.core.readReleased
    && Between(p, true, ClientPhase(p, y.c.state), ServerPhase(p, y.s.state), y.toServer, y.c.core.pending, y.toClient, y.s.core.pending)
  }

  lemma StartsInStep(p: Plan, cc: C.Config, sc: S.Config)
    requires p == PlanOf(cc, sc) && Agreed(cc, sc)
    ensures InStep(p, cc, sc, STARTED)
  {}

  /** Every turn that finds nothing pending keeps them in step, and brings them closer to the end if it changes anything. */
  lemma StepKeepsInStep(p: Plan, cc: C.Config, sc: S.Config, y: Pair, client: bool)
    requires InStep(p, cc, sc, y)
    ensures InStep(p, cc, sc, Step(cc, sc, y, Turn(client, false)))
    ensures Step(cc, sc, y, Turn(client, false)) == y || Rank(p, Step(cc, sc, y, Turn(client, false))) < Rank(p, y)
  {
    if client { ClientKeepsInStep(p, cc, sc, y); } else { ServerKeepsInStep(p, cc, sc, y); }
  }

  lemma ClientKeepsInStep(p: Plan, cc: C.Config, sc: S.Config, y: Pair)
    requires InStep(p, cc, sc, y)
    ensures InStep(p, cc, sc, Step(cc, sc, y, Turn(true, false)))
    ensures Step(cc, sc, y, Turn(true, false)) == y || Rank(p, Step(cc, sc, y, Turn(true, false))) < Rank(p, y)
  {
    hide ItemAt, MsgAt, Said, Items, C.Turn, S.Turn, ClientAt, ServerAt, ClientOk, ServerOk, ClientRank, ServerRank, Between, Moves, NextFrom, ClientPends;
    var a, b := ClientPhase(p, y.c.state), ServerPhase(p, y.s.state);
    var (next, used, flushed) := C.Turn(cc, y.c, Front(y.toClient), Accept);
    var j := FrontIsNext(p, true, a, b, y.toServer, y.c.core.pending, y.toClient, y.s.core.pending);
    ClientTurns(p, cc, sc, y.c, Front(y.toClient), j);
    ClientTurnOk(cc, y.c, Front(y.toClient), Accept);
    ClientProgresses(p, cc, sc, y.c, Front(y.toClient), j);
    StaysBetween(p, true, a, ClientPhase(p, next.state), b, j, used, y.toServer, y.c.core.pending, flushed, next.core.pending,
                 y.toClient, y.s.core.pending);
  }

  lemma ServerKeepsInStep(p: Plan, cc: C.Config, sc: S.Config, y: Pair)
    requires InStep(p, cc, sc, y)
    ensures InStep(p, cc, sc, Step(cc, sc, y, Turn(false, false)))
    ensures Step(cc, sc, y, Turn(false, false)) == y || Rank(p, Step(cc, sc, y, Turn(false, false))) < Rank(p, y)
  {
    hide ItemAt, MsgAt, Said, Items, C.Turn, S.Turn, ClientAt, ServerAt, ClientOk, ServerOk, ClientRank, ServerRank, Between, Moves, NextFrom, ServerPends;
    var a, b := ClientPhase(p, y.c.state), ServerPhase(p, y.s.state);
    BetweenTurns(p, true, a, b, y.toServer, y.c.core.pending, y.toClient, y.s.core.pending);
    var (next, used, flushed) := S.Turn(sc, y.s, Front(y.toServer), Accept);
    var j := FrontIsNext(p, false, b, a, y.toClient, y.s.core.pending, y.toServer, y.c.core.pending);
    ServerTurns(p, cc, sc, y.s, Front(y.toServer), j);
    ServerTurnOk(sc, y.s, Front(y.toServer), Accept);
    ServerProgresses(p, cc, sc, y.s, Front(y.toServer), j);
    StaysBetween(p, false, b, ServerPhase(p, next.state), a, j, used, y.toClient, y.s.core.pending, flushed, next.core.pending,
                 y.toServer, y.c.core.pending);
    BetweenTurns(p, false, ServerPhase(p, next.state), a, y.toClient + flushed, next.core.pending, After(y.toServer, used), y.c.core.pending);
  }

  /** A turn that finds something pending is one that finds nothing, or only makes that side wait. */
  lemma BusyStep(p: Plan, cc: C.Config, sc: S.Config, y: Pair, client: bool)
    requires InStep(p, cc, sc, y)
    ensures var next := Step(cc, sc, y, Turn(client, true));
            || next == Step(cc, sc, y, Turn(client, false))
            || (InStep(p, cc, sc, next) && next == if client then y.(c := y.c.(wait := Pending)) else y.(s := y.s.(wait := Pending)))
  {
    hide ItemAt, MsgAt, Said, Items, C.Turn, S.Turn, ClientAt, ServerAt, ClientOk, ServerOk, ClientPends, ServerPends, Between;
    if client {
      if ClientPends(y.c) {
        ClientTurnPends(p, cc, y.c, Front(y.toClient));
        ClientTurnOk(cc, y.c, Front(y.toClient), Retry);
        assert y.toServer + [] == y.toServer;
      }
    } else if ServerPends(y.s) {
      ServerTurnPends(p, sc, y.s, Front(y.toServer));
      ServerTurnOk(sc, y.s, Front(y.toServer), Retry);
      assert y.toClient + [] == y.toClient;
    }
  }

  /** Every turn keeps them in step; one that finds something pending may set them back by one, no more. */
  lemma TurnKeepsInStep(p: Plan, cc: C.Config, sc: S.Config, y: Pair, t: Turn)
    requires InStep(p, cc, sc, y)
    ensures InStep(p, cc, sc, Step(cc, sc, y, t))
    ensures Rank(p, Step(cc, sc, y, t)) <= Rank(p, y) + if t.busy then 1 else 0
    ensures t.busy || Step(cc, sc, y, t) == y || Rank(p, Step(cc, sc, y, t)) < Rank(p, y)
  {
    hide InStep, Step, C.Turn, S.Turn;
    StepKeepsInStep(p, cc, sc, y, t.client);
    if t.busy {
      BusyStep(p, cc, sc, y, t.client);
    }
  }

  function Rank(p: Plan, y: Pair): nat {
    ClientRank(p, y.c) + ServerRank(p, y.s)
  }

  // ---- No deadlock, and completion.

  lemma {:induction false} NothingIn(p: Plan, x: nat, y: nat)
    requires Items(p, x, y) == []
    ensures forall k :: x <= k < y ==> ItemAt(p, k) == []
    decreases y - x
  {
    if x < y {
      NothingIn(p, x + 1, y);
    }
  }

  /** Both sides are done, with nothing left over, the same transcript and both directions under new keys. */
  ghost predicate Completed(p: Plan, y: Pair) {
    && y.c.state.Done? && y.s.state.Done? && !y.c.wait.Failed? && !y.s.wait.Failed?
    && y.toServer == [] && y.toClient == [] && y.c.core.pending == [] && y.s.core.pending == []
    && y.c.core.hash == y.s.core.hash == Some(Said(p, Phases(p)))
    && y.c.core.resumed == y.s.core.resumed == p.resumed && y.c.core.cipher == y.s.core.cipher
    && y.c.core.writeEpoch == y.s.core.readEpoch == 1 && y.s.core.writeEpoch == y.c.core.readEpoch == 1
    && ClientDone(y.c) && ServerDone(y.s) && y.s.core.peerKey == p.clientKey
  }

  lemma DoneIsCompleted(p: Plan, cc: C.Config, sc: S.Config, y: Pair)
    requires InStep(p, cc, sc, y) && y.c.state.Done? && y.s.state.Done?
    ensures Completed(p, y)
  {
    hide ItemAt, MsgAt, Said, Items;
    NothingBetween(p, Phases(p), Phases(p));
  }

  lemma WaitingSendsNothing(p: Plan, cc: C.Config, sc: S.Config, y: Pair)
    requires InStep(p, cc, sc, y)
    ensures y.c.wait.ReadMessage? || y.c.wait.ReadCcs? || y.c.state.Done? ==> y.c.core.pending == []
    ensures y.s.wait.ReadMessage? || y.s.wait.ReadCcs? || y.s.state.Done? ==> y.s.core.pending == []
    ensures y.c.state.Done? ==> ClientPhase(p, y.c.state) == Phases(p)
    ensures y.s.state.Done? ==> ServerPhase(p, y.s.state) == Phases(p)
  {
    hide ItemAt, MsgAt, Said, Items;
  }

  /** Two sides that both wait, or of which one waits and the other is done, cannot have nothing on its way. */
  lemma SomeoneSpeaks(p: Plan, cc: C.Config, sc: S.Config, y: Pair)
    requires InStep(p, cc, sc, y)
    requires y.c.state.Done? || ((y.c.wait.ReadMessage? || y.c.wait.ReadCcs?) && y.toClient == [])
    requires y.s.state.Done? || ((y.s.wait.ReadMessage? || y.s.wait.ReadCcs?) && y.toServer == [])
    ensures y.c.state.Done? && y.s.state.Done?
  {
    hide ItemAt, MsgAt, Said, Items, ClientAt, ServerAt, ClientOk, ServerOk;
    var a, b := ClientPhase(p, y.c.state), ServerPhase(p, y.s.state);
    WaitingSendsNothing(p, cc, sc, y);
    if !y.c.state.Done? {
      var i := ClientAwaits(p, y.c);
      if y.s.state.Done? {
        NothingIn(p, a, b);
        assert false;
      } else {
        var j := ServerAwaits(p, sc, y.s);
        if a <= b { NothingIn(p, a, b); } else { NothingIn(p, b, a); }
        assert false;
      }
    } else if !y.s.state.Done? {
      var j := ServerAwaits(p, sc, y.s);
      NothingIn(p, b, a);
      assert false;
    }
  }

  /** If neither side's turn changes anything, both have completed: there is no deadlock. */
  lemma StuckIsCompleted(p: Plan, cc: C.Config, sc: S.Config, y: Pair)
    requires InStep(p, cc, sc, y) && Step(cc, sc, y, Turn(true, false)) == y && Step(cc, sc, y, Turn(false, false)) == y
    ensures Completed(p, y)
  {
    hide ItemAt, MsgAt, Said, Items, C.Turn, S.Turn, ClientAt, ServerAt, ClientOk, ServerOk, Completed, NextFrom, ClientPends, ServerPends;
    var a, b := ClientPhase(p, y.c.state), ServerPhase(p, y.s.state);
    var i := FrontIsNext(p, true, a, b, y.toServer, y.c.core.pending, y.toClient, y.s.core.pending);
    ClientProgresses(p, cc, sc, y.c, Front(y.toClient), i);
    ClientTurns(p, cc, sc, y.c, Front(y.toClient), i);
    var j := FrontIsNext(p, false, b, a, y.toClient, y.s.core.pending, y.toServer, y.c.core.pending);
    ServerProgresses(p, cc, sc, y.s, Front(y.toServer), j);
    ServerTurns(p, cc, sc, y.s, Front(y.toServer), j);
    SomeoneSpeaks(p, cc, sc, y);
    DoneIsCompleted(p, cc, sc, y);
  }

  /** How many turns find an operation pending. */
  function Busy(turns: seq<Turn>): nat {
    if turns == [] then 0 else (if turns[0].busy then 1 else 0) + Busy(turns[1..])
  }

  lemma {:induction false} BusyAdds(first: seq<Turn>, rest: seq<Turn>)
    ensures Busy(first + rest) == Busy(first) + Busy(rest)
    decreases |first|
  {
    if first == [] {
      assert first + rest == rest;
    } else {
      assert (first + rest)[1..] == first[1..] + rest;
      BusyAdds(first[1..], rest);
    }
  }

  /** Whatever the order of turns, neither side ever fails. */
  lemma {:induction false} RunStaysInStep(p: Plan, cc: C.Config, sc: S.Config, y: Pair, turns: seq<Turn>)
    requires InStep(p, cc, sc, y)
    ensures InStep(p, cc, sc, Run(cc, sc, y, turns)) && Rank(p, Run(cc, sc, y, turns)) <= Rank(p, y) + Busy(turns)
    ensures Busy(turns) > 0 || Run(cc, sc, y, turns) == y || Rank(p, Run(cc, sc, y, turns)) < Rank(p, y)
    decreases |turns|
  {
    hide InStep, Rank, Step;
    if turns != [] {
      TurnKeepsInStep(p, cc, sc, y, turns[0]);
      RunStaysInStep(p, cc, sc, Step(cc, sc, y, turns[0]), turns[1..]);
    }
  }

  /** Both sides get a turn. */
  ghost predicate BothTurn(round: seq<Turn>) {
    (exists t :: t in round && t.client) && (exists t :: t in round && !t.client)
  }

  function Turns(rounds: seq<seq<Turn>>): seq<Turn> {
    if rounds == [] then [] else rounds[0] + Turns(rounds[1..])
  }

  lemma {:induction false} RunSplits(cc: C.Config, sc: S.Config, y: Pair, first: seq<Turn>, rest: seq<Turn>)
    ensures Run(cc, sc, y, first + rest) == Run(cc, sc, Run(cc, sc, y, first), rest)
    decreases |first|
  {
    hide Step;
    if first == [] {
      assert first + rest == rest;
    } else {
      assert (first + rest)[1..] == first[1..] + rest;
      RunSplits(cc, sc, Step(cc, sc, y, first[0]), first[1..], rest);
    }
  }

  /** A run that ends as it began, with nothing pending, changed nothing at any turn. */
  lemma {:induction false} NothingChanges(p: Plan, cc: C.Config, sc: S.Config, y: Pair, turns: seq<Turn>)
    requires InStep(p, cc, sc, y) && Busy(turns) == 0 && Rank(p, Run(cc, sc, y, turns)) == Rank(p, y)
    ensures forall t :: t in turns ==> !t.busy && Step(cc, sc, y, t) == y
    decreases |turns|
  {
    hide InStep, Rank, Step;
    if turns != [] {
      var next := Step(cc, sc, y, turns[0]);
      TurnKeepsInStep(p, cc, sc, y, turns[0]);
      RunStaysInStep(p, cc, sc, next, turns[1..]);
      assert next == y;
      NothingChanges(p, cc, sc, y, turns[1..]);
    }
  }

  lemma CompletedStays(p: Plan, cc: C.Config, sc: S.Config, y: Pair, turns: seq<Turn>)
    requires InStep(p, cc, sc, y) && Completed(p, y)
    ensures Completed(p, Run(cc, sc, y, turns))
    decreases |turns|
  {
    hide InStep, Rank, Step, Completed;
    if turns != [] {
      DoneDoesNothing(p, cc, sc, y, turns[0]);
      CompletedStays(p, cc, sc, y, turns[1..]);
    }
  }

  lemma DoneDoesNothing(p: Plan, cc: C.Config, sc: S.Config, y: Pair, t: Turn)
    requires InStep(p, cc, sc, y) && Completed(p, y)
    ensures Step(cc, sc, y, t) == y
  {
    hide MsgAt, Said, ItemAt, Items, ClientDone, ServerDone;
  }

  /** A round in which nothing is pending and nothing changes shows that neither side has anything left to do. */
  lemma QuietRound(p: Plan, cc: C.Config, sc: S.Config, y: Pair, round: seq<Turn>)
    requires InStep(p, cc, sc, y) && BothTurn(round) && Busy(round) == 0 && Rank(p, Run(cc, sc, y, round)) == Rank(p, y)
    ensures Completed(p, y)
  {
    hide InStep, Rank, Step, Completed;
    NothingChanges(p, cc, sc, y, round);
    var c, s :| c in round && c.client && s in round && !s.client;
    assert c == Turn(true, false) && s == Turn(false, false);
    StuckIsCompleted(p, cc, sc, y);
  }

  /**
   * Two agreeing sides complete, whatever the order of turns, once each has had turns often enough:
   * no run fails, none gets stuck, and at the end the two transcripts are one. Each turn that finds
   * an operation pending costs two rounds more.
   */
  lemma {:induction false} AlwaysCompletes(p: Plan, cc: C.Config, sc: S.Config, y: Pair, rounds: seq<seq<Turn>>)
    requires InStep(p, cc, sc, y)
    requires |rounds| > Rank(p, y) + 2 * Busy(Turns(rounds)) && forall r :: r in rounds ==> BothTurn(r)
    ensures Completed(p, Run(cc, sc, y, Turns(rounds)))
    decreases |rounds|
  {
    hide InStep, Rank, Step, Completed, MsgAt, Said, ItemAt, Items;
    var round, rest := rounds[0], rounds[1..];
    var next := Run(cc, sc, y, round);
    RunSplits(cc, sc, y, round, Turns(rest));
    BusyAdds(round, Turns(rest));
    RunStaysInStep(p, cc, sc, y, round);
    assert BothTurn(round);
    if Busy(round) == 0 && Rank(p, next) == Rank(p, y) {
      QuietRound(p, cc, sc, y, round);
      CompletedStays(p, cc, sc, y, Turns(rounds));
    } else {
      AlwaysCompletes(p, cc, sc, next, rest);
    }
  }

  /** From the start, 78 rounds in which both sides get a turn, and two more for each turn with something pending, are enough. */
  lemma HandshakeCompletes(p: Plan, cc: C.Config, sc: S.Config, rounds: seq<seq<Turn>>)
    requires p == PlanOf(cc, sc) && Agreed(cc, sc)
    requires |rounds| >= 78 + 2 * Busy(Turns(rounds)) && forall r :: r in rounds ==> BothTurn(r)
    ensures Completed(p, Run(cc, sc, STARTED, Turns(rounds)))
  {
    hide Completed, MsgAt, Said, ItemAt, Items;
    StartsInStep(p, cc, sc);
    AlwaysCompletes(p, cc, sc, STARTED, rounds);
  }
}
