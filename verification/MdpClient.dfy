/** The receive loop of `rpc_client_call_mdp`, as a run over what the clock and the socket deliver. */
module MdpClient {
  import opened ResultTable

  datatype Packet = Nothing | Ack(from: Sid) | Response(from: Sid, answer: Answer) | Other

  /** One loop round: the seconds since the start, whether a send succeeds, and the packet that arrives. */
  datatype Tick = Tick(elapsed: int, sendOk: bool, packet: Packet)

  /** The loop is waiting, has returned, or has written past the result table. */
  datatype Mdp =
    | Waiting(table: Table, received: int, wait: int)
    | Returned(table: Table, code: int)
    | OutOfBounds

  function Step(server: Sid, s: Mdp, tick: Tick): Mdp
    requires s.Waiting?
  {
    if tick.elapsed > s.wait then
      Returned(s.table, if IsBroadcast(server) && InsertIndex(s.table, 0) > 0 then 2 else s.received)
    else if s.received == 0 && !tick.sendOk then Returned(s.table, -1)
    else
      match tick.packet
      case Nothing => s
      case Other => s
      case Ack(from) =>
        (match OnAck(s.table, server, from)
         case None => OutOfBounds
         case Some(t) => Waiting(t, 1, s.wait + 20))
      case Response(from, a) =>
        (match OnResponse(s.table, server, from, a)
         case None => OutOfBounds
         case Some(r) => if r.last then Returned(r.table, 2) else Waiting(r.table, s.received, s.wait))
  }

  /** The run over the first `n` rounds. */
  function Run(server: Sid, s: Mdp, ticks: seq<Tick>, n: nat): Mdp
    requires n <= |ticks|
  {
    if n == 0 then s
    else
      var before := Run(server, s, ticks, n - 1);
      if before.Waiting? then Step(server, before, ticks[n - 1]) else before
  }

  function Start(): Mdp { Waiting(CLEARED, 0, 10) }

  // ---- a run seen from its packets ----

  predicate FromServer(packet: Packet) {
    packet.Ack? || packet.Response? ==> IsOrdinary(packet.from)
  }

  /** Servers send ACKs and answers under SIDs of their own; asked of "all" calls only. */
  ghost predicate OrdinarySenders(server: Sid, ticks: seq<Tick>) {
    IsBroadcast(server) ==> forall k | 0 <= k < |ticks| :: FromServer(ticks[k].packet)
  }

  /** The senders of the ACKs among the first `n` rounds. */
  function Senders(ticks: seq<Tick>, n: nat): (s: seq<Sid>)
    requires n <= |ticks|
  {
    if n == 0 then []
    else Senders(ticks, n - 1) + if ticks[n - 1].packet.Ack? then [ticks[n - 1].packet.from] else []
  }

  /** The loop reads the packet of a round after ACKs from these senders: 10 seconds, and 20 more for every ACK,
      are not over, and the call need not be sent again or can be. */
  predicate Reads(senders: seq<Sid>, tick: Tick) {
    tick.elapsed <= 10 + 20 * |senders| && (senders != [] || tick.sendOk)
  }

  /** A packet that is written outside the table: a sixth ACK, or an answer that does not fit the slot it is for. */
  predicate Leaves(server: Sid, senders: seq<Sid>, packet: Packet) {
    match packet
    case Ack(_) => IsBroadcast(server) && |senders| == SLOTS
    case Response(from, a) => !Fits(a) && (IsBroadcast(server) ==> from in senders)
    case _ => false
  }

  /** A packet that ends the call: an answer, to an "all" call only one for the last slot. */
  ghost predicate Finishes(server: Sid, senders: seq<Sid>, packet: Packet) {
    packet.Response? && Fits(packet.answer) && (IsBroadcast(server) ==> FirstAt(senders, packet.from, 4))
  }

  ghost predicate Continues(server: Sid, senders: seq<Sid>, tick: Tick) {
    Reads(senders, tick) && !Leaves(server, senders, tick.packet) && !Finishes(server, senders, tick.packet)
  }

  /** The table of a call before an answer ends it. */
  ghost predicate Kept(server: Sid, t: Table, senders: seq<Sid>) {
    if IsBroadcast(server) then Holds(t, senders) else t == CLEARED
  }

  /** What a waiting call has after ACKs from these senders. */
  ghost predicate Waits(server: Sid, s: Mdp, senders: seq<Sid>)
    requires s.Waiting?
  {
    Kept(server, s.table, senders) && s.received == (if senders == [] then 0 else 1) && s.wait == 10 + 20 * |senders|
  }

  /** How a call ends in a round after ACKs from these senders. */
  ghost predicate Ends(server: Sid, s: Mdp, senders: seq<Sid>, tick: Tick) {
    if !Reads(senders, tick) then
      && s.Returned? && Kept(server, s.table, senders)
      && s.code == if tick.elapsed <= 10 + 20 * |senders| then -1
                   else if senders == [] then 0
                   else if IsBroadcast(server) then 2 else 1
    else if Leaves(server, senders, tick.packet) then s.OutOfBounds?
    else s.Returned? && s.code == 2 && Delivered(server, s.table, senders, tick.packet)
  }

  /** The packet ends the call with this table: an "all" call with the answer in its last slot, any other with the
      answer alone in slot 0. */
  ghost predicate Delivered(server: Sid, t: Table, senders: seq<Sid>, packet: Packet) {
    && Finishes(server, senders, packet)
    && if IsBroadcast(server) then Holds(t, senders) && Brings(t[4].content, packet.answer)
       else t == CLEARED[0 := Slot(packet.from, Overwritten(NO_CONTENT, packet.answer))]
  }

  /** The content begins with the bytes of the answer. */
  ghost predicate Brings(c: Content, a: Answer) {
    match a
    case Inline(content) => content <= c
    case Download(path) => path <= c
    case Hollow => false
  }

  lemma StepIs(server: Sid, s: Mdp, tick: Tick, senders: seq<Sid>)
    requires s.Waiting? && Waits(server, s, senders) && (IsBroadcast(server) ==> FromServer(tick.packet))
    ensures var after := Step(server, s, tick);
      if Continues(server, senders, tick) then
        after.Waiting? && Waits(server, after, senders + if tick.packet.Ack? then [tick.packet.from] else [])
      else !after.Waiting? && Ends(server, after, senders, tick)
  {
    if IsBroadcast(server) {
      HeldIndex(s.table, senders);
      match tick.packet
      case Ack(from) => AckFills(s.table, senders, server, from);
      case Response(from, a) => AnswerKeeps(s.table, senders, server, from, a);
      case _ =>
    }
  }

  lemma StartWaits(server: Sid)
    ensures Waits(server, Start(), [])
  {
    hide Zeros;
  }

  /** The rounds among the first `n` after which the loop was still waiting. */
  ghost function Rounds(server: Sid, ticks: seq<Tick>, n: nat): (k: nat)
    requires n <= |ticks|
    ensures k <= n && (k == n <==> Run(server, Start(), ticks, n).Waiting?) && Run(server, Start(), ticks, k).Waiting?
  {
    if Run(server, Start(), ticks, n).Waiting? then n else Rounds(server, ticks, n - 1)
  }

  /** Every run, read off its packets. It waits through rounds that continue it; while it waits, an "all" call has
      one slot for every ACK, in their order, and any other call an empty table. The first other round ends it, by
      the time, by a failed send, outside the table or by an answer, as that round's packet says. */
  lemma {:induction false} RunIsSound(server: Sid, ticks: seq<Tick>, n: nat)
    requires OrdinarySenders(server, ticks) && n <= |ticks|
    ensures var s, k := Run(server, Start(), ticks, n), Rounds(server, ticks, n);
      && (forall j | 0 <= j < k :: Continues(server, Senders(ticks, j), ticks[j]))
      && (s.Waiting? ==> Waits(server, s, Senders(ticks, n)))
      && (k < n ==> !Continues(server, Senders(ticks, k), ticks[k]) && Ends(server, s, Senders(ticks, k), ticks[k]))
    decreases n
  {
    hide Step, Waits, Ends, Continues, Zeros;
    if n == 0 {
      StartWaits(server);
    } else {
      RunIsSound(server, ticks, n - 1);
      var before := Run(server, Start(), ticks, n - 1);
      if before.Waiting? { StepIs(server, before, ticks[n - 1], Senders(ticks, n - 1)); }
    }
  }

  lemma {:induction false} RunStays(server: Sid, s: Mdp, ticks: seq<Tick>, n: nat, m: nat)
    requires n <= m <= |ticks|
    ensures !Run(server, s, ticks, n).Waiting? ==> Run(server, s, ticks, m) == Run(server, s, ticks, n)
    decreases m - n
  {
    if n < m { RunStays(server, s, ticks, n, m - 1); }
  }

  lemma {:induction false} SendersGrow(ticks: seq<Tick>, n: nat, m: nat)
    requires n <= m <= |ticks|
    ensures Senders(ticks, n) <= Senders(ticks, m)
    decreases m - n
  {
    if n < m { SendersGrow(ticks, n, m - 1); }
  }

  lemma RoundsGrow(server: Sid, ticks: seq<Tick>, n: nat, m: nat)
    requires n <= m <= |ticks| && Run(server, Start(), ticks, n).Waiting?
    ensures n <= Rounds(server, ticks, m)
    decreases m - n
  {
    if n < m { RoundsGrow(server, ticks, n, m - 1); }
  }

  // ---- inside the table ----

  /** The loop reads a packet in round `k` that it writes outside the table. */
  ghost predicate LeavesAt(server: Sid, ticks: seq<Tick>, k: nat)
    requires k < |ticks|
  {
    && Run(server, Start(), ticks, k).Waiting?
    && Reads(Senders(ticks, k), ticks[k]) && Leaves(server, Senders(ticks, k), ticks[k].packet)
  }

  /** Exactly when the loop writes outside the table: it reads, in time, a sixth ACK of an "all" call or an answer
      that does not fit the slot it is for. */
  lemma OutOfBoundsIff(server: Sid, ticks: seq<Tick>, n: nat)
    requires OrdinarySenders(server, ticks) && n <= |ticks|
    ensures Run(server, Start(), ticks, n).OutOfBounds? <==> exists k | 0 <= k < n :: LeavesAt(server, ticks, k)
  {
    hide Run, Leaves, Reads, Finishes, Waits, Senders;
    RunIsSound(server, ticks, n);
    if Run(server, Start(), ticks, n).OutOfBounds? {
      assert LeavesAt(server, ticks, Rounds(server, ticks, n));
    }
    if k :| 0 <= k < n && LeavesAt(server, ticks, k) {
      RunIsSound(server, ticks, k + 1);
      RunStays(server, Start(), ticks, k + 1, n);
    }
  }

  /** The answers among the first `n` rounds fit a slot. One that is received inline does, since the buffer for a
      packet has as many bytes as a slot. */
  ghost predicate AnswersFit(ticks: seq<Tick>, n: nat)
    requires n <= |ticks|
  {
    forall k | 0 <= k < n :: ticks[k].packet.Response? ==> Fits(ticks[k].packet.answer)
  }

  /** While at most five ACKs arrive, no run leaves the table by an ACK. */
  lemma FiveAcksAreSafe(server: Sid, ticks: seq<Tick>, n: nat)
    requires OrdinarySenders(server, ticks) && n <= |ticks| && AnswersFit(ticks, n)
    requires IsBroadcast(server) ==> |Senders(ticks, n)| <= SLOTS
    ensures !Run(server, Start(), ticks, n).OutOfBounds?
  {
    OutOfBoundsIff(server, ticks, n);
    if k :| 0 <= k < n && LeavesAt(server, ticks, k) { SendersGrow(ticks, k + 1, n); }
  }

  lemma SixSenders(from: Sid, ticks: seq<Tick>)
    requires |ticks| == 6 && forall k | 0 <= k < 6 :: ticks[k].packet == Ack(from)
    ensures |Senders(ticks, 6)| == 6
  {
    assert |Senders(ticks, 1)| == 1;
    assert |Senders(ticks, 2)| == 2;
    assert |Senders(ticks, 3)| == 3;
    assert |Senders(ticks, 4)| == 4;
    assert |Senders(ticks, 5)| == 5;
  }

  /** The lookup that guards the insertion does not look for the sender: six ACKs of one server suffice. */
  lemma OneServerLeavesTheTable(server: Sid, from: Sid)
    requires IsBroadcast(server) && IsOrdinary(from)
    ensures var ack := Tick(0, true, Ack(from)); Run(server, Start(), [ack, ack, ack, ack, ack, ack], 6).OutOfBounds?
  {
    var ack := Tick(0, true, Ack(from));
    var ticks := [ack, ack, ack, ack, ack, ack];
    OutOfBoundsIff(server, ticks, 6);
    RunIsSound(server, ticks, 6);
    if Run(server, Start(), ticks, 6).Waiting? { SixSenders(from, ticks); }
  }

  // ---- how a call ends ----

  /** A round that comes too late ends the call, so an "all" call lasts at most 110 seconds and one round. */
  lemma LateRoundEnds(server: Sid, ticks: seq<Tick>, n: nat)
    requires OrdinarySenders(server, ticks) && n < |ticks|
    requires ticks[n].elapsed > if IsBroadcast(server) then 110 else 10 + 20 * |Senders(ticks, n)|
    ensures !Run(server, Start(), ticks, n + 1).Waiting?
  {
    hide Run;
    RunIsSound(server, ticks, n + 1);
  }

  ghost function TableOf(s: Mdp): Table
    requires !s.OutOfBounds?
  {
    s.table
  }

  /** While an "all" call waits and when it has returned, slot k holds the sender of ACK k, and a free slot follows
      the last one; it returns 2 if and only if a slot is occupied. */
  lemma SlotsAreSenders(server: Sid, ticks: seq<Tick>, n: nat)
    requires IsBroadcast(server) && OrdinarySenders(server, ticks) && n <= |ticks|
    ensures var s, senders := Run(server, Start(), ticks, n), Senders(ticks, Rounds(server, ticks, n));
      && (!s.OutOfBounds? ==> Holds(TableOf(s), senders))
      && (s.Returned? ==> s.code in {-1, 0, 2} && (s.code == 2 <==> IsOrdinary(s.table[0].sid)))
  {
    hide Run;
    RunIsSound(server, ticks, n);
  }

  /** A stored SID never changes. */
  lemma SidsStay(server: Sid, ticks: seq<Tick>, n: nat, m: nat, k: nat)
    requires IsBroadcast(server) && OrdinarySenders(server, ticks) && n <= m <= |ticks|
    requires !Run(server, Start(), ticks, n).OutOfBounds? && !Run(server, Start(), ticks, m).OutOfBounds?
    requires k < SLOTS && IsOrdinary(TableOf(Run(server, Start(), ticks, n))[k].sid)
    ensures TableOf(Run(server, Start(), ticks, m))[k].sid == TableOf(Run(server, Start(), ticks, n))[k].sid
  {
    hide Run, IsAny, IsBroadcast;
    if Run(server, Start(), ticks, n).Waiting? {
      SlotsAreSenders(server, ticks, n);
      SlotsAreSenders(server, ticks, m);
      RoundsGrow(server, ticks, n, m);
      SendersGrow(ticks, n, Rounds(server, ticks, m));
    } else {
      RunStays(server, Start(), ticks, n, m);
    }
  }

  /** An answer that an "all" call reads ends it if and only if it fits and comes from the sender of the fifth ACK,
      who sent none before; then five slots are occupied, and the last begins with the answer. */
  lemma LastAnswer(server: Sid, ticks: seq<Tick>, n: nat)
    requires IsBroadcast(server) && OrdinarySenders(server, ticks) && n < |ticks|
    requires Run(server, Start(), ticks, n).Waiting? && Reads(Senders(ticks, n), ticks[n]) && ticks[n].packet.Response?
    ensures var s, senders, p := Run(server, Start(), ticks, n + 1), Senders(ticks, n), ticks[n].packet;
      && (s.Returned? <==> Fits(p.answer) && FirstAt(senders, p.from, 4))
      && (s.Returned? ==> s.code == 2 && Holds(s.table, senders) && Brings(s.table[4].content, p.answer))
  {
    RunIsSound(server, ticks, n);
    StepIs(server, Run(server, Start(), ticks, n), ticks[n], Senders(ticks, n));
  }

  /** The answer stands alone in slot 0, or has left it. */
  ghost predicate AnsweredBy(s: Mdp, p: Packet) {
    && p.Response?
    && if Fits(p.answer) then s == Returned(CLEARED[0 := Slot(p.from, Overwritten(NO_CONTENT, p.answer))], 2)
       else s == OutOfBounds
  }

  /** A call that is not an "all" call reads no answer before its last round and keeps an empty table until then. If
      it reads the packet of its last round, that is an answer, the first one, and the call returns 2 with this
      answer in slot 0, or leaves the slot when the answer does not fit. */
  lemma FirstAnswerWins(server: Sid, ticks: seq<Tick>, n: nat)
    requires !IsBroadcast(server) && n <= |ticks|
    ensures var s, k := Run(server, Start(), ticks, n), Rounds(server, ticks, n);
      && (forall j | 0 <= j < k :: !ticks[j].packet.Response?)
      && (s.Waiting? ==> s.table == CLEARED)
      && (k < n && !Reads(Senders(ticks, k), ticks[k]) ==> s.Returned? && s.table == CLEARED && s.code in {-1, 0, 1})
      && (k < n && Reads(Senders(ticks, k), ticks[k]) ==> AnsweredBy(s, ticks[k].packet))
  {
    hide Run, Reads;
    RunIsSound(server, ticks, n);
  }

  // ---- the loop ----

  /** The receive loop, on every run that ends inside the table. */
  method Receive(t: array<Slot>, server: Sid, ticks: seq<Tick>) returns (code: int)
    requires t.Length == SLOTS && t[..] == CLEARED && Run(server, Start(), ticks, |ticks|).Returned?
    modifies t
    ensures Run(server, Start(), ticks, |ticks|) == Returned(t[..], code)
  {
    hide OnAck, OnResponse, Zeros;
    var received, wait, i := 0, 10, 0;
    while received == 0 || received == 1
      invariant 0 <= i <= |ticks| && received in {0, 1, 2}
      invariant Run(server, Start(), ticks, i)
        == if received == 2 then Returned(t[..], 2) else Waiting(t[..], received, wait)
      decreases |ticks| - i
    {
      var tick := ticks[i];
      i := i + 1;
      RunStays(server, Start(), ticks, i, |ticks|);
      if tick.elapsed > wait {
        var answers := GetInsertIndex(t);
        if IsBroadcast(server) && answers > 0 { return 2; } else { return received; }
      }
      if received == 0 && !tick.sendOk { return -1; }
      match tick.packet {
        case Nothing =>
        case Other =>
        case Ack(from) =>
          HandleAck(t, server, from);
          received, wait := 1, wait + 20;
        case Response(from, a) =>
          var last := HandleResponse(t, server, from, a);
          if last { received := 2; }
      }
    }
    RunStays(server, Start(), ticks, i, |ticks|);
    return received;
  }
}
