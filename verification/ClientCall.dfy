/** `rpc_client_call`: one transport after the other until one of them answers. */
module ClientCall {
  import opened CText
  import opened ResultTable
  import opened MdpClient
  import opened RhizomeClient

  /** What the surroundings deliver to the calls: whether each transport gets as far as its loop,
      and what the loop then sees. */
  datatype MdpWorld = MdpWorld(ready: bool, ticks: seq<Tick>)

  datatype RhizomeWorld = RhizomeWorld(posted: bool, polls: seq<Poll>)

  /** The loop ends, within its memory. */
  predicate MdpEnds(server: Sid, w: MdpWorld) {
    w.ready ==> Run(server, Start(), w.ticks, |w.ticks|).Returned?
  }

  predicate RhizomeEnds(sid: Sid, me: CString, rpcName: CString, w: RhizomeWorld) {
    w.posted ==> Listened(sid, me, rpcName, Begin(), w.polls, |w.polls|).Ended?
  }

  /** The code and the table of a whole Rhizome call. */
  function RhizomeCode(sid: Sid, me: CString, rpcName: CString, w: RhizomeWorld): int
    requires RhizomeEnds(sid, me, rpcName, w)
  {
    if w.posted then Listened(sid, me, rpcName, Begin(), w.polls, |w.polls|).code else -1
  }

  function RhizomeTable(sid: Sid, me: CString, rpcName: CString, w: RhizomeWorld): Table
    requires RhizomeEnds(sid, me, rpcName, w)
  {
    if w.posted then Listened(sid, me, rpcName, Begin(), w.polls, |w.polls|).table else CLEARED
  }

  /** `rpc_client_call_mdp` around its receive loop. */
  method CallMdp(t: array<Slot>, server: Sid, w: MdpWorld) returns (code: int)
    requires t.Length == SLOTS && MdpEnds(server, w)
    modifies t
    ensures t[..] == (if w.ready then Run(server, Start(), w.ticks, |w.ticks|).table else CLEARED)
    ensures code == if w.ready then Run(server, Start(), w.ticks, |w.ticks|).code else -1
  {
    Clear(t);
    code := -1;
    if w.ready { code := Receive(t, server, w.ticks); }
  }

  /** `rpc_client_call_rhizome` around its listening loop. */
  method CallRhizome(t: array<Slot>, sid: Sid, me: CString, rpcName: CString, w: RhizomeWorld) returns (code: int)
    requires t.Length == SLOTS && RhizomeEnds(sid, me, rpcName, w)
    modifies t
    ensures t[..] == RhizomeTable(sid, me, rpcName, w) && code == RhizomeCode(sid, me, rpcName, w)
    ensures code in {2, -1}
  {
    Clear(t);
    code := -1;
    if w.posted {
      code := ListenForResult(t, sid, me, rpcName, w.polls);
      ListenReturns(sid, me, rpcName, w.polls, |w.polls|);
    }
  }

  /** All packets come from servers' SIDs. */
  ghost predicate FromServers(mdp: MdpWorld, rhizome: RhizomeWorld) {
    && (forall k | 0 <= k < |mdp.ticks| :: FromServer(mdp.ticks[k].packet))
    && forall k, i | 0 <= k < |rhizome.polls| && 0 <= i < |rhizome.polls[k].rows| ::
         FromServer(rhizome.polls[k].rows[i].packet)
  }

  lemma MdpAnswers(server: Sid, w: MdpWorld, rhizome: RhizomeWorld)
    requires w.ready && MdpEnds(server, w) && FromServers(w, rhizome)
    ensures var s := Run(server, Start(), w.ticks, |w.ticks|);
      s.code in {-1, 0, 1, 2} && (s.code == 2 ==> IsOrdinary(s.table[0].sid))
  {
    hide Run;
    if IsBroadcast(server) {
      SlotsAreSenders(server, w.ticks, |w.ticks|);
    } else {
      FirstAnswerWins(server, w.ticks, |w.ticks|);
    }
  }

  lemma RhizomeAnswers(sid: Sid, me: CString, rpcName: CString, mdp: MdpWorld, w: RhizomeWorld)
    requires w.posted && RhizomeEnds(sid, me, rpcName, w) && FromServers(mdp, w)
    ensures var s := Listened(sid, me, rpcName, Begin(), w.polls, |w.polls|);
      s.code == 2 ==> IsOrdinary(s.table[0].sid)
  {
    hide Listened, IsOrdinary;
    if IsBroadcast(sid) {
      HonestRun(sid, me, rpcName, w.polls, |w.polls|);
    } else {
      OneAnswer(sid, me, rpcName, w.polls, |w.polls|);
    }
  }

  /** With at most five ACKs, answers that fit a slot and no empty bundle list before the first token, neither loop
      leaves its memory: a run that has not ended is still waiting. */
  lemma FiveServersStayInside(server: Sid, me: CString, rpcName: CString, mdp: MdpWorld, rhizome: RhizomeWorld)
    requires OrdinarySenders(server, mdp.ticks) && OrdinaryPolls(server, rhizome.polls)
    requires TokenBeforeQuiet(rhizome.polls)
    requires AnswersFit(mdp.ticks, |mdp.ticks|) && PollAnswersFit(rhizome.polls, me, rpcName)
    requires IsBroadcast(server) ==>
      && |Senders(mdp.ticks, |mdp.ticks|)| <= SLOTS
      && |PollSenders(rhizome.polls, me, rpcName, |rhizome.polls|)| <= SLOTS
    ensures !Run(server, Start(), mdp.ticks, |mdp.ticks|).OutOfBounds?
    ensures !Listened(server, me, rpcName, Begin(), rhizome.polls, |rhizome.polls|).Crashed?
  {
    hide Run, Listened;
    FiveAcksAreSafe(server, mdp.ticks, |mdp.ticks|);
    FiveReadAcksAreSafe(server, me, rpcName, rhizome.polls, |rhizome.polls|);
  }

  /** The chain behind the first transport, the same for MDP and MSP: Rhizome after -1, after 0 and after 1.
      `attempts` counts the Rhizome calls. */
  method FallBack(t: array<Slot>, first: int, sid: Sid, me: CString, rpcName: CString, w: RhizomeWorld)
    returns (code: int, attempts: nat)
    requires t.Length == SLOTS && RhizomeEnds(sid, me, rpcName, w)
    modifies t
    ensures first !in {-1, 0, 1} ==> attempts == 0 && code == first && t[..] == old(t[..])
    ensures first in {-1, 0, 1} ==> attempts == 1 && code in {2, -1}
    ensures first in {-1, 0, 1} ==> code == RhizomeCode(sid, me, rpcName, w)
    ensures first in {-1, 0, 1} ==> t[..] == RhizomeTable(sid, me, rpcName, w)
  {
    hide Listened;
    code, attempts := first, 0;
    var failed := false;
    if code == -1 {
      code := CallRhizome(t, sid, me, rpcName, w);
      attempts := attempts + 1;
      failed := code == -1;
    }
    if !failed && code == 0 {
      code := CallRhizome(t, sid, me, rpcName, w);
      attempts := attempts + 1;
      failed := code == -1 || code == 0;
    }
    if !failed && code == 1 {
      code := CallRhizome(t, sid, me, rpcName, w);
      attempts := attempts + 1;
      failed := code == -1 || code == 0 || code == 1;
    }
    if failed { code := -1; }
  }

  /** The first transport needs no other: to all servers or to any, MDP ran and returned 2; to one server, MSP neither
      failed nor waited in vain. */
  predicate Settled(server: Sid, mdp: MdpWorld, mspCode: int)
    requires MdpEnds(server, mdp)
  {
    if IsBroadcast(server) || IsAny(server) then mdp.ready && Run(server, Start(), mdp.ticks, |mdp.ticks|).code == 2
    else mspCode !in {-1, 0, 1}
  }

  /** `rpc_client_call`. To all servers or to any it goes through MDP, to one server through MSP, whose outcome is
      `mspCode`. Exactly one Rhizome call follows unless the first transport settles the call; table and code are those
      of the transport that came last. A call to all or any returns only 2 or -1, and after 2 slot 0 holds a server's
      SID. */
  method Call(t: array<Slot>, server: Sid, me: CString, rpcName: CString, mdp: MdpWorld, mspCode: int,
          rhizome: RhizomeWorld)
    returns (code: int, attempts: nat)
    requires t.Length == SLOTS && FromServers(mdp, rhizome)
    requires MdpEnds(server, mdp) && RhizomeEnds(server, me, rpcName, rhizome)
    modifies t
    ensures attempts == if Settled(server, mdp, mspCode) then 0 else 1
    ensures attempts == 1 ==> code in {2, -1}
    ensures attempts == 1 ==> code == RhizomeCode(server, me, rpcName, rhizome)
    ensures attempts == 1 ==> t[..] == RhizomeTable(server, me, rpcName, rhizome)
    ensures attempts == 0 && (IsBroadcast(server) || IsAny(server)) ==>
      code == 2 && t[..] == Run(server, Start(), mdp.ticks, |mdp.ticks|).table
    ensures attempts == 0 && !IsBroadcast(server) && !IsAny(server) ==> code == mspCode
    ensures IsBroadcast(server) || IsAny(server) ==> code in {2, -1} && (code == 2 ==> IsOrdinary(t[0].sid))
  {
    hide Run, Listened;
    if mdp.ready { MdpAnswers(server, mdp, rhizome); }
    if rhizome.posted { RhizomeAnswers(server, me, rpcName, mdp, rhizome); }
    var first := mspCode;
    if IsBroadcast(server) || IsAny(server) { first := CallMdp(t, server, mdp); }
    code, attempts := FallBack(t, first, server, me, rpcName, rhizome);
  }
}
