/** The polling loop of `_rpc_client_rhizome_listen`, as a run over the batches of bundles it fetches. */
module RhizomeClient {
  import opened CText
  import opened Wrappers
  import opened ResultTable
  import opened MdpClient

  const RPC_SERVICE: bytes := [82, 80, 67]
  const MAX_AGE := 600000

  /** One row of the bundle list, and what its file decrypts to; an inline answer is one byte shorter than the file,
      and nothing bounds a file. */
  datatype Row = Row(hasToken: bool, service: CString, recipient: Option<CString>, name: CString, age: int,
                     decrypts: bool, packet: Packet)

  /** One round: the seconds since the start, whether the list is fetched, and its rows. */
  datatype Poll = Poll(elapsed: int, fetchOk: bool, rows: seq<Row>)

  /** The file is an RPC packet for this client, of this procedure, and recent. */
  predicate Relevant(row: Row, me: CString, rpcName: CString) {
    RPC_SERVICE <= row.service && row.recipient == Some(me) && rpcName <= row.name && row.age < MAX_AGE
  }

  /** The loop is listening, has ended with a return code, or has left its memory: past the result table,
      or through a first bundle list without any row. */
  datatype Listen =
    | Listening(table: Table, wait: int, token: bool)
    | Ended(table: Table, code: int)
    | Crashed

  function OnRow(sid: Sid, me: CString, rpcName: CString, s: Listen, row: Row): Listen
    requires s.Listening?
  {
    if !Relevant(row, me, rpcName) then Listening(s.table, s.wait, row.hasToken)
    else if !row.decrypts then Ended(s.table, -1)
    else
      match row.packet
      case Ack(from) =>
        (match OnAck(s.table, sid, from)
         case None => Crashed
         case Some(t) => Listening(t, if s.wait == 20 then 120 else s.wait, row.hasToken))
      case Response(from, a) =>
        (match OnResponse(s.table, sid, from, a)
         case None => Crashed
         case Some(r) => if r.last then Ended(r.table, 2) else Listening(r.table, s.wait, row.hasToken))
      case _ => Listening(s.table, s.wait, row.hasToken)
  }

  /** The loop over the first `n` rows. */
  function OnRows(sid: Sid, me: CString, rpcName: CString, s: Listen, rows: seq<Row>, n: nat): Listen
    requires s.Listening? && n <= |rows|
  {
    if n == 0 then s
    else
      var before := OnRows(sid, me, rpcName, s, rows, n - 1);
      if before.Listening? then OnRow(sid, me, rpcName, before, rows[n - 1]) else before
  }

  function OnPoll(sid: Sid, me: CString, rpcName: CString, s: Listen, poll: Poll): Listen
    requires s.Listening?
  {
    if poll.elapsed > s.wait then Ended(s.table, if IsBroadcast(sid) && InsertIndex(s.table, 0) > 0 then 2 else -1)
    else if !poll.fetchOk then Ended(s.table, -1)
    else if s.token then OnRows(sid, me, rpcName, s, poll.rows, |poll.rows|)
    else if poll.rows == [] then Crashed
    else OnRows(sid, me, rpcName, s, poll.rows, 1)
  }

  /** The run over the first `n` polls. */
  function Listened(sid: Sid, me: CString, rpcName: CString, s: Listen, polls: seq<Poll>, n: nat): Listen
    requires n <= |polls|
  {
    if n == 0 then s
    else
      var before := Listened(sid, me, rpcName, s, polls, n - 1);
      if before.Listening? then OnPoll(sid, me, rpcName, before, polls[n - 1]) else before
  }

  function Begin(): Listen { Listening(CLEARED, 20, false) }

  // ---- the return code ----

  /** Whatever arrives, an ended run has given up with -1 or answered with 2. */
  lemma {:induction false} RowsReturn(sid: Sid, me: CString, rpcName: CString, s: Listen, rows: seq<Row>, n: nat)
    requires s.Listening? && n <= |rows|
    ensures var after := OnRows(sid, me, rpcName, s, rows, n); after.Ended? ==> after.code in {2, -1}
    decreases n
  {
    if n > 0 { RowsReturn(sid, me, rpcName, s, rows, n - 1); }
  }

  lemma {:induction false} ListenReturns(sid: Sid, me: CString, rpcName: CString, polls: seq<Poll>, n: nat)
    requires n <= |polls|
    ensures var s := Listened(sid, me, rpcName, Begin(), polls, n); s.Ended? ==> s.code in {2, -1}
    decreases n
  {
    if n > 0 {
      ListenReturns(sid, me, rpcName, polls, n - 1);
      var before := Listened(sid, me, rpcName, Begin(), polls, n - 1);
      if before.Listening? && (before.token || polls[n - 1].rows != []) {
        RowsReturn(sid, me, rpcName, before, polls[n - 1].rows, if before.token then |polls[n - 1].rows| else 1);
      }
    }
  }

  // ---- a run seen from its rows ----

  /** The packet of a row is read. */
  predicate ReadsRow(row: Row, me: CString, rpcName: CString) {
    Relevant(row, me, rpcName) && row.decrypts
  }

  /** The bytes of `prefix` stand at the beginning of `s`. */
  predicate Begins(prefix: bytes, s: bytes) {
    |prefix| <= |s| && forall k | 0 <= k < |prefix| :: s[k] == prefix[k]
  }

  /** The service begins with `RPC`, the row is addressed to this client, its name begins with the procedure's, and
      it is younger than 600000. */
  predicate IsForCall(row: Row, me: CString, rpcName: CString) {
    Begins([82, 80, 67], row.service) && row.recipient == Some(me) && Begins(rpcName, row.name) && row.age < 600000
  }

  /** Exactly the files for this call are read when they decrypt, and end the call when they do not; any other row
      changes nothing but the token. */
  lemma RowsForCall(sid: Sid, me: CString, rpcName: CString, s: Listen, row: Row)
    requires s.Listening?
    ensures ReadsRow(row, me, rpcName) <==> IsForCall(row, me, rpcName) && row.decrypts
    ensures IsForCall(row, me, rpcName) && !row.decrypts ==> OnRow(sid, me, rpcName, s, row) == Ended(s.table, -1)
    ensures !IsForCall(row, me, rpcName) ==>
      OnRow(sid, me, rpcName, s, row) == Listening(s.table, s.wait, row.hasToken)
  {
    var prefix: bytes := [82, 80, 67];
    assert Begins(prefix, row.service) <==> prefix <= row.service;
    assert Begins(rpcName, row.name) <==> rpcName <= row.name;
  }

  /** An answer of the procedure `bar` does not end a call of `foo`. */
  lemma OtherProcedurePassed(sid: Sid, me: CString, from: Sid, a: Answer)
    ensures var row := Row(true, [82, 80, 67], Some(me), [98, 97, 114], 0, true, Response(from, a));
      OnRow(sid, me, [102, 111, 111], Begin(), row) == Listening(CLEARED, 20, true)
  {
    var foo: CString := [102, 111, 111];
    var row := Row(true, [82, 80, 67], Some(me), [98, 97, 114], 0, true, Response(from, a));
    assert row.name[0] != foo[0];
    RowsForCall(sid, me, foo, Begin(), row);
  }

  /** The senders of the ACKs read in the first `n` rows. */
  function RowSenders(rows: seq<Row>, me: CString, rpcName: CString, n: nat): seq<Sid>
    requires n <= |rows|
  {
    if n == 0 then []
    else
      RowSenders(rows, me, rpcName, n - 1)
      + if ReadsRow(rows[n - 1], me, rpcName) && rows[n - 1].packet.Ack? then [rows[n - 1].packet.from] else []
  }

  /** The token after the first `n` rows. */
  function RowToken(token: bool, rows: seq<Row>, n: nat): bool
    requires n <= |rows|
  {
    if n == 0 then token else rows[n - 1].hasToken
  }

  /** The rows that are looked at: all with a token, otherwise the first. */
  function Count(token: bool, rows: seq<Row>): (n: nat)
    ensures n <= |rows|
  {
    if token || rows == [] then |rows| else 1
  }

  /** Whether there is a token after the first `n` lists. */
  function Token(polls: seq<Poll>, n: nat): bool
    requires n <= |polls|
  {
    if n == 0 then false
    else
      var token, rows := Token(polls, n - 1), polls[n - 1].rows;
      RowToken(token, rows, Count(token, rows))
  }

  /** The senders of the ACKs read in the first `n` lists. */
  function PollSenders(polls: seq<Poll>, me: CString, rpcName: CString, n: nat): seq<Sid>
    requires n <= |polls|
  {
    if n == 0 then []
    else
      var rows := polls[n - 1].rows;
      PollSenders(polls, me, rpcName, n - 1) + RowSenders(rows, me, rpcName, Count(Token(polls, n - 1), rows))
  }

  ghost predicate OrdinaryRows(sid: Sid, rows: seq<Row>) {
    IsBroadcast(sid) ==> forall k | 0 <= k < |rows| :: FromServer(rows[k].packet)
  }

  ghost predicate OrdinaryPolls(sid: Sid, polls: seq<Poll>) {
    forall k | 0 <= k < |polls| :: OrdinaryRows(sid, polls[k].rows)
  }

  /** What a listening call has after ACKs from these senders. */
  ghost predicate Listens(sid: Sid, s: Listen, senders: seq<Sid>, token: bool) {
    s.Listening? && Kept(sid, s.table, senders) && s.wait == (if senders == [] then 20 else 120) && s.token == token
  }

  /** An ended call returns 2 only with a server in slot 0. */
  ghost predicate Honest(sid: Sid, s: Listen) {
    s.Ended? && s.code in {2, -1} && (s.code == 2 && IsBroadcast(sid) ==> IsOrdinary(s.table[0].sid))
  }

  /** The row's packet is read and written outside the table. */
  predicate RowLeaves(sid: Sid, me: CString, rpcName: CString, senders: seq<Sid>, row: Row) {
    ReadsRow(row, me, rpcName) && Leaves(sid, senders, row.packet)
  }

  /** The row ends the call: it cannot be decrypted, or brings an answer that finishes. */
  ghost predicate RowStops(sid: Sid, me: CString, rpcName: CString, senders: seq<Sid>, row: Row) {
    Relevant(row, me, rpcName) && (!row.decrypts || Finishes(sid, senders, row.packet))
  }

  /** How it ends the call. */
  ghost predicate RowEnds(sid: Sid, s: Listen, senders: seq<Sid>, row: Row) {
    && s.Ended?
    && if row.decrypts then s.code == 2 && Delivered(sid, s.table, senders, row.packet)
       else s.code == -1 && Kept(sid, s.table, senders)
  }

  lemma RowIs(sid: Sid, me: CString, rpcName: CString, s: Listen, row: Row, senders: seq<Sid>, token: bool)
    requires Listens(sid, s, senders, token) && (IsBroadcast(sid) ==> FromServer(row.packet))
    ensures var after := OnRow(sid, me, rpcName, s, row);
      && (after.Crashed? <==> RowLeaves(sid, me, rpcName, senders, row))
      && (after.Ended? <==> RowStops(sid, me, rpcName, senders, row))
      && (after.Ended? ==> RowEnds(sid, after, senders, row))
      && (after.Listening? ==> Listens(sid, after, senders + RowSenders([row], me, rpcName, 1), row.hasToken))
      && (after.Ended? ==> Honest(sid, after))
  {
    hide Zeros, Relevant, SidIndex, InsertIndex, IsBroadcast;
    if IsBroadcast(sid) && ReadsRow(row, me, rpcName) {
      match row.packet
      case Ack(from) => AckFills(s.table, senders, sid, from);
      case Response(from, a) => AnswerKeeps(s.table, senders, sid, from, a);
      case _ =>
    }
  }

  /** The loop over the rows comes, in row `i`, to a packet that it writes outside the table. */
  ghost predicate RowLeavesAt(sid: Sid, me: CString, rpcName: CString, s: Listen, senders: seq<Sid>, rows: seq<Row>,
      i: nat)
    requires s.Listening? && i < |rows|
  {
    && OnRows(sid, me, rpcName, s, rows, i).Listening?
    && RowLeaves(sid, me, rpcName, senders + RowSenders(rows, me, rpcName, i), rows[i])
  }

  /** The loop over the rows is ended by row `i`. */
  ghost predicate RowStopsAt(sid: Sid, me: CString, rpcName: CString, s: Listen, senders: seq<Sid>, rows: seq<Row>,
      i: nat)
    requires s.Listening? && i < |rows|
  {
    && OnRows(sid, me, rpcName, s, rows, i).Listening?
    && RowStops(sid, me, rpcName, senders + RowSenders(rows, me, rpcName, i), rows[i])
  }

  ghost predicate RowEndsAt(sid: Sid, me: CString, rpcName: CString, s: Listen, senders: seq<Sid>, rows: seq<Row>,
      i: nat, after: Listen)
    requires s.Listening? && i < |rows|
  {
    && RowStopsAt(sid, me, rpcName, s, senders, rows, i)
    && RowEnds(sid, after, senders + RowSenders(rows, me, rpcName, i), rows[i])
  }

  lemma {:induction false} RowsAre(sid: Sid, me: CString, rpcName: CString, s: Listen, rows: seq<Row>, n: nat,
      senders: seq<Sid>, token: bool)
    requires Listens(sid, s, senders, token) && n <= |rows| && OrdinaryRows(sid, rows)
    ensures var after := OnRows(sid, me, rpcName, s, rows, n);
      && (after.Crashed? <==> exists i | 0 <= i < n :: RowLeavesAt(sid, me, rpcName, s, senders, rows, i))
      && (after.Ended? <==> exists i | 0 <= i < n :: RowStopsAt(sid, me, rpcName, s, senders, rows, i))
      && (after.Ended? ==> exists i | 0 <= i < n :: RowEndsAt(sid, me, rpcName, s, senders, rows, i, after))
      && (after.Listening? ==>
            Listens(sid, after, senders + RowSenders(rows, me, rpcName, n), RowToken(token, rows, n)))
      && (after.Ended? ==> Honest(sid, after))
    decreases n
  {
    hide OnRow, Honest, Kept, RowLeaves, RowStops, RowEnds;
    if n == 0 {
      assert senders + [] == senders;
    } else {
      RowsAre(sid, me, rpcName, s, rows, n - 1, senders, token);
      var before := OnRows(sid, me, rpcName, s, rows, n - 1);
      if before.Listening? {
        var sofar := RowSenders(rows, me, rpcName, n - 1);
        RowIs(sid, me, rpcName, before, rows[n - 1], senders + sofar, RowToken(token, rows, n - 1));
        assert RowSenders([rows[n - 1]], me, rpcName, 0) == [];
        assert senders + RowSenders(rows, me, rpcName, n)
          == senders + sofar + RowSenders([rows[n - 1]], me, rpcName, 1);
        var after := OnRows(sid, me, rpcName, s, rows, n);
        assert after.Crashed? <==> RowLeavesAt(sid, me, rpcName, s, senders, rows, n - 1);
        assert after.Ended? <==> RowStopsAt(sid, me, rpcName, s, senders, rows, n - 1);
        assert after.Ended? ==> RowEndsAt(sid, me, rpcName, s, senders, rows, n - 1, after);
      }
    }
  }

  /** A list that is fetched in time makes the call leave its memory: it is empty while there is no token, or a packet
      read from it is written outside the table. */
  ghost predicate PollLeaves(sid: Sid, me: CString, rpcName: CString, s: Listen, senders: seq<Sid>, poll: Poll)
    requires s.Listening?
  {
    && poll.elapsed <= (if senders == [] then 20 else 120) && poll.fetchOk
    && ((!s.token && poll.rows == [])
        || exists i | 0 <= i < Count(s.token, poll.rows) :: RowLeavesAt(sid, me, rpcName, s, senders, poll.rows, i))
  }

  /** A round ends the call: it comes too late, fetches no list, or a row of its list ends the call. */
  ghost predicate PollStops(sid: Sid, me: CString, rpcName: CString, s: Listen, senders: seq<Sid>, poll: Poll)
    requires s.Listening?
  {
    || poll.elapsed > (if senders == [] then 20 else 120) || !poll.fetchOk
    || exists i | 0 <= i < Count(s.token, poll.rows) :: RowStopsAt(sid, me, rpcName, s, senders, poll.rows, i)
  }

  /** How it ends the call. */
  ghost predicate PollEnds(sid: Sid, me: CString, rpcName: CString, s: Listen, senders: seq<Sid>, poll: Poll,
      after: Listen)
    requires s.Listening?
  {
    if poll.elapsed > (if senders == [] then 20 else 120) then
      && after.Ended? && Kept(sid, after.table, senders)
      && after.code == if IsBroadcast(sid) && senders != [] then 2 else -1
    else if !poll.fetchOk then after.Ended? && Kept(sid, after.table, senders) && after.code == -1
    else
      exists i | 0 <= i < Count(s.token, poll.rows) :: RowEndsAt(sid, me, rpcName, s, senders, poll.rows, i, after)
  }

  lemma PollIs(sid: Sid, me: CString, rpcName: CString, s: Listen, poll: Poll, senders: seq<Sid>, token: bool)
    requires Listens(sid, s, senders, token) && OrdinaryRows(sid, poll.rows)
    ensures var after, n := OnPoll(sid, me, rpcName, s, poll), Count(token, poll.rows);
      && (after.Crashed? <==> PollLeaves(sid, me, rpcName, s, senders, poll))
      && (after.Ended? <==> PollStops(sid, me, rpcName, s, senders, poll))
      && (after.Ended? ==> PollEnds(sid, me, rpcName, s, senders, poll, after))
      && (after.Listening? ==> poll.elapsed <= 120)
      && (after.Listening? ==>
            Listens(sid, after, senders + RowSenders(poll.rows, me, rpcName, n), RowToken(token, poll.rows, n)))
      && (after.Ended? ==> Honest(sid, after))
  {
    hide OnRows, RowLeavesAt, RowStopsAt, RowEndsAt;
    if IsBroadcast(sid) { HeldIndex(s.table, senders); }
    if poll.elapsed <= s.wait && poll.fetchOk && (token || poll.rows != []) {
      RowsAre(sid, me, rpcName, s, poll.rows, Count(token, poll.rows), senders, token);
    }
  }

  /** The listening loop leaves its memory in poll `k`. */
  ghost predicate CrashesAt(sid: Sid, me: CString, rpcName: CString, polls: seq<Poll>, k: nat)
    requires k < |polls|
  {
    var s := Listened(sid, me, rpcName, Begin(), polls, k);
    s.Listening? && PollLeaves(sid, me, rpcName, s, PollSenders(polls, me, rpcName, k), polls[k])
  }

  /** The listening loop is ended by poll `k`. */
  ghost predicate StopsAt(sid: Sid, me: CString, rpcName: CString, polls: seq<Poll>, k: nat)
    requires k < |polls|
  {
    var s := Listened(sid, me, rpcName, Begin(), polls, k);
    s.Listening? && PollStops(sid, me, rpcName, s, PollSenders(polls, me, rpcName, k), polls[k])
  }

  ghost predicate EndsAt(sid: Sid, me: CString, rpcName: CString, polls: seq<Poll>, k: nat, after: Listen)
    requires k < |polls|
  {
    var s := Listened(sid, me, rpcName, Begin(), polls, k);
    s.Listening? && PollEnds(sid, me, rpcName, s, PollSenders(polls, me, rpcName, k), polls[k], after)
  }

  /** Every run, read off its rows. While it listens, an "all" call has one slot for every ACK read, in their order,
      any other call an empty table, and the token is that of the last row looked at. It leaves its memory exactly
      when it fetches, in time, an empty list without a token, or reads a sixth ACK of an "all" call or an answer that
      does not fit the slot it is for. It ends exactly with a round that comes too late, fetches nothing or comes to a
      file that cannot be decrypted or an answer that finishes, with the table and the code that belong to it. */
  lemma {:induction false} HonestRun(sid: Sid, me: CString, rpcName: CString, polls: seq<Poll>, n: nat)
    requires n <= |polls| && OrdinaryPolls(sid, polls)
    ensures var s := Listened(sid, me, rpcName, Begin(), polls, n);
      && (s.Crashed? <==> exists k | 0 <= k < n :: CrashesAt(sid, me, rpcName, polls, k))
      && (s.Ended? <==> exists k | 0 <= k < n :: StopsAt(sid, me, rpcName, polls, k))
      && (s.Ended? ==> exists k | 0 <= k < n :: EndsAt(sid, me, rpcName, polls, k, s))
      && (s.Listening? ==> Listens(sid, s, PollSenders(polls, me, rpcName, n), Token(polls, n)))
      && (s.Ended? ==> Honest(sid, s))
    decreases n
  {
    hide OnPoll, Honest, PollLeaves, PollStops, PollEnds, Kept, Zeros;
    if n == 0 {
      BeginListens(sid);
    } else {
      HonestRun(sid, me, rpcName, polls, n - 1);
      var before := Listened(sid, me, rpcName, Begin(), polls, n - 1);
      if before.Listening? {
        PollIs(sid, me, rpcName, before, polls[n - 1], PollSenders(polls, me, rpcName, n - 1), Token(polls, n - 1));
        var after := Listened(sid, me, rpcName, Begin(), polls, n);
        assert after.Crashed? <==> CrashesAt(sid, me, rpcName, polls, n - 1);
        assert after.Ended? <==> StopsAt(sid, me, rpcName, polls, n - 1);
        assert after.Ended? ==> EndsAt(sid, me, rpcName, polls, n - 1, after);
      }
    }
  }

  lemma BeginListens(sid: Sid)
    ensures Listens(sid, Begin(), [], false)
  {
    hide Zeros;
  }

  /** A list that is fetched too late ends the call, so it lasts at most 120 seconds and one round. */
  lemma LatePollEnds(sid: Sid, me: CString, rpcName: CString, polls: seq<Poll>, n: nat)
    requires OrdinaryPolls(sid, polls) && n < |polls| && polls[n].elapsed > 120
    ensures !Listened(sid, me, rpcName, Begin(), polls, n + 1).Listening?
  {
    hide OnPoll;
    HonestRun(sid, me, rpcName, polls, n);
    var s := Listened(sid, me, rpcName, Begin(), polls, n);
    if s.Listening? {
      PollIs(sid, me, rpcName, s, polls[n], PollSenders(polls, me, rpcName, n), Token(polls, n));
    }
  }

  // ---- inside its memory ----

  lemma {:induction false} RowSendersGrow(rows: seq<Row>, me: CString, rpcName: CString, n: nat, m: nat)
    requires n <= m <= |rows|
    ensures RowSenders(rows, me, rpcName, n) <= RowSenders(rows, me, rpcName, m)
    decreases m - n
  {
    if n < m { RowSendersGrow(rows, me, rpcName, n, m - 1); }
  }

  lemma {:induction false} PollSendersGrow(polls: seq<Poll>, me: CString, rpcName: CString, n: nat, m: nat)
    requires n <= m <= |polls|
    ensures PollSenders(polls, me, rpcName, n) <= PollSenders(polls, me, rpcName, m)
    decreases m - n
  {
    if n < m { PollSendersGrow(polls, me, rpcName, n, m - 1); }
  }

  /** The answers read fit a slot. */
  ghost predicate PollAnswersFit(polls: seq<Poll>, me: CString, rpcName: CString) {
    forall k, i | 0 <= k < |polls| && 0 <= i < |polls[k].rows| ::
      var row := polls[k].rows[i]; ReadsRow(row, me, rpcName) && row.packet.Response? ==> Fits(row.packet.answer)
  }

  /** No list is empty while there is no token. */
  ghost predicate TokenBeforeQuiet(polls: seq<Poll>) {
    forall k | 0 <= k < |polls| :: polls[k].fetchOk && polls[k].rows == [] ==> Token(polls, k)
  }

  lemma RowInside(sid: Sid, me: CString, rpcName: CString, s: Listen, senders: seq<Sid>, rows: seq<Row>, i: nat, n: nat)
    requires s.Listening? && i < n <= |rows|
    requires IsBroadcast(sid) ==> |senders + RowSenders(rows, me, rpcName, n)| <= SLOTS
    requires ReadsRow(rows[i], me, rpcName) && rows[i].packet.Response? ==> Fits(rows[i].packet.answer)
    ensures !RowLeavesAt(sid, me, rpcName, s, senders, rows, i)
  {
    hide OnRows, ReadsRow;
    RowSendersGrow(rows, me, rpcName, i + 1, n);
  }

  lemma TokenIs(sid: Sid, me: CString, rpcName: CString, polls: seq<Poll>, k: nat)
    requires OrdinaryPolls(sid, polls) && k <= |polls| && Listened(sid, me, rpcName, Begin(), polls, k).Listening?
    ensures Listened(sid, me, rpcName, Begin(), polls, k).token == Token(polls, k)
  {
    hide Listened, Token, PollSenders;
    HonestRun(sid, me, rpcName, polls, k);
  }

  /** With at most five ACKs read, answers that fit and no empty list before the first token, the call stays inside. */
  lemma FiveReadAcksAreSafe(sid: Sid, me: CString, rpcName: CString, polls: seq<Poll>, n: nat)
    requires OrdinaryPolls(sid, polls) && n <= |polls| && PollAnswersFit(polls, me, rpcName) && TokenBeforeQuiet(polls)
    requires IsBroadcast(sid) ==> |PollSenders(polls, me, rpcName, n)| <= SLOTS
    ensures !Listened(sid, me, rpcName, Begin(), polls, n).Crashed?
  {
    hide Listened, RowLeavesAt, Listens, Honest, RowSenders, ReadsRow, Zeros;
    HonestRun(sid, me, rpcName, polls, n);
    if k :| 0 <= k < n && CrashesAt(sid, me, rpcName, polls, k) {
      var s, senders := Listened(sid, me, rpcName, Begin(), polls, k), PollSenders(polls, me, rpcName, k);
      TokenIs(sid, me, rpcName, polls, k);
      PollSendersGrow(polls, me, rpcName, k + 1, n);
      var i :| 0 <= i < Count(s.token, polls[k].rows)
        && RowLeavesAt(sid, me, rpcName, s, senders, polls[k].rows, i);
      assert ReadsRow(polls[k].rows[i], me, rpcName) && polls[k].rows[i].packet.Response?
        ==> Fits(polls[k].rows[i].packet.answer);
      RowInside(sid, me, rpcName, s, senders, polls[k].rows, i, Count(s.token, polls[k].rows));
    }
  }

  /** At its first poll every call trips over a bundle list without rows. */
  lemma FirstListEmpty(sid: Sid, me: CString, rpcName: CString)
    ensures Listened(sid, me, rpcName, Begin(), [Poll(0, true, [])], 1).Crashed?
  {
    assert Listened(sid, me, rpcName, Begin(), [Poll(0, true, [])], 0) == Begin();
  }

  /** An answer file of 962 bytes is copied past the end of slot 0. */
  lemma LargeAnswerLeavesItsSlot(sid: Sid, me: CString, rpcName: CString, from: Sid)
    requires !IsBroadcast(sid)
    ensures var row := Row(true, RPC_SERVICE, Some(me), rpcName, 0, true, Response(from, Inline(Zeros(961))));
      Listened(sid, me, rpcName, Begin(), [Poll(0, true, [row])], 1).Crashed?
  {
    var row := Row(true, RPC_SERVICE, Some(me), rpcName, 0, true, Response(from, Inline(Zeros(961))));
    var polls := [Poll(0, true, [row])];
    assert Listened(sid, me, rpcName, Begin(), polls, 0) == Begin();
    assert OnRows(sid, me, rpcName, Begin(), [row], 0) == Begin();
  }

  // ---- a call that is not an "all" call ----

  /** The row's answer stands alone in slot 0. */
  ghost predicate AnsweredIn(s: Listen, row: Row, me: CString, rpcName: CString) {
    && ReadsRow(row, me, rpcName) && row.packet.Response? && Fits(row.packet.answer)
    && s == Ended(CLEARED[0 := Slot(row.packet.from, Overwritten(NO_CONTENT, row.packet.answer))], 2)
  }

  /** No answer is read in the first `n` rows. */
  ghost predicate NoAnswer(rows: seq<Row>, me: CString, rpcName: CString, n: nat)
    requires n <= |rows|
  {
    forall i | 0 <= i < n && ReadsRow(rows[i], me, rpcName) :: !rows[i].packet.Response?
  }

  /** No answer is read in the first `n` lists. */
  ghost predicate NoAnswerBefore(polls: seq<Poll>, me: CString, rpcName: CString, n: nat)
    requires n <= |polls|
  {
    forall k | 0 <= k < n :: NoAnswer(polls[k].rows, me, rpcName, Count(Token(polls, k), polls[k].rows))
  }

  /** Row `i` brings the first answer read in these rows, and the call ends with it. */
  ghost predicate FirstAnswerIn(s: Listen, rows: seq<Row>, me: CString, rpcName: CString, i: nat) {
    i < |rows| && NoAnswer(rows, me, rpcName, i) && AnsweredIn(s, rows[i], me, rpcName)
  }

  lemma {:induction false} RowsAnswer(sid: Sid, me: CString, rpcName: CString, s: Listen, rows: seq<Row>, n: nat)
    requires !IsBroadcast(sid) && s.Listening? && s.table == CLEARED && n <= |rows|
    ensures var after := OnRows(sid, me, rpcName, s, rows, n);
      && (after.Listening? ==> after.table == CLEARED && after.token == RowToken(s.token, rows, n))
      && (after.Listening? ==> NoAnswer(rows, me, rpcName, n))
      && (after.Ended? && after.code == 2 ==> exists i | 0 <= i < n :: FirstAnswerIn(after, rows, me, rpcName, i))
    decreases n
  {
    hide Zeros;
    if n > 0 {
      RowsAnswer(sid, me, rpcName, s, rows, n - 1);
      if OnRows(sid, me, rpcName, s, rows, n - 1).Listening? {
        var after := OnRows(sid, me, rpcName, s, rows, n);
        assert after.Ended? && after.code == 2 ==> FirstAnswerIn(after, rows, me, rpcName, n - 1);
      }
    }
  }

  /** A call that is not an "all" call keeps listening, with an empty table, only while it reads no answer. It returns 2
      only with the first answer that it reads, alone in slot 0. */
  lemma {:induction false} OneAnswer(sid: Sid, me: CString, rpcName: CString, polls: seq<Poll>, n: nat)
    requires !IsBroadcast(sid) && n <= |polls|
    ensures var s := Listened(sid, me, rpcName, Begin(), polls, n);
      && (s.Listening? ==> s.table == CLEARED && s.token == Token(polls, n))
      && (s.Listening? ==> NoAnswerBefore(polls, me, rpcName, n))
      && (s.Ended? && s.code == 2 ==> exists k, i: nat | 0 <= k < n && i < Count(Token(polls, k), polls[k].rows) ::
            NoAnswerBefore(polls, me, rpcName, k) && FirstAnswerIn(s, polls[k].rows, me, rpcName, i))
    decreases n
  {
    hide OnRows, FirstAnswerIn, NoAnswer, Zeros;
    if n > 0 {
      OneAnswer(sid, me, rpcName, polls, n - 1);
      var before, poll := Listened(sid, me, rpcName, Begin(), polls, n - 1), polls[n - 1];
      if before.Listening? && (before.token || poll.rows != []) {
        RowsAnswer(sid, me, rpcName, before, poll.rows, Count(before.token, poll.rows));
      }
    }
  }

  // ---- the loops ----

  lemma {:induction false} RowsStay(sid: Sid, me: CString, rpcName: CString, s: Listen, rows: seq<Row>, n: nat, m: nat)
    requires s.Listening? && n <= m <= |rows|
    ensures var after := OnRows(sid, me, rpcName, s, rows, n);
      !after.Listening? ==> OnRows(sid, me, rpcName, s, rows, m) == after
    decreases m - n
  {
    if n < m { RowsStay(sid, me, rpcName, s, rows, n, m - 1); }
  }

  lemma {:induction false} ListenStays(sid: Sid, me: CString, rpcName: CString, s: Listen, polls: seq<Poll>,
          n: nat, m: nat)
    requires n <= m <= |polls|
    ensures var after := Listened(sid, me, rpcName, s, polls, n);
      !after.Listening? ==> Listened(sid, me, rpcName, s, polls, m) == after
    decreases m - n
  {
    if n < m { ListenStays(sid, me, rpcName, s, polls, n, m - 1); }
  }

  /** The loop over the rows of one bundle list. */
  method ReadRows(t: array<Slot>, sid: Sid, me: CString, rpcName: CString, waiting: int, hadToken: bool,
                  rows: seq<Row>, numFiles: nat)
    returns (ended: bool, code: int, wait: int, token: bool)
    requires t.Length == SLOTS && numFiles <= |rows|
    requires !OnRows(sid, me, rpcName, Listening(t[..], waiting, hadToken), rows, numFiles).Crashed?
    modifies t
    ensures OnRows(sid, me, rpcName, Listening(old(t[..]), waiting, hadToken), rows, numFiles)
      == if ended then Ended(t[..], code) else Listening(t[..], wait, token)
  {
    hide OnAck, OnResponse;
    ghost var s := Listening(t[..], waiting, hadToken);
    ended, code, wait, token := false, -1, waiting, hadToken;
    var i := 0;
    while i < numFiles
      invariant 0 <= i <= numFiles && !ended
      invariant OnRows(sid, me, rpcName, s, rows, i) == Listening(t[..], wait, token)
    {
      var row := rows[i];
      i := i + 1;
      RowsStay(sid, me, rpcName, s, rows, i, numFiles);
      token := row.hasToken;
      if Relevant(row, me, rpcName) {
        if !row.decrypts { return true, -1, wait, token; }
        match row.packet {
          case Ack(from) =>
            HandleAck(t, sid, from);
            wait := if wait == 20 then 120 else wait;
          case Response(from, a) =>
            var last := HandleResponse(t, sid, from, a);
            if last { return true, 2, wait, token; }
          case Nothing =>
          case Other =>
        }
      }
    }
  }

  /** `_rpc_client_rhizome_listen`, on every run that ends within its memory. */
  method ListenForResult(t: array<Slot>, sid: Sid, me: CString, rpcName: CString, polls: seq<Poll>) returns (code: int)
    requires t.Length == SLOTS && t[..] == CLEARED
    requires Listened(sid, me, rpcName, Begin(), polls, |polls|).Ended?
    modifies t
    ensures Listened(sid, me, rpcName, Begin(), polls, |polls|) == Ended(t[..], code)
  {
    hide OnRows;
    code := -1;
    var wait, token, received, i := 20, false, false, 0;
    while !received
      invariant 0 <= i <= |polls|
      invariant Listened(sid, me, rpcName, Begin(), polls, i)
        == if received then Ended(t[..], code) else Listening(t[..], wait, token)
      decreases |polls| - i, if received then 0 else 1
    {
      var poll := polls[i];
      i := i + 1;
      ListenStays(sid, me, rpcName, Begin(), polls, i, |polls|);
      if poll.elapsed > wait {
        var answers := GetInsertIndex(t);
        code := if IsBroadcast(sid) && answers > 0 then 2 else -1;
        received := true;
      } else if !poll.fetchOk {
        code, received := -1, true;
      } else {
        var numFiles := if token then |poll.rows| else 1;
        received, code, wait, token := ReadRows(t, sid, me, rpcName, wait, token, poll.rows, numFiles);
      }
    }
    ListenStays(sid, me, rpcName, Begin(), polls, i, |polls|);
  }
}
