/** The Rhizome server: the done list, and the loop over the bundles of one poll. */
module RhizomeServer {
  import opened CText
  import opened CallPacket
  import opened RhizomeClient
  import opened Wrappers

  const MDP_MTU: nat := 1160

  /** What becomes of a parsed call: the procedure is not offered, its binary is missing, or the binary is run. */
  datatype Handling = NotOffered | NoBinary | Runs(success: bool)

  /** One row of the bundle list: whether its file decrypts, the file, whether the row names a sender, and what would
      become of the call. The size in the row is the size of the file. */
  datatype Bundle = Bundle(service: CString, id: CString, recipient: Option<CString>, decrypts: bool, file: bytes,
                           hasSender: bool, handling: Handling)

  /** One poll: whether the list is fetched, and its rows. */
  datatype BundleList = BundleList(fetchOk: bool, rows: seq<Bundle>)

  /** The bundle fits a packet, is an RPC file, and is for this server or for any. */
  predicate ForMe(b: Bundle, me: CString) {
    RPC_SERVICE <= b.service && (b.recipient.None? || b.recipient == Some(me)) && 0 < |b.file| <= MDP_MTU
  }

  /** The server's memory, with the ids executed successfully and the ids for which sending a result was attempted. */
  datatype Served = Served(done: seq<bytes>, executed: seq<bytes>, results: seq<bytes>)

  /** Whether the loop over the bundles goes on, was left early, or was led out of its memory by a packet. */
  datatype Halt = Running | Left | Faulted

  /** The server after some rows, the return code so far, and whether the loop goes on. */
  datatype Progress = Progress(served: Served, code: int, halt: Halt)

  function OnBundle(p: Progress, b: Bundle, me: CString): Progress {
    if !ForMe(b, me) || b.id in p.served.done then p
    else if !b.decrypts then Progress(p.served, -1, Left)
    else if b.file[0] != RPC_PKT_CALL then p
    else
      match ParseCall(b.file)
      case None => Progress(p.served, p.code, Faulted)
      case Some(call) => if b.hasSender then OnCall(p, b.id, call, b.handling) else Progress(p.served, -1, Left)
  }

  /** A parsed call. Running its binary reads the first parameter, and as many as the packet counts. */
  function OnCall(p: Progress, id: bytes, call: Call, handling: Handling): Progress {
    match handling
    case NotOffered => Progress(p.served, -1, Running)
    case NoBinary => p
    case Runs(success) =>
      if !Complete(call) then Progress(p.served, p.code, Faulted)
      else if !success then p
      else Progress(Served(p.served.done + [id], p.served.executed + [id], p.served.results + [id]), p.code, Running)
  }

  /** The loop over the first `n` rows. */
  function OnBundles(p: Progress, rows: seq<Bundle>, me: CString, n: nat): Progress
    requires n <= |rows|
  {
    if n == 0 then p
    else
      var before := OnBundles(p, rows, me, n - 1);
      if before.halt != Running then before else OnBundle(before, rows[n - 1], me)
  }

  /** `_rpc_server_rhizome_process`. */
  function Process(s: Served, list: BundleList, me: CString): Progress {
    if !list.fetchOk then Progress(s, -1, Left)
    else if list.rows == [] then Progress(s, 1, Left)
    else OnBundles(Progress(s, 0, Running), list.rows, me, |list.rows|)
  }

  /** The server after the first `n` polls; a fault is the last thing it does. */
  function Serve(lists: seq<BundleList>, me: CString, n: nat): Progress
    requires n <= |lists|
  {
    if n == 0 then Progress(Served([], [], []), 0, Running)
    else
      var before := Serve(lists, me, n - 1);
      if before.halt == Faulted then before else Process(before.served, lists[n - 1], me)
  }

  // ---- at most once ----

  ghost predicate NoRepeats(s: seq<bytes>) {
    forall i, j | 0 <= i < j < |s| :: s[i] != s[j]
  }

  /** The done list names the executed calls in order, each once, with one attempt to send a result for each. */
  ghost predicate AtMostOnce(s: Served) {
    NoRepeats(s.executed) && s.done == s.executed && s.results == s.executed
  }

  /** The bundle brings a whole call of a procedure that runs with success. */
  predicate Executes(b: Bundle) {
    && b.decrypts && b.file != [] && b.file[0] == RPC_PKT_CALL && b.hasSender && b.handling == Runs(true)
    && ParseCall(b.file).Some? && Complete(ParseCall(b.file).value)
  }

  /** The service begins with `RPC`, the bundle is addressed to this server or to none, and its file has between 1 and
      1160 bytes. */
  predicate IsForServer(b: Bundle, me: CString) {
    Begins([82, 80, 67], b.service) && (b.recipient.Some? ==> b.recipient.value == me) && 1 <= |b.file| <= 1160
  }

  lemma ForMeIff(b: Bundle, me: CString)
    ensures ForMe(b, me) <==> IsForServer(b, me)
  {
    var prefix: bytes := [82, 80, 67];
    assert Begins(prefix, b.service) <==> prefix <= b.service;
  }

  /** Any other bundle changes nothing. */
  lemma OthersIgnored(p: Progress, b: Bundle, me: CString)
    requires !IsForServer(b, me)
    ensures OnBundle(p, b, me) == p
  {
    ForMeIff(b, me);
  }

  /** One of the first `n` bundles was executed under this id. */
  ghost predicate WasExecuted(rows: seq<Bundle>, me: CString, n: nat, id: bytes) {
    exists i :: 0 <= i < n && i < |rows| && rows[i].id == id && IsForServer(rows[i], me) && Executes(rows[i])
  }

  lemma {:induction false} BundlesOnce(p: Progress, rows: seq<Bundle>, me: CString, n: nat)
    requires AtMostOnce(p.served) && n <= |rows|
    ensures var after := OnBundles(p, rows, me, n).served.done;
      && AtMostOnce(OnBundles(p, rows, me, n).served) && p.served.done <= after
      && forall k | |p.served.done| <= k < |after| :: WasExecuted(rows, me, n, after[k])
    decreases n
  {
    if n > 0 {
      BundlesOnce(p, rows, me, n - 1);
      var before, after := OnBundles(p, rows, me, n - 1).served.done, OnBundles(p, rows, me, n).served.done;
      forall k | |p.served.done| <= k < |after| ensures WasExecuted(rows, me, n, after[k]) {
        if k < |before| {
          assert WasExecuted(rows, me, n - 1, before[k]);
        } else {
          assert rows[n - 1].id == after[k];
        }
      }
    }
  }

  /** Over any sequence of polls, with any repetitions and outcomes, every id is executed successfully at most once,
      and the done list is exactly the list of these executions. */
  lemma {:induction false} ServeOnce(lists: seq<BundleList>, me: CString, n: nat)
    requires n <= |lists|
    ensures AtMostOnce(Serve(lists, me, n).served)
    decreases n
  {
    if n > 0 {
      ServeOnce(lists, me, n - 1);
      var p := Progress(Serve(lists, me, n - 1).served, 0, Running);
      BundlesOnce(p, lists[n - 1].rows, me, |lists[n - 1].rows|);
    }
  }

  /** The done list only grows. */
  lemma {:induction false} ServeGrows(lists: seq<BundleList>, me: CString, n: nat, m: nat)
    requires n <= m <= |lists|
    ensures Serve(lists, me, n).served.done <= Serve(lists, me, m).served.done
    decreases m - n
  {
    if n < m {
      ServeGrows(lists, me, n, m - 1);
      ServeOnce(lists, me, m - 1);
      var p := Progress(Serve(lists, me, m - 1).served, 0, Running);
      BundlesOnce(p, lists[m - 1].rows, me, |lists[m - 1].rows|);
    }
  }

  /** A bundle that can be executed is executed, unless a bundle in front of it stops the loop. */
  lemma {:induction false} ExecutedUnlessLeft(p: Progress, rows: seq<Bundle>, me: CString, n: nat, i: nat)
    requires i < n <= |rows| && p.halt == Running && AtMostOnce(p.served)
    requires IsForServer(rows[i], me) && Executes(rows[i])
    ensures OnBundles(p, rows, me, n).halt != Running || rows[i].id in OnBundles(p, rows, me, n).served.done
    decreases n
  {
    var before := OnBundles(p, rows, me, n - 1);
    if i < n - 1 { ExecutedUnlessLeft(p, rows, me, n - 1, i); }
  }

  /** The loop reaches the bundle at `i`, which is new and interesting. */
  predicate Handles(p: Progress, rows: seq<Bundle>, me: CString, i: nat)
    requires i < |rows|
  {
    var before := OnBundles(p, rows, me, i);
    before.halt == Running && IsForServer(rows[i], me) && rows[i].id !in before.served.done
  }

  /** A call packet that the parser takes apart within its memory. */
  ghost predicate BringsCall(b: Bundle) {
    b.decrypts && b.file != [] && b.file[0] == RPC_PKT_CALL && !Malformed(b.file)
  }

  /** The file cannot be decrypted, or is a call without a sender. */
  ghost predicate Leaves(b: Bundle) {
    !b.decrypts || (BringsCall(b) && !b.hasSender)
  }

  /** The file is a call packet that is malformed, or one whose binary runs without a parameter that it reads. */
  ghost predicate Faults(b: Bundle) {
    && b.decrypts && b.file != [] && b.file[0] == RPC_PKT_CALL
    && (Malformed(b.file) || (b.hasSender && b.handling.Runs? && LacksParameters(b.file)))
  }

  lemma OnBundleIs(p: Progress, b: Bundle, me: CString)
    requires p.halt == Running && IsForServer(b, me) && b.id !in p.served.done
    ensures OnBundle(p, b, me).halt == Left <==> Leaves(b)
    ensures OnBundle(p, b, me).halt == Faulted <==> Faults(b)
  {
    hide ParseCall, Malformed, LacksParameters, Complete;
    ParseFaultsIff(b.file);
    assert Malformed(b.file) || |b.file| >= HEADER by { HeaderThere(b.file); }
    if ParseCall(b.file).Some? { CompleteIff(b.file); }
  }

  lemma HeaderThere(p: bytes)
    ensures Malformed(p) || |p| >= HEADER
  {
  }

  /** The loop leaves early exactly at a new, interesting file that cannot be decrypted or is a call without a sender.
      A packet leads it out of its memory exactly when it is a call packet that is malformed, or one whose binary runs
      without a parameter that it reads. */
  lemma {:induction false} LeftIff(p: Progress, rows: seq<Bundle>, me: CString, n: nat)
    requires n <= |rows| && p.halt == Running
    ensures OnBundles(p, rows, me, n).halt == Left
      <==> exists i :: 0 <= i < n && Handles(p, rows, me, i) && Leaves(rows[i])
    ensures OnBundles(p, rows, me, n).halt == Faulted
      <==> exists i :: 0 <= i < n && Handles(p, rows, me, i) && Faults(rows[i])
    decreases n
  {
    hide ForMe, OnBundle, Leaves, Faults, IsForServer, Executes, ParseCall;
    if n > 0 {
      LeftIff(p, rows, me, n - 1);
      var before := OnBundles(p, rows, me, n - 1);
      if before.halt == Running {
        if Handles(p, rows, me, n - 1) {
          OnBundleIs(before, rows[n - 1], me);
        } else {
          Ignored(before, rows[n - 1], me);
        }
      }
    }
  }

  lemma Ignored(p: Progress, b: Bundle, me: CString)
    requires !IsForServer(b, me) || b.id in p.served.done
    ensures OnBundle(p, b, me) == p
  {
  }

  /** A call packet with nothing behind its header leads the server out of its memory. */
  lemma EmptyCallFaults(me: CString)
    ensures var b := Bundle(RPC_SERVICE, [65], None, true, [0, 0, 0, 0, 0, 0, 0], true, NotOffered);
      Serve([BundleList(true, [b])], me, 1).halt == Faulted
  {
    var b := Bundle(RPC_SERVICE, [65], None, true, [0, 0, 0, 0, 0, 0, 0], true, NotOffered);
    var rows := [b];
    var p := Progress(Served([], [], []), 0, Running);
    assert OnBundles(p, rows, me, 0) == p;
    assert Text(b.file) == [];
    OnBundleIs(p, b, me);
    assert Serve([BundleList(true, rows)], me, 0) == p;
  }

  /** What a client sends and what the server does with it: a new call of a procedure that runs with success, with no
      delimiter in its name or parameters, is executed and noted if and only if it has a parameter and none is empty;
      otherwise it leads the server out of its memory. */
  lemma ClientCallServed(p: Progress, b: Bundle, me: CString, name: bytes, params: seq<bytes>, requirements: nat)
    requires p.halt == Running && IsForServer(b, me) && b.id !in p.served.done
    requires b.decrypts && b.hasSender && b.handling == Runs(true)
    requires NulFree(name) && AllNulFree(params) && requirements < WORD_RANGE && |params| <= 255
    requires IsToken(name) && forall k | 0 <= k < |params| :: PipeFree(params[k])
    requires b.file == Packet(|params|, name, Flat(params), requirements)
    ensures if params != [] && (forall k | 0 <= k < |params| :: params[k] != []) then
        OnBundle(p, b, me).served.done == p.served.done + [b.id]
      else OnBundle(p, b, me) == Progress(p.served, p.code, Faulted)
  {
    hide ParseCall, Complete, Flat, NonEmpty, Packet, ForMe, IsForServer;
    ForMeIff(b, me);
    FlatNulFree(params);
    PacketParts(|params|, name, Flat(params), requirements);
    ClientCallCompleteIff(name, params, requirements);
  }

  lemma {:induction false} BundlesCode(p: Progress, rows: seq<Bundle>, me: CString, n: nat)
    requires n <= |rows| && p.halt == Running && p.code == 0
    ensures var after := OnBundles(p, rows, me, n);
      after.code == if exists i :: 0 <= i < n && Handles(p, rows, me, i) && Spoils(rows[i]) then -1 else 0
    decreases n
  {
    hide ForMe, ParseCall, Malformed, LacksParameters, IsForServer;
    if n > 0 {
      BundlesCode(p, rows, me, n - 1);
      var before := OnBundles(p, rows, me, n - 1);
      if before.halt == Running {
        CodeStep(before, rows[n - 1], me);
        assert OnBundles(p, rows, me, n).code
          == if Handles(p, rows, me, n - 1) && Spoils(rows[n - 1]) then -1 else before.code;
      }
    }
  }

  /** The bundle makes the loop leave, or brings a call of a procedure that is not offered. */
  ghost predicate Spoils(b: Bundle) {
    Leaves(b) || (BringsCall(b) && b.handling == NotOffered)
  }

  lemma CodeStep(p: Progress, b: Bundle, me: CString)
    requires p.halt == Running
    ensures OnBundle(p, b, me).code
      == if IsForServer(b, me) && b.id !in p.served.done && Spoils(b) then -1 else p.code
  {
    hide ParseCall, Malformed, ForMe, Complete;
    ForMeIff(b, me);
    ParseFaultsIff(b.file);
  }

  /** The loop reaches a bundle that spoils the poll. */
  ghost predicate SpoiltBy(s: Served, rows: seq<Bundle>, me: CString) {
    exists i :: 0 <= i < |rows| && Handles(Progress(s, 0, Running), rows, me, i) && Spoils(rows[i])
  }

  /** The return code of a poll: -1 when the list is not fetched, 1 when it is empty, and otherwise -1 or 0, where -1
      means that some bundle makes the loop leave or brings a call not offered. */
  lemma ProcessCode(s: Served, list: BundleList, me: CString)
    ensures Process(s, list, me).code
      == if !list.fetchOk then -1 else if list.rows == [] then 1 else if SpoiltBy(s, list.rows, me) then -1 else 0
  {
    BundlesCode(Progress(s, 0, Running), list.rows, me, |list.rows|);
  }

  // ---- the server ----

  class Server {
    /** `done_calls`, with its size as the length. */
    var done: seq<bytes>
    var results: seq<bytes>
    ghost var executed: seq<bytes>

    constructor ()
      ensures State() == Served([], [], [])
    {
      done, results, executed := [], [], [];
    }

    ghost function State(): Served
      reads this
    {
      Served(done, executed, results)
    }

    /** `_rpc_server_rhizome_done`. */
    method Done(id: CString) returns (found: bool)
      ensures found <==> id in done
    {
      var i := 0;
      while i < |done|
        invariant 0 <= i <= |done| && id !in done[..i]
      {
        if done[i] == id { return true; }
        i := i + 1;
      }
      return false;
    }

    /** `_rpc_server_rhizome_finished`. */
    method Finished(id: CString)
      modifies `done
      ensures done == old(done) + [id]
    {
      done := done + [id];
    }

    /** The bundle loop of `_rpc_server_rhizome_process`, on every list whose packets keep it within its memory. */
    method ProcessBundles(list: BundleList, me: CString) returns (code: int)
      requires Process(State(), list, me).halt != Faulted
      modifies this
      ensures State() == Process(old(State()), list, me).served && code == Process(old(State()), list, me).code
    {
      if !list.fetchOk { return -1; }
      if |list.rows| <= 0 { return 1; }
      ghost var start := Progress(State(), 0, Running);
      code := 0;
      var i := 0;
      while i < |list.rows|
        invariant 0 <= i <= |list.rows|
        invariant OnBundles(start, list.rows, me, i) == Progress(State(), code, Running)
      {
        var b := list.rows[i];
        i := i + 1;
        var known := Done(b.id);
        if ForMe(b, me) && !known {
          if !b.decrypts {
            Leave(start, list.rows, me, i);
            return -1;
          }
          if b.file[0] == RPC_PKT_CALL {
            if ParseCall(b.file).None? { Leave(start, list.rows, me, i); }
            var rp := ServerParseCall(b.file);
            if !b.hasSender {
              Leave(start, list.rows, me, i);
              return -1;
            }
            match b.handling {
              case NotOffered => code := -1;
              case NoBinary =>
              case Runs(success) =>
                if !Complete(rp) { Leave(start, list.rows, me, i); }
                if success {
                  executed := executed + [b.id];
                  results := results + [b.id];
                  Finished(b.id);
                }
            }
          }
        }
      }
    }
  }

  lemma {:induction false} LeaveFrom(p: Progress, rows: seq<Bundle>, me: CString, n: nat, m: nat)
    requires n <= m <= |rows| && OnBundles(p, rows, me, n).halt != Running
    ensures OnBundles(p, rows, me, m) == OnBundles(p, rows, me, n)
    decreases m - n
  {
    if n < m { LeaveFrom(p, rows, me, n, m - 1); }
  }

  lemma Leave(p: Progress, rows: seq<Bundle>, me: CString, n: nat)
    requires n <= |rows| && OnBundles(p, rows, me, n).halt != Running
    ensures OnBundles(p, rows, me, |rows|) == OnBundles(p, rows, me, n)
  {
    LeaveFrom(p, rows, me, n, |rows|);
  }
}
