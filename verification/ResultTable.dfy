/** The client's five result slots, and what an ACK or an answer does to them. */
module ResultTable {
  import opened CText
  import opened Wrappers

  const SID_SIZE: nat := 32
  const SLOTS: nat := 5

  /** `RPC_PKT_SIZE`, the bytes a slot has for an answer. */
  const CONTENT_SIZE: nat := 960

  type Sid = s: bytes | |s| == SID_SIZE witness SID_ANY

  const SID_ANY: bytes :=
    [0, 0, 0, 0, 0, 0, 0, 0, 0, 0, 0, 0, 0, 0, 0, 0, 0, 0, 0, 0, 0, 0, 0, 0, 0, 0, 0, 0, 0, 0, 0, 0]

  predicate AllMatching(s: bytes, b: byte) {
    forall k | 0 <= k < |s| :: s[k] == b
  }

  /** `is_sid_t_any` and `is_sid_t_broadcast`. */
  predicate IsAny(sid: Sid) { AllMatching(sid, 0) }

  predicate IsBroadcast(sid: Sid) { AllMatching(sid, 0xFF) }

  /** A SID that belongs to a server. */
  predicate IsOrdinary(sid: Sid) { !IsAny(sid) && !IsBroadcast(sid) }

  type Content = c: bytes | |c| == CONTENT_SIZE witness NO_CONTENT

  const NO_CONTENT: bytes := Zeros(CONTENT_SIZE)

  function Zeros(n: nat): (z: bytes)
    ensures |z| == n
  {
    if n == 0 then [] else Zeros(n - 1) + [0]
  }

  datatype Slot = Slot(sid: Sid, content: Content)

  type Table = t: seq<Slot> | |t| == SLOTS witness CLEARED

  const FREE: Slot := Slot(SID_ANY, NO_CONTENT)

  /** `memset(rpc_result, 0, sizeof(rpc_result))`. */
  const CLEARED: seq<Slot> := [FREE, FREE, FREE, FREE, FREE]

  /** What an answer packet brings: the bytes behind its type byte, or, when those are a file hash, the path of the
      downloaded file. A packet without any byte is hollow: its type byte is whatever memory held, and the length
      of the copy, one less than none, wraps around. */
  datatype Answer = Inline(content: bytes) | Download(path: bytes) | Hollow

  /** The copy into a slot stays inside the slot. */
  predicate Fits(a: Answer) {
    match a
    case Inline(content) => |content| <= CONTENT_SIZE
    case Download(path) => |path| <= CONTENT_SIZE
    case Hollow => false
  }

  /** The content of a slot after an answer is copied over its first bytes. */
  function Overwritten(c: Content, a: Answer): Content
    requires Fits(a)
  {
    var copied := if a.Inline? then a.content else a.path;
    copied + c[|copied|..]
  }

  lemma {:induction false} ZerosAre(n: nat, k: nat)
    requires k < n
    ensures Zeros(n)[k] == 0
  {
    if k < n - 1 { ZerosAre(n - 1, k); }
  }

  /** A cleared table holds nothing but bytes 0. */
  lemma ClearedIsZero(i: nat, k: nat)
    requires i < 5
    ensures k < 32 ==> CLEARED[i].sid[k] == 0
    ensures k < 960 ==> CLEARED[i].content[k] == 0
  {
    if k < 960 { ZerosAre(960, k); }
  }

  /** The SID of "any" is 32 bytes 0, the SID of "all" 32 bytes 255. */
  lemma SpecialSids(sid: Sid)
    ensures |sid| == 32
    ensures IsAny(sid) <==> forall k | 0 <= k < 32 :: sid[k] == 0
    ensures IsBroadcast(sid) <==> forall k | 0 <= k < 32 :: sid[k] == 255
  {
  }

  /** An answer of up to 960 bytes fits. It overwrites as many bytes of the content, and the rest stays. */
  lemma OverwrittenKeepsRest(c: Content, a: Answer, s: bytes, k: nat)
    requires (a == Inline(s) || a == Download(s)) && k < 960
    ensures Fits(a) <==> |s| <= 960
    ensures |s| <= 960 ==> Overwritten(c, a)[k] == if k < |s| then s[k] else c[k]
  {
  }

  /** The first free slot from `i` on, or 5. */
  function InsertIndex(t: Table, i: nat): (r: nat)
    requires i <= SLOTS
    ensures i <= r <= SLOTS && (r < SLOTS ==> IsAny(t[r].sid))
    decreases SLOTS - i
  {
    if i == SLOTS || IsAny(t[i].sid) then i else InsertIndex(t, i + 1)
  }

  /** The first slot from `i` on with this SID, or -1. */
  function SidIndex(t: Table, sid: Sid, i: nat): (r: int)
    requires i <= SLOTS
    ensures -1 <= r < SLOTS && (r >= 0 ==> i <= r && t[r].sid == sid)
    decreases SLOTS - i
  {
    if i == SLOTS then -1 else if t[i].sid == sid then i else SidIndex(t, sid, i + 1)
  }

  lemma {:induction false} SidIndexIsFirst(t: Table, sid: Sid, i: nat)
    requires i <= SLOTS
    ensures var r := SidIndex(t, sid, i);
      forall k | i <= k < (if r == -1 then SLOTS else r) :: t[k].sid != sid
    decreases SLOTS - i
  {
    if i < SLOTS && t[i].sid != sid { SidIndexIsFirst(t, sid, i + 1); }
  }

  lemma {:induction false} InsertIndexIsFirst(t: Table, i: nat)
    requires i <= SLOTS
    ensures forall k | i <= k < InsertIndex(t, i) :: !IsAny(t[k].sid)
    decreases SLOTS - i
  {
    if i < SLOTS && !IsAny(t[i].sid) { InsertIndexIsFirst(t, i + 1); }
  }

  /** An ACK: for an "all" call it stores its sender in the first free slot, or past the table when there is none.
      The lookup that guards the insertion is for the called SID, not for the sender. */
  function OnAck(t: Table, server: Sid, from: Sid): Option<Table> {
    if IsBroadcast(server) && SidIndex(t, server, 0) == -1 then
      var position := InsertIndex(t, 0);
      if position == SLOTS then None else Some(t[position := t[position].(sid := from)])
    else Some(t)
  }

  /** What an answer does: the slots, and whether it ends the call. */
  datatype Answered = Answered(table: Table, last: bool)

  /** An answer: to an "all" call it goes to the first slot of its sender, if there is one; otherwise to slot 0.
      Nothing bounds the copy. */
  function OnResponse(t: Table, server: Sid, from: Sid, a: Answer): Option<Answered> {
    if IsBroadcast(server) then
      var position := SidIndex(t, from, 0);
      if position == -1 then Some(Answered(t, false))
      else if !Fits(a) then None
      else Some(Answered(t[position := Slot(t[position].sid, Overwritten(t[position].content, a))], position == 4))
    else if !Fits(a) then None
    else Some(Answered(t[0 := Slot(from, Overwritten(t[0].content, a))], true))
  }

  /** An answer to any other call goes over the first bytes of slot 0, under its sender's SID, and ends the call. */
  lemma FirstSlotAnswered(t: Table, server: Sid, from: Sid, s: bytes, k: nat)
    requires !IsBroadcast(server) && |s| <= 960 && k < 960
    ensures var r := OnResponse(t, server, from, Inline(s)).value;
      && r.last && r.table[0].sid == from && r.table[0].content[k] == (if k < |s| then s[k] else t[0].content[k])
      && r.table[1..] == t[1..]
  {
  }

  /** Once a slot holds the SID of "all" itself, the ACKs of an "all" call change nothing, nor does any ACK of another
      call. */
  lemma AckIgnored(t: Table, server: Sid, from: Sid, i: nat)
    requires i < 5 && (t[i].sid == server || !IsBroadcast(server))
    ensures OnAck(t, server, from) == Some(t)
  {
    SidIndexIsFirst(t, server, 0);
  }

  // ---- the loops ----

  method GetInsertIndex(t: array<Slot>) returns (i: nat)
    requires t.Length == SLOTS
    ensures i == InsertIndex(t[..], 0)
  {
    i := 0;
    while i < SLOTS
      invariant i <= SLOTS && InsertIndex(t[..], i) == InsertIndex(t[..], 0)
    {
      if IsAny(t[i].sid) { return; }
      i := i + 1;
    }
  }

  method GetSidIndex(t: array<Slot>, sid: Sid) returns (r: int)
    requires t.Length == SLOTS
    ensures r == SidIndex(t[..], sid, 0)
  {
    var i := 0;
    while i < SLOTS
      invariant 0 <= i <= SLOTS && SidIndex(t[..], sid, i) == SidIndex(t[..], sid, 0)
    {
      if t[i].sid == sid { return i; }
      i := i + 1;
    }
    return -1;
  }

  method HandleAck(t: array<Slot>, server: Sid, from: Sid)
    requires t.Length == SLOTS && OnAck(t[..], server, from).Some?
    modifies t
    ensures t[..] == OnAck(old(t[..]), server, from).value
  {
    if IsBroadcast(server) {
      var known := GetSidIndex(t, server);
      if known == -1 {
        var position := GetInsertIndex(t);
        t[position] := t[position].(sid := from);
      }
    }
  }

  method HandleResponse(t: array<Slot>, server: Sid, from: Sid, a: Answer) returns (last: bool)
    requires t.Length == SLOTS && OnResponse(t[..], server, from, a).Some?
    modifies t
    ensures OnResponse(old(t[..]), server, from, a) == Some(Answered(t[..], last))
  {
    var position := -1;
    if IsBroadcast(server) {
      position := GetSidIndex(t, from);
      if position == -1 { return false; }
    }
    if position == -1 {
      t[0] := Slot(from, Overwritten(t[0].content, a));
      last := true;
    } else {
      t[position] := Slot(t[position].sid, Overwritten(t[position].content, a));
      last := position == 4;
    }
  }

  method Clear(t: array<Slot>)
    requires t.Length == SLOTS
    modifies t
    ensures t[..] == CLEARED
  {
    var i := 0;
    while i < SLOTS
      invariant 0 <= i <= SLOTS
      invariant forall k | 0 <= k < i :: t[k] == FREE
    {
      t[i] := FREE;
      i := i + 1;
    }
  }

  // ---- the invariant of an "all" call ----

  /** The first slots hold these SIDs of servers in order, and the others are free. */
  ghost predicate Holds(t: Table, senders: seq<Sid>) {
    && |senders| <= SLOTS
    && forall k | 0 <= k < SLOTS ::
         if k < |senders| then t[k].sid == senders[k] && IsOrdinary(t[k].sid) else IsAny(t[k].sid)
  }

  /** The SID stands in the list, and `k` is its first place. */
  ghost predicate FirstAt(senders: seq<Sid>, from: Sid, k: nat) {
    k < |senders| && senders[k] == from && from !in senders[..k]
  }

  /** Occupied slots form a prefix, and the insert index is their number. */
  lemma HeldIndex(t: Table, senders: seq<Sid>)
    requires Holds(t, senders)
    ensures InsertIndex(t, 0) == |senders|
  {
    InsertIndexIsFirst(t, 0);
    assert |senders| < SLOTS ==> IsAny(t[|senders|].sid);
  }

  lemma NoBroadcastInside(t: Table, senders: seq<Sid>, server: Sid)
    requires Holds(t, senders) && IsBroadcast(server)
    ensures SidIndex(t, server, 0) == -1
  {
    assert !IsAny(server) by { assert server[0] == 0xFF; }
  }

  /** The lookup of a server's SID finds its first place among the senders. */
  lemma HeldSidIndex(t: Table, senders: seq<Sid>, from: Sid)
    requires Holds(t, senders) && IsOrdinary(from)
    ensures var r := SidIndex(t, from, 0); if r == -1 then from !in senders else FirstAt(senders, from, r)
  {
    SidIndexIsFirst(t, from, 0);
  }

  /** An ordinary ACK fills exactly the next slot with its sender, whoever that is; with five slots full it has
      no slot to fill. */
  lemma AckFills(t: Table, senders: seq<Sid>, server: Sid, from: Sid)
    requires Holds(t, senders) && IsBroadcast(server) && IsOrdinary(from)
    ensures |senders| == SLOTS <==> OnAck(t, server, from).None?
    ensures |senders| < SLOTS ==>
      && OnAck(t, server, from) == Some(t[|senders| := t[|senders|].(sid := from)])
      && Holds(OnAck(t, server, from).value, senders + [from])
  {
    HeldIndex(t, senders);
    NoBroadcastInside(t, senders, server);
  }

  /** An answer to an "all" call is lost when its sender has no slot; it leaves its slot when it does not fit; otherwise
      it overwrites the content of its sender's first slot and changes nothing else, and it ends the call if and
      only if that is the last slot. */
  lemma AnswerKeeps(t: Table, senders: seq<Sid>, server: Sid, from: Sid, a: Answer)
    requires Holds(t, senders) && IsBroadcast(server) && IsOrdinary(from)
    ensures OnResponse(t, server, from, a).None? <==> from in senders && !Fits(a)
    ensures from !in senders ==> OnResponse(t, server, from, a) == Some(Answered(t, false))
    ensures from in senders && Fits(a) ==>
      var r := OnResponse(t, server, from, a).value;
      && Holds(r.table, senders)
      && (forall k | 0 <= k < SLOTS :: r.table[k]
            == if FirstAt(senders, from, k) then Slot(from, Overwritten(t[k].content, a)) else t[k])
      && (r.last <==> FirstAt(senders, from, 4))
  {
    HeldSidIndex(t, senders, from);
  }
}
