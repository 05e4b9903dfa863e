/** The call packet: flattened and encoded by the client, split at `|` by the server. */
module CallPacket {
  import opened CText
  import opened Buffers
  import opened Wrappers

  const RPC_PKT_CALL: byte := 0
  const HEADER: nat := 6
  const WORD_RANGE := 0x1_0000_0000

  // ---- flattening ----

  /** Every parameter with a delimiter in front. */
  function Flat(params: seq<bytes>): (flat: bytes) {
    if params == [] then [] else [PIPE] + params[0] + Flat(params[1..])
  }

  function TotalLength(params: seq<bytes>): nat {
    if params == [] then 0 else |params[0]| + TotalLength(params[1..])
  }

  ghost predicate AllNulFree(params: seq<bytes>) {
    forall k | 0 <= k < |params| :: NulFree(params[k])
  }

  /** Flattening produces the bytes of the parameters and one delimiter each, and no NUL. */
  lemma {:induction false} FlatLength(params: seq<bytes>)
    ensures |Flat(params)| == TotalLength(params) + |params|
    decreases |params|
  {
    if params != [] { FlatLength(params[1..]); }
  }

  lemma {:induction false} FlatSnoc(params: seq<bytes>, p: bytes)
    ensures Flat(params + [p]) == Flat(params) + [PIPE] + p
    ensures TotalLength(params + [p]) == TotalLength(params) + |p|
    decreases |params|
  {
    if params == [] {
      assert [] + [p] == [p];
      assert [PIPE] + p + [] == [] + [PIPE] + p;
    } else {
      assert (params + [p])[1..] == params[1..] + [p];
      FlatSnoc(params[1..], p);
      assert [PIPE] + params[0] + (Flat(params[1..]) + [PIPE] + p)
        == [PIPE] + params[0] + Flat(params[1..]) + [PIPE] + p;
    }
  }

  lemma {:induction false} FlatNulFree(params: seq<bytes>)
    requires AllNulFree(params)
    ensures NulFree(Flat(params))
    decreases |params|
  {
    if params != [] { FlatNulFree(params[1..]); }
  }

  /** `strcat`: the text goes behind the one the buffer holds. */
  method StrCat(buffer: array<byte>, s: CString, ghost text: bytes)
    requires Holds(buffer, text) && NulFree(text) && |text| + |s| < buffer.Length
    modifies buffer
    ensures Holds(buffer, text + s)
  {
    assert text[0..] == text;
    var n := StrLen(buffer, 0, text);
    var end := Put(buffer, n, s);
    Terminate(buffer, end, text + s);
  }

  /** `_rpc_flatten_params`: the buffer is exactly filled. */
  method FlattenParams(params: seq<bytes>) returns (flat: array<byte>)
    requires AllNulFree(params)
    ensures fresh(flat) && flat.Length == TotalLength(params) + |params| + 1 && Holds(flat, Flat(params))
  {
    var size, i := 0, 0;
    assert params[..|params|] == params;
    while i < |params|
      invariant 0 <= i <= |params| && size == TotalLength(params[..i])
    {
      assert params[..i + 1] == params[..i] + [params[i]];
      FlatSnoc(params[..i], params[i]);
      size := size + |params[i]|;
      i := i + 1;
    }
    flat := new byte[size + |params| + 1](_ => 0);
    i := 0;
    while i < |params|
      invariant 0 <= i <= |params| && Holds(flat, Flat(params[..i]))
      invariant flat.Length == size + |params| + 1
    {
      ghost var done := params[..i];
      assert params[..i + 1] == done + [params[i]];
      FlatSnoc(done, params[i]);
      FlatNulFree(done);
      PrefixFits(params, i);
      StrCat(flat, [PIPE], Flat(done));
      StrCat(flat, params[i], Flat(done) + [PIPE]);
      i := i + 1;
    }
  }

  lemma PrefixFits(params: seq<bytes>, i: nat)
    requires i < |params|
    ensures |Flat(params[..i])| + 1 + |params[i]| <= TotalLength(params) + |params|
  {
    assert params[..i + 1] == params[..i] + [params[i]];
    FlatSnoc(params[..i], params[i]);
    FlatLength(params[..i]);
    TotalPrefix(params, i + 1);
  }

  lemma {:induction false} TotalPrefix(params: seq<bytes>, i: nat)
    requires i <= |params|
    ensures TotalLength(params[..i]) <= TotalLength(params)
    decreases |params| - i
  {
    if i < |params| {
      assert params[..i + 1] == params[..i] + [params[i]];
      FlatSnoc(params[..i], params[i]);
      TotalPrefix(params, i + 1);
    } else {
      assert params[..i] == params;
    }
  }

  const FLAT_SIZE: nat := 512

  /** What the caller's fixed buffer holds after the copy, or `None` when the text and its terminator do not fit. */
  function StoredFlat(params: seq<bytes>): Option<bytes> {
    if |Flat(params)| + 1 <= FLAT_SIZE then Some(Flat(params)) else None
  }

  /** The copy passes the buffer exactly when bytes and delimiters together are 512 or more. */
  lemma StoredFlatIff(params: seq<bytes>)
    ensures StoredFlat(params).None? <==> TotalLength(params) + |params| >= FLAT_SIZE
  {
    FlatLength(params);
  }

  /** One parameter of 510 bytes is the longest that fits. */
  lemma LongParameterOverflows(s: bytes)
    ensures StoredFlat([s]).None? <==> |s| >= 511
  {
    StoredFlatIff([s]);
    assert TotalLength([s]) == |s| + TotalLength([]);
  }

  /** The copy into the caller's fixed buffer, when no parameter names a local file. */
  method StoreFlatParams(flatParams: array<byte>, params: seq<bytes>)
    requires AllNulFree(params) && flatParams.Length == FLAT_SIZE && StoredFlat(params).Some?
    modifies flatParams
    ensures Holds(flatParams, StoredFlat(params).value)
  {
    var flat := FlattenParams(params);
    FlatLength(params);
    FlatNulFree(params);
    assert Flat(params)[0..] == Flat(params);
    var n := StrLen(flat, 0, Flat(params));
    var end := Put(flatParams, 0, flat[..n]);
    assert [] + Flat(params) == Flat(params);
    Terminate(flatParams, end, Flat(params));
  }

  // ---- the packet ----

  /** A 32-bit number, most significant byte first. */
  function Word(n: nat): (w: bytes)
    requires n < WORD_RANGE
    ensures |w| == 4
  {
    [n / 0x100_0000, n / 0x1_0000 % 256, n / 256 % 256, n % 256]
  }

  function ReadWord(w: bytes): (n: nat)
    requires |w| == 4
    ensures n < WORD_RANGE
  {
    ((w[0] as int * 256 + w[1]) * 256 + w[2]) * 256 + w[3]
  }

  lemma WordRoundTrip(n: nat)
    requires n < WORD_RANGE
    ensures ReadWord(Word(n)) == n
  {
    assert n / 256 / 256 == n / 0x1_0000 && n / 0x1_0000 / 256 == n / 0x100_0000;
  }

  function Packet(paramc: nat, name: bytes, flat: bytes, requirements: nat): (p: bytes)
    requires requirements < WORD_RANGE
    ensures |p| == HEADER + |name| + |flat| + 1
  {
    [RPC_PKT_CALL] + Word(requirements) + [paramc % 256] + name + flat + [0]
  }

  /** `_rpc_client_prepare_call_payload`. */
  method PrepareCallPayload(payload: array<byte>, paramc: nat, name: CString, flat: CString, requirements: nat)
    requires requirements < WORD_RANGE && payload.Length == HEADER + |name| + |flat| + 1
    modifies payload
    ensures payload[..] == Packet(paramc, name, flat, requirements)
  {
    var end := PutByte(payload, 0, RPC_PKT_CALL);
    end := Put(payload, end, Word(requirements));
    end := PutByte(payload, end, paramc % 256);
    end := Put(payload, end, name);
    end := Put(payload, end, flat);
    end := PutByte(payload, end, 0);
    assert payload[..end] == payload[..];
  }

  // ---- splitting ----

  /** The end of the run of characters up to the next delimiter. */
  function TokenEnd(s: bytes, i: nat): (e: nat)
    requires i <= |s|
    ensures i <= e <= |s| && (e < |s| ==> s[e] == PIPE)
    ensures i < |s| && s[i] != PIPE ==> i < e
    decreases |s| - i
  {
    if i == |s| || s[i] == PIPE then i else TokenEnd(s, i + 1)
  }

  /** What repeated `strtok` calls return for the text from `i` on. */
  function Tokens(s: bytes, i: nat): seq<bytes>
    requires i <= |s|
    decreases |s| - i
  {
    if i == |s| then []
    else if s[i] == PIPE then Tokens(s, i + 1)
    else [s[i..TokenEnd(s, i)]] + Tokens(s, TokenEnd(s, i))
  }

  ghost predicate PipeFree(s: bytes) {
    forall k | 0 <= k < |s| :: s[k] != PIPE
  }

  ghost predicate IsToken(s: bytes) {
    s != [] && PipeFree(s)
  }

  ghost predicate AllTokens(params: seq<bytes>) {
    forall k | 0 <= k < |params| :: IsToken(params[k])
  }

  lemma {:induction false} TokenRun(s: bytes, i: nat, e: nat)
    requires i <= e <= |s| && (forall k | i <= k < e :: s[k] != PIPE) && (e < |s| ==> s[e] == PIPE)
    ensures TokenEnd(s, i) == e
    decreases e - i
  {
    if i < e { TokenRun(s, i + 1, e); }
  }

  lemma {:induction false} TokenEndFree(s: bytes, i: nat)
    requires i <= |s|
    ensures forall k | i <= k < TokenEnd(s, i) :: s[k] != PIPE
    decreases |s| - i
  {
    if i < |s| && s[i] != PIPE { TokenEndFree(s, i + 1); }
  }

  /** Tokens are never empty and contain no delimiter. */
  lemma {:induction false} TokensAreTokens(s: bytes, i: nat)
    requires i <= |s|
    ensures AllTokens(Tokens(s, i))
    decreases |s| - i
  {
    if i < |s| {
      if s[i] == PIPE {
        TokensAreTokens(s, i + 1);
      } else {
        TokenEndFree(s, i);
        TokensAreTokens(s, TokenEnd(s, i));
      }
    }
  }

  function NonEmpty(params: seq<bytes>): seq<bytes> {
    if params == [] then []
    else if params[0] == [] then NonEmpty(params[1..])
    else [params[0]] + NonEmpty(params[1..])
  }

  lemma {:induction false} NonEmptyAll(params: seq<bytes>)
    requires forall k | 0 <= k < |params| :: params[k] != []
    ensures NonEmpty(params) == params
    decreases |params|
  {
    if params != [] { NonEmptyAll(params[1..]); }
  }

  lemma {:induction false} NonEmptyCount(params: seq<bytes>)
    ensures |NonEmpty(params)| <= |params|
    decreases |params|
  {
    if params != [] { NonEmptyCount(params[1..]); }
  }

  lemma TokensOfWord(s: bytes, i: nat, e: nat, word: bytes)
    requires i <= e <= |s| && s[i..e] == word && PipeFree(word) && (e < |s| ==> s[e] == PIPE)
    ensures Tokens(s, i) == (if word == [] then [] else [word]) + Tokens(s, e)
  {
    assert forall k | i <= k < e :: s[k] == word[k - i];
    TokenRun(s, i, e);
    if word == [] { assert [] + Tokens(s, e) == Tokens(s, e); }
  }

  /** Splitting a flattened list gives its entries back, except the empty ones. */
  lemma {:induction false} TokensOfFlat(s: bytes, i: nat, params: seq<bytes>)
    requires i <= |s| && s[i..] == Flat(params) && forall k | 0 <= k < |params| :: PipeFree(params[k])
    ensures Tokens(s, i) == NonEmpty(params)
    decreases |params|
  {
    if params != [] {
      var e := i + 1 + |params[0]|;
      var rest := Flat(params[1..]);
      assert s[i] == Flat(params)[0] == PIPE;
      assert s[e..] == Flat(params)[1 + |params[0]|..] == rest;
      assert s[i + 1..e] == Flat(params)[1..1 + |params[0]|] == params[0];
      assert e < |s| ==> s[e] == rest[0];
      TokensOfWord(s, i + 1, e, params[0]);
      TokensOfFlat(s, e, params[1..]);
      assert [] + NonEmpty(params[1..]) == NonEmpty(params[1..]);
    }
  }

  // ---- the server ----

  /** The procedure that a packet names, with the parameters in the order they were stored. */
  datatype Call = Call(name: bytes, paramc: nat, params: seq<bytes>)

  /** Where the C string that starts at `i` ends, or the end of the packet when it has no terminator. */
  function TextEnd(s: bytes, i: nat): (e: nat)
    requires i <= |s|
    ensures i <= e <= |s| && (e < |s| ==> s[e] == 0)
    decreases |s| - i
  {
    if i == |s| || s[i] == 0 then i else TextEnd(s, i + 1)
  }

  /** The text behind the header, up to its terminator. */
  function Text(payload: bytes): bytes
    requires |payload| >= HEADER
  {
    payload[HEADER..TextEnd(payload, HEADER)]
  }

  /** `_rpc_server_parse_call`, or `None` when it leaves its memory: with its header cut short, without a terminator,
      without any token, or with more tokens than the count allows. */
  function ParseCall(payload: bytes): Option<Call> {
    if |payload| < HEADER || TextEnd(payload, HEADER) == |payload| then None
    else
      var tokens := Tokens(Text(payload), 0);
      if tokens == [] || |tokens| - 1 > payload[5] then None
      else Some(Call(tokens[0], payload[5], tokens[1..]))
  }

  /** One `strtok` call: the next token from `from` on, and where the search goes on. */
  method StrTok(s: bytes, from: nat) returns (tok: Option<bytes>, next: nat)
    requires from <= |s|
    ensures from <= next <= |s|
    ensures tok.None? ==> Tokens(s, from) == []
    ensures tok.Some? ==> from < next && Tokens(s, from) == [tok.value] + Tokens(s, next)
  {
    next := from;
    while next < |s| && s[next] == PIPE
      invariant from <= next <= |s| && Tokens(s, next) == Tokens(s, from)
    {
      next := next + 1;
    }
    if next == |s| { return None, next; }
    var begin := next;
    while next < |s| && s[next] != PIPE
      invariant begin <= next <= |s| && TokenEnd(s, next) == TokenEnd(s, begin)
    {
      next := next + 1;
    }
    tok := Some(s[begin..next]);
  }

  /** The length of the text behind the header. */
  method TextLength(payload: bytes) returns (e: nat)
    requires HEADER <= |payload| && TextEnd(payload, HEADER) < |payload|
    ensures e == TextEnd(payload, HEADER)
  {
    e := HEADER;
    while payload[e] != 0
      invariant HEADER <= e < |payload| && TextEnd(payload, e) == TextEnd(payload, HEADER)
      decreases |payload| - e
    {
      e := e + 1;
    }
  }

  /** `_rpc_server_parse_call` on every packet that it handles within its memory. */
  method ServerParseCall(payload: bytes) returns (rp: Call)
    requires ParseCall(payload).Some?
    ensures rp == ParseCall(payload).value
  {
    hide Tokens, TextEnd;
    var paramc: nat := payload[5];
    var end := TextLength(payload);
    var text := payload[HEADER..end];
    ghost var tokens := Tokens(text, 0);
    var tok, next := StrTok(text, 0);
    var name := tok.value;
    var params := new bytes[paramc](_ => []);
    var i := 0;
    tok, next := StrTok(text, next);
    while tok.Some?
      invariant next <= |text| && 0 <= i <= paramc
      invariant tokens == [name] + params[..i] + (if tok.Some? then [tok.value] + Tokens(text, next) else [])
      decreases |text| - next, if tok.Some? then 1 else 0
    {
      ghost var read := params[..i];
      params[i] := tok.value;
      assert params[..i + 1] == read + [tok.value];
      i := i + 1;
      tok, next := StrTok(text, next);
    }
    rp := Call(name, paramc, params[..i]);
    assert tokens[0] == name && tokens[1..] == params[..i];
  }

  // ---- which packets leave the server's memory ----

  /** How many stretches without delimiters begin from `i` on. */
  function Starts(s: bytes, i: nat): nat
    requires i <= |s|
    decreases |s| - i
  {
    if i == |s| then 0
    else (if s[i] != PIPE && (i == 0 || s[i - 1] == PIPE) then 1 else 0) + Starts(s, i + 1)
  }

  lemma {:induction false} NoStartInside(s: bytes, i: nat, e: nat)
    requires 0 < i <= e <= |s| && forall k | i - 1 <= k < e :: s[k] != PIPE
    ensures Starts(s, i) == Starts(s, e)
    decreases e - i
  {
    if i < e { NoStartInside(s, i + 1, e); }
  }

  /** There are as many tokens as stretches. */
  lemma {:induction false} TokenCount(s: bytes, i: nat)
    requires i <= |s| && (i == 0 || i == |s| || s[i - 1] == PIPE || s[i] == PIPE)
    ensures |Tokens(s, i)| == Starts(s, i)
    decreases |s| - i
  {
    if i < |s| {
      if s[i] == PIPE {
        TokenCount(s, i + 1);
      } else {
        TokenEndFree(s, i);
        NoStartInside(s, i + 1, TokenEnd(s, i));
        TokenCount(s, TokenEnd(s, i));
      }
    }
  }

  lemma {:induction false} TextEndIsFirst(s: bytes, i: nat)
    requires i <= |s|
    ensures forall k | i <= k < TextEnd(s, i) :: s[k] != 0
    decreases |s| - i
  {
    if i < |s| && s[i] != 0 { TextEndIsFirst(s, i + 1); }
  }

  /** The header is cut short, no NUL follows it, or the text up to there has no stretch for a name, or more
      stretches behind the name than the count byte says. */
  ghost predicate Malformed(p: bytes) {
    || |p| < HEADER
    || (forall k | HEADER <= k < |p| :: p[k] != 0)
    || Starts(Text(p), 0) == 0
    || Starts(Text(p), 0) - 1 > p[5]
  }

  /** The packets on which the parser leaves its memory. */
  lemma ParseFaultsIff(p: bytes)
    ensures ParseCall(p).None? <==> Malformed(p)
  {
    hide Tokens, Starts;
    if |p| >= HEADER {
      TextEndIsFirst(p, HEADER);
      TokenCount(Text(p), 0);
    }
  }

  /** Parameters that the execution reads: the first, and as many as counted. */
  predicate Complete(c: Call) { 0 < c.paramc == |c.params| }

  /** The text has fewer stretches behind the name than the count byte says, or the count is 0. */
  predicate LacksParameters(p: bytes)
    requires |p| >= HEADER
  {
    p[5] == 0 || Starts(Text(p), 0) - 1 < p[5]
  }

  lemma CompleteIff(p: bytes)
    requires ParseCall(p).Some?
    ensures Complete(ParseCall(p).value) <==> !LacksParameters(p)
  {
    hide Tokens, Starts;
    TokenCount(Text(p), 0);
  }

  // ---- from the client to the server ----

  lemma {:induction false} TextRun(s: bytes, i: nat, e: nat)
    requires i <= e < |s| && (forall k | i <= k < e :: s[k] != 0) && s[e] == 0
    ensures TextEnd(s, i) == e
    decreases e - i
  {
    if i < e { TextRun(s, i + 1, e); }
  }

  lemma PacketParts(paramc: nat, name: CString, flat: CString, requirements: nat)
    requires requirements < WORD_RANGE
    ensures var p := Packet(paramc, name, flat, requirements);
      && p[0] == RPC_PKT_CALL && p[1..5] == Word(requirements) && p[5] == paramc % 256
      && TextEnd(p, HEADER) == |p| - 1 && p[HEADER..|p| - 1] == name + flat
  {
    var p := Packet(paramc, name, flat, requirements);
    var head := [RPC_PKT_CALL] + Word(requirements) + [paramc % 256];
    assert p == head + (name + flat) + [0];
    assert p[..HEADER] == head;
    assert p[HEADER..|p| - 1] == name + flat;
    assert p[|p| - 1] == 0;
    forall k | HEADER <= k < |p| - 1 ensures p[k] != 0 { assert p[k] == (name + flat)[k - HEADER]; }
    TextRun(p, HEADER, |p| - 1);
  }

  lemma TokensOfCall(name: bytes, params: seq<bytes>)
    requires IsToken(name) && forall k | 0 <= k < |params| :: PipeFree(params[k])
    ensures Tokens(name + Flat(params), 0) == [name] + NonEmpty(params)
  {
    var s := name + Flat(params);
    assert s[0..|name|] == name && s[|name|..] == Flat(params);
    assert |name| < |s| ==> s[|name|] == Flat(params)[0];
    TokensOfWord(s, 0, |name|, name);
    TokensOfFlat(s, |name|, params);
  }

  /** What the server makes of a packet with these tokens. */
  lemma ParseCallIs(p: bytes, first: bytes, rest: seq<bytes>)
    requires |p| >= HEADER && TextEnd(p, HEADER) < |p|
    requires Tokens(p[HEADER..TextEnd(p, HEADER)], 0) == [first] + rest
    ensures ParseCall(p) == if |rest| > p[5] then None else Some(Call(first, p[5], rest))
  {
    hide Tokens, TextEnd;
    assert ([first] + rest)[1..] == rest;
  }

  lemma RequirementsArrive(paramc: nat, name: CString, flat: CString, requirements: nat)
    requires requirements < WORD_RANGE
    ensures ReadWord(Packet(paramc, name, flat, requirements)[1..5]) == requirements
  {
    PacketParts(paramc, name, flat, requirements);
    WordRoundTrip(requirements);
  }

  lemma TextArrives(paramc: nat, name: CString, flat: CString, requirements: nat, first: bytes, rest: seq<bytes>)
    requires requirements < WORD_RANGE && paramc <= 255 && Tokens(name + flat, 0) == [first] + rest
    ensures ParseCall(Packet(paramc, name, flat, requirements))
      == if |rest| > paramc then None else Some(Call(first, paramc, rest))
  {
    hide Tokens, TextEnd, Packet, ParseCall;
    PacketParts(paramc, name, flat, requirements);
    ParseCallIs(Packet(paramc, name, flat, requirements), first, rest);
  }

  /** The server receives the requirements, the name, the count and every parameter that is not empty. */
  lemma EmptyParamsAreDropped(name: bytes, params: seq<bytes>, requirements: nat)
    requires NulFree(name) && AllNulFree(params) && requirements < WORD_RANGE && |params| <= 255
    requires IsToken(name) && forall k | 0 <= k < |params| :: PipeFree(params[k])
    ensures var p := Packet(|params|, name, Flat(params), requirements);
      && ReadWord(p[1..5]) == requirements
      && ParseCall(p) == Some(Call(name, |params|, NonEmpty(params)))
  {
    hide Tokens, Packet, Flat, ReadWord, NonEmpty, ParseCall;
    FlatNulFree(params);
    TokensOfCall(name, params);
    NonEmptyCount(params);
    RequirementsArrive(|params|, name, Flat(params), requirements);
    TextArrives(|params|, name, Flat(params), requirements, name, NonEmpty(params));
  }

  /** Whatever the server makes of a packet, the name and the parameters are non-empty and free of the delimiter,
      and the count fits its byte. */
  lemma ParsedAreTokens(p: bytes)
    requires ParseCall(p).Some?
    ensures var c := ParseCall(p).value; IsToken(c.name) && AllTokens(c.params) && c.paramc <= 255
  {
    var tokens := Tokens(p[HEADER..TextEnd(p, HEADER)], 0);
    TokensAreTokens(p[HEADER..TextEnd(p, HEADER)], 0);
    assert IsToken(tokens[0]);
    forall k | 0 <= k < |tokens[1..]| ensures IsToken(tokens[1..][k]) { assert IsToken(tokens[k + 1]); }
  }

  /** The server sees the client's call exactly when the name and all parameters are non-empty and free of the
      delimiter, and the count fits its byte. */
  lemma CallRoundTripIff(name: bytes, params: seq<bytes>, requirements: nat)
    requires NulFree(name) && AllNulFree(params) && requirements < WORD_RANGE
    ensures ParseCall(Packet(|params|, name, Flat(params), requirements)) == Some(Call(name, |params|, params))
      <==> IsToken(name) && AllTokens(params) && |params| <= 255
  {
    hide Packet, ParseCall, Flat;
    var p := Packet(|params|, name, Flat(params), requirements);
    if IsToken(name) && AllTokens(params) && |params| <= 255 {
      EmptyParamsAreDropped(name, params, requirements);
      NonEmptyAll(params);
    }
    if ParseCall(p) == Some(Call(name, |params|, params)) {
      ParsedAreTokens(p);
    }
  }

  /** The client's own packets on which the server leaves its memory: name and parameters together have no stretch
      without delimiters, or more of them behind the first than the count byte holds. */
  lemma ClientPacketFaultsIff(name: CString, params: seq<bytes>, requirements: nat)
    requires AllNulFree(params) && requirements < WORD_RANGE
    ensures var n := Starts(name + Flat(params), 0);
      ParseCall(Packet(|params|, name, Flat(params), requirements)).None? <==> n == 0 || n - 1 > |params| % 256
  {
    hide Packet, Flat, Tokens, Starts, TextEnd;
    FlatNulFree(params);
    PacketParts(|params|, name, Flat(params), requirements);
    ParseFaultsIff(Packet(|params|, name, Flat(params), requirements));
  }

  /** A delimiter in a name counts for one parameter more than the packet says. */
  lemma DelimiterInNameFaults()
    ensures ParseCall(Packet(0, [97, PIPE, 98], Flat([]), 0)).None?
  {
    ClientPacketFaultsIff([97, PIPE, 98], [], 0);
    assert Starts([97, PIPE, 98], 2) == 1;
    assert [97, PIPE, 98] + Flat([]) == [97, PIPE, 98];
  }

  lemma {:induction false} NonEmptyFewer(params: seq<bytes>)
    ensures |NonEmpty(params)| == |params| <==> forall k | 0 <= k < |params| :: params[k] != []
    decreases |params|
  {
    if params != [] {
      NonEmptyCount(params[1..]);
      NonEmptyFewer(params[1..]);
    }
  }

  /** A call whose name and parameters hold no delimiter is parsed; all parameters that the execution reads are there
      if and only if there is at least one and none is empty. */
  lemma ClientCallCompleteIff(name: bytes, params: seq<bytes>, requirements: nat)
    requires NulFree(name) && AllNulFree(params) && requirements < WORD_RANGE && |params| <= 255
    requires IsToken(name) && forall k | 0 <= k < |params| :: PipeFree(params[k])
    ensures var c := ParseCall(Packet(|params|, name, Flat(params), requirements));
      && c.Some?
      && (Complete(c.value) <==> params != [] && forall k | 0 <= k < |params| :: params[k] != [])
  {
    hide Packet, ParseCall, Flat, NonEmpty;
    EmptyParamsAreDropped(name, params, requirements);
    NonEmptyFewer(params);
  }

  /** The packet of a call of `f` with the parameter `x` and the requirements 0x01020304. */
  lemma PacketInBytes()
    ensures Packet(1, [102], Flat([[120]]), 0x01020304) == [0, 1, 2, 3, 4, 1, 102, 124, 120, 0]
  {
    assert Flat([[120]]) == [124] + [120] + Flat([]);
  }
}
