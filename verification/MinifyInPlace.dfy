/** `cJSON_Minify` on the buffer itself: the write position never passes the read position. */
module MinifyInPlace {
  import opened CText
  import opened Literals
  import opened Minify

  /** The buffer still holds the text and its terminator from `i` on. */
  ghost predicate Unread(json: array<byte>, t: CString, i: nat)
    reads json
  {
    |t| < json.Length && forall k | i <= k <= |t| :: json[k] == C(t, k)
  }

  /** The loop over a line comment. */
  method SkipLine(json: array<byte>, ghost t: CString, start: nat) returns (pos: nat)
    requires start <= |t| && Unread(json, t, start)
    ensures pos == LineEnd(t, start)
  {
    pos := start;
    while json[pos] != 0 && json[pos] != NEWLINE
      invariant start <= pos <= |t| && LineEnd(t, pos) == LineEnd(t, start)
      decreases |t| - pos
    {
      pos := pos + 1;
    }
  }

  /** The loop over a block comment, up to its closing mark or the terminator. */
  method SkipComment(json: array<byte>, ghost t: CString, start: nat) returns (pos: nat)
    requires start <= |t| && Unread(json, t, start)
    ensures pos == CommentEnd(t, start)
  {
    pos := start;
    while json[pos] != 0 && !(json[pos] == STAR && json[pos + 1] == SLASH)
      invariant start <= pos <= |t| && CommentEnd(t, pos) == CommentEnd(t, start)
      decreases |t| - pos
    {
      pos := pos + 1;
    }
  }

  lemma Snoc(a: bytes, t: CString, i: nat, k: nat)
    requires i <= k < |t|
    ensures a + t[i..k] + [t[k]] == a + t[i..k + 1]
  {
  }

  /** The copy of `t` from `begin` to `pos` stands behind `before`, and the buffer behind the text is as it was. */
  ghost predicate Copied(json: array<byte>, t: CString, into: nat, begin: nat, pos: nat, before: bytes, tail: bytes)
    reads json
  {
    && into <= pos && begin <= pos <= |t| < json.Length
    && json[..into] == before + t[begin..pos] && json[|t| + 1..] == tail
  }

  /** `*into++ = *json++`: the copy grows by one character. */
  method CopyChar(json: array<byte>, ghost t: CString, into: nat, pos: nat, ghost before: bytes,
          ghost begin: nat, ghost tail: bytes)
    requires pos < |t| && Unread(json, t, pos) && Copied(json, t, into, begin, pos, before, tail)
    modifies json
    ensures Unread(json, t, pos + 1) && Copied(json, t, into + 1, begin, pos + 1, before, tail)
  {
    Snoc(before, t, begin, pos);
    json[into] := json[pos];
    assert json[..into + 1] == old(json[..into]) + [t[pos]];
  }

  /** The loop over a string literal whose closing quote is at `e`. */
  method CopyLiteral(json: array<byte>, ghost t: CString, start: nat, begin: nat, ghost e: nat,
          ghost before: bytes, ghost tail: bytes)
    returns (into: nat, pos: nat)
    requires begin < |t| && t[begin] == QUOTE && Unread(json, t, begin)
    requires e == ScanEnd(t, begin + 1) < |t| && Copied(json, t, start, begin, begin, before, tail)
    modifies json
    ensures pos == e + 1 && into == start + (pos - begin)
    ensures Unread(json, t, pos) && Copied(json, t, into, begin, pos, before, tail)
  {
    hide Copied;
    into, pos := start, begin;
    CopyChar(json, t, into, pos, before, begin, tail);
    into, pos := into + 1, pos + 1;
    while json[pos] != 0 && json[pos] != QUOTE
      invariant begin < pos <= e && into == start + (pos - begin)
      invariant ScanEnd(t, pos) == e
      invariant Unread(json, t, pos) && Copied(json, t, into, begin, pos, before, tail)
      decreases e - pos
    {
      if json[pos] == BACKSLASH {
        CopyChar(json, t, into, pos, before, begin, tail);
        into, pos := into + 1, pos + 1;
      }
      CopyChar(json, t, into, pos, before, begin, tail);
      into, pos := into + 1, pos + 1;
    }
    CopyChar(json, t, into, pos, before, begin, tail);
    into, pos := into + 1, pos + 1;
  }

  /** One round of the loop, for any unit that is not copied. */
  lemma DropUnit(t: CString, pos: nat, kept: bytes)
    requires pos < |t| && !IsCopied(t, pos) && UnitEnd(t, pos) <= |t| && Keeps(t, 0, pos, kept)
    ensures Keeps(t, 0, UnitEnd(t, pos), kept)
  {
  }

  lemma CopyUnit(t: CString, pos: nat, kept: bytes)
    requires pos < |t| && IsCopied(t, pos) && UnitEnd(t, pos) <= |t| && Keeps(t, 0, pos, kept)
    ensures Keeps(t, 0, UnitEnd(t, pos), kept + t[pos..UnitEnd(t, pos)])
  {
    KeepsBoth(t, 0, pos, UnitEnd(t, pos), kept, t[pos..UnitEnd(t, pos)]);
  }

  lemma NoOverrun(t: CString, pos: nat, kept: bytes)
    requires pos < |t| && Keeps(t, 0, pos, kept) && Minified(t, 0).Some?
    ensures UnitEnd(t, pos) <= |t|
  {
  }

  /** `cJSON_Minify`. Whatever follows the terminator of the original text stays as it was. */
  method MinifyText(json: array<byte>, ghost t: CString)
    requires Unread(json, t, 0) && Minified(t, 0).Some?
    modifies json
    ensures json[..|Minified(t, 0).value|] == Minified(t, 0).value
    ensures json[|Minified(t, 0).value|] == 0
    ensures json[|t| + 1..] == old(json[|t| + 1..])
  {
    hide Minified;
    var into: nat, pos: nat := 0, 0;
    KeepsNothing(t, 0);
    while json[pos] != 0
      invariant into <= pos <= |t| && Unread(json, t, pos)
      invariant Keeps(t, 0, pos, json[..into])
      invariant json[|t| + 1..] == old(json[|t| + 1..])
      decreases |t| - pos
    {
      NoOverrun(t, pos, json[..into]);
      if json[pos] == SPACE || json[pos] == TAB || json[pos] == RETURN || json[pos] == NEWLINE {
        DropUnit(t, pos, json[..into]);
        pos := pos + 1;
      } else if json[pos] == SLASH && json[pos + 1] == SLASH {
        DropUnit(t, pos, json[..into]);
        pos := SkipLine(json, t, pos);
      } else if json[pos] == SLASH && json[pos + 1] == STAR {
        DropUnit(t, pos, json[..into]);
        pos := SkipComment(json, t, pos);
        pos := pos + 2;
      } else if json[pos] == QUOTE {
        CopyUnit(t, pos, json[..into]);
        assert json[..into] + t[pos..pos] == json[..into];
        into, pos := CopyLiteral(json, t, into, pos, ScanEnd(t, pos + 1), json[..into], json[|t| + 1..]);
      } else {
        CopyUnit(t, pos, json[..into]);
        assert json[..into] + t[pos..pos] == json[..into];
        CopyChar(json, t, into, pos, json[..into], pos, json[|t| + 1..]);
        into, pos := into + 1, pos + 1;
      }
    }
    KeepsAll(t, json[..into]);
    json[into] := 0;
  }
}
