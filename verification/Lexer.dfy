/** Byte scanning shared by the manifest parsers. A Go byte slice is a `string`
    here; a position is an absolute index into it. */
module Lexer {

  predicate IsWhitespace(c: char) {
    c == ' ' || c == '\t' || c == '\r' || c == '\n'
  }

  /** Position of the first `c` at or after `i`, or `|buf|`: `bytes.IndexByte`
      on `buf[i:]`, with the end in place of -1. */
  function IndexByte(buf: string, i: nat, c: char): (r: nat)
    requires i <= |buf|
    ensures i <= r <= |buf|
    ensures forall k :: i <= k < r ==> buf[k] != c
    ensures r < |buf| ==> buf[r] == c
    decreases |buf| - i
  {
    if i == |buf| || buf[i] == c then i else IndexByte(buf, i + 1, c)
  }

  /** Is the newline at `nl` escaped by `$` or `$\r` lying at or after `s`? */
  predicate EscapedFrom(buf: string, s: nat, nl: nat)
    requires s <= nl < |buf|
  {
    || (nl - s > 1 && buf[nl - 2] == '$' && buf[nl - 1] == '\r')
    || (nl - s > 0 && buf[nl - 1] == '$')
  }

  /** `findNextLine`: the end of the logical line at `s`. */
  function NextLine(buf: string, s: nat): (r: nat)
    requires s <= |buf|
    ensures s <= r <= |buf|
    ensures s < |buf| ==> s < r
    decreases |buf| - s
  {
    var nl := IndexByte(buf, s, '\n');
    if nl == |buf| then |buf|
    else if EscapedFrom(buf, s, nl) then NextLine(buf, nl + 1)
    else nl + 1
  }

  method FindNextLine(buf: string, s: nat) returns (r: nat)
    requires s <= |buf|
    ensures r == NextLine(buf, s)
  {
    var s' := s;
    while true
      invariant s' <= |buf| && NextLine(buf, s') == NextLine(buf, s)
      decreases |buf| - s'
    {
      var i := IndexByte(buf, s', '\n');
      if i == |buf| {
        return |buf|;
      }
      if i - s' > 1 && buf[i - 2] == '$' && buf[i - 1] == '\r' {
        s' := i + 1;
        continue;
      }
      if i - s' > 0 && buf[i - 1] == '$' {
        s' := i + 1;
        continue;
      }
      return i + 1;
    }
  }

  /** `skipSpaces` in `buf[..end]` from `pos`: the first position that is not
      whitespace nor a `$`-escaped newline, space or tab. */
  function SkipSpaces(buf: string, pos: nat, end: nat): (r: nat)
    requires pos <= end <= |buf|
    ensures pos <= r <= end
    decreases end - pos
  {
    if pos == end then pos
    else if IsWhitespace(buf[pos]) then SkipSpaces(buf, pos + 1, end)
    else if buf[pos] != '$' || pos + 1 == end then pos
    else if buf[pos + 1] == '\n' || buf[pos + 1] == ' ' || buf[pos + 1] == '\t' then SkipSpaces(buf, pos + 2, end)
    else if buf[pos + 1] == '\r' && pos + 2 < end && buf[pos + 2] == '\n' then SkipSpaces(buf, pos + 3, end)
    else pos
  }

  method SkipSpacesLoop(buf: string, pos: nat, end: nat) returns (r: nat)
    requires pos <= end <= |buf|
    ensures r == SkipSpaces(buf, pos, end)
  {
    r := pos;
    while true
      invariant pos <= r <= end && SkipSpaces(buf, r, end) == SkipSpaces(buf, pos, end)
      decreases end - r
    {
      while r < end && IsWhitespace(buf[r])
        invariant pos <= r <= end && SkipSpaces(buf, r, end) == SkipSpaces(buf, pos, end)
      {
        r := r + 1;
      }
      if r == end || buf[r] != '$' || r + 1 == end {
        return;
      }
      if buf[r + 1] == '\n' || buf[r + 1] == ' ' || buf[r + 1] == '\t' {
        r := r + 2;
      } else if buf[r + 1] == '\r' && r + 2 < end && buf[r + 2] == '\n' {
        r := r + 3;
      } else {
        return;
      }
    }
  }
}
