/** Trimming of text fields (`String.prototype.trim`), over a simplified set
    of whitespace characters. */
module TextTrim {

  /** Space, tab, line feed, vertical tab, form feed, carriage return,
      no-break space and the byte-order mark. */
  predicate IsWhitespace(c: char) {
    c == ' ' || c == '\t' || c == '\n' || c == '\U{B}' || c == '\U{C}' || c == '\r' ||
    c == '\U{A0}' || c == '\U{FEFF}'
  }

  predicate AllWhitespace(s: string) {
    forall i :: 0 <= i < |s| ==> IsWhitespace(s[i])
  }

  /** `s` neither starts nor ends with whitespace. */
  predicate IsTrimmed(s: string) {
    s == [] || (!IsWhitespace(s[0]) && !IsWhitespace(s[|s| - 1]))
  }

  /** How many whitespace characters `s` starts with. */
  function LeadingWhitespace(s: string): (k: nat)
    ensures k <= |s|
    ensures forall i :: 0 <= i < k ==> IsWhitespace(s[i])
    ensures k < |s| ==> !IsWhitespace(s[k])
  {
    if s != [] && IsWhitespace(s[0]) then
      var k := LeadingWhitespace(s[1..]);
      assert forall i :: 1 <= i < k + 1 ==> s[i] == s[1..][i - 1];
      k + 1
    else 0
  }

  /** How many whitespace characters `s` ends with. */
  function TrailingWhitespace(s: string): (k: nat)
    ensures k <= |s|
    ensures forall i :: |s| - k <= i < |s| ==> IsWhitespace(s[i])
    ensures k < |s| ==> !IsWhitespace(s[|s| - 1 - k])
  {
    if s != [] && IsWhitespace(s[|s| - 1]) then
      var k := TrailingWhitespace(s[..|s| - 1]);
      assert forall i :: |s| - 1 - k <= i < |s| - 1 ==> s[i] == s[..|s| - 1][i];
      k + 1
    else 0
  }

  /** `s` without its leading whitespace (`trimStart`). */
  function TrimStart(s: string): (r: string)
    ensures r == [] || !IsWhitespace(r[0])
  {
    s[LeadingWhitespace(s)..]
  }

  /** `s` without its trailing whitespace (`trimEnd`). */
  function TrimEnd(s: string): (r: string)
    ensures r == [] || !IsWhitespace(r[|r| - 1])
  {
    s[..|s| - TrailingWhitespace(s)]
  }

  /** `s` without leading and trailing whitespace. */
  function Trim(s: string): (r: string)
    ensures IsTrimmed(r)
    ensures |r| <= |s|
  {
    var t := TrimStart(s);
    var r := TrimEnd(t);
    assert r != [] ==> r[0] == t[0];
    r
  }

  /** Where the trimmed text starts in `s`. */
  function TrimOffset(s: string): (k: nat)
    ensures k + |Trim(s)| <= |s|
  {
    LeadingWhitespace(s)
  }

  /** What `Trim` keeps is the contiguous piece of `s` at `TrimOffset(s)`,
      and everything around it is whitespace. */
  lemma TrimIsSlice(s: string)
    ensures Trim(s) == s[TrimOffset(s)..TrimOffset(s) + |Trim(s)|]
    ensures AllWhitespace(s[..TrimOffset(s)])
    ensures AllWhitespace(s[TrimOffset(s) + |Trim(s)|..])
  {
  }

  /** Trimming gives the empty string exactly when `s` is all whitespace. */
  lemma TrimEmpty(s: string)
    ensures Trim(s) == [] <==> AllWhitespace(s)
  {
  }

  /** Text that is already trimmed is left alone. */
  lemma TrimTrimmed(s: string)
    requires IsTrimmed(s)
    ensures Trim(s) == s
  {
  }

  /** Trimming twice is trimming once. */
  lemma TrimIdempotent(s: string)
    ensures Trim(Trim(s)) == Trim(s)
  {
  }
}
