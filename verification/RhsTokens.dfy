/**
 The token stream over the right-hand side of a `down_revision` assignment, and
 the rewriting of that text onto a new parent.

 The pattern is  #[^\n]*|["']([^"'\n]+)["']  scanned from left to right. At each
 position the comment alternative is tried first, then the quoted literal; the
 closing quote need not be of the opening kind.
 */
module RhsTokens {
  import opened Options

  predicate IsQuote(c: char) { c == '"' || c == '\'' }

  /** Characters a literal may hold: neither a quote nor a newline. */
  predicate InLiteral(c: char) { !IsQuote(c) && c != '\n' }

  /** What may stand between quotes in a revision file. */
  predicate IsId(id: string) {
    id != "" && forall i :: 0 <= i < |id| ==> InLiteral(id[i])
  }

  // ---------------------------------------------------------------- scanner

  /** The first offset from `i` on that holds a newline, or the end. */
  function LineEnd(s: string, i: nat): (e: nat)
    requires i <= |s|
    ensures i <= e <= |s| && (e < |s| ==> s[e] == '\n')
    ensures forall x :: i <= x < e ==> s[x] != '\n'
    decreases |s| - i
  {
    if i == |s| || s[i] == '\n' then i else LineEnd(s, i + 1)
  }

  /** The first offset from `i` on that holds a quote or a newline, or the end. */
  function RunEnd(s: string, i: nat): (e: nat)
    requires i <= |s|
    ensures i <= e <= |s| && (e < |s| ==> !InLiteral(s[e]))
    ensures forall x :: i <= x < e ==> InLiteral(s[x])
    decreases |s| - i
  {
    if i == |s| || !InLiteral(s[i]) then i else RunEnd(s, i + 1)
  }

  datatype Match = NoMatch | Comment(end: nat) | Literal(end: nat)

  /** The match of the pattern that starts at offset `i`. */
  function MatchAt(s: string, i: nat): (m: Match)
    requires i < |s|
    ensures m.Comment? ==> i < m.end <= |s| && s[i] == '#'
    ensures m.Literal? ==> i + 2 < m.end <= |s| && IsQuote(s[i])
  {
    if s[i] == '#' then Comment(LineEnd(s, i + 1))
    else if IsQuote(s[i]) then
      var e := RunEnd(s, i + 1);
      if i + 1 < e < |s| && IsQuote(s[e]) then Literal(e + 1) else NoMatch
    else NoMatch
  }

  /** Where the scan goes on after offset `i`. */
  function Next(s: string, i: nat): (n: nat)
    requires i < |s|
    ensures i < n <= |s|
  {
    var m := MatchAt(s, i);
    if m == NoMatch then i + 1 else m.end
  }

  /** The literal that starts at `i`, as a sequence of at most one text. */
  function LiteralAt(s: string, i: nat): seq<string>
    requires i < |s|
  {
    var m := MatchAt(s, i);
    if m.Literal? then [s[i + 1..m.end - 1]] else []
  }

  function RefsFrom(s: string, i: nat): seq<string>
    requires i <= |s|
    decreases |s| - i
  {
    if i == |s| then [] else LiteralAt(s, i) + RefsFrom(s, Next(s, i))
  }

  /** The parents a right-hand side declares, in order. */
  function ParentRefs(s: string): seq<string> { RefsFrom(s, 0) }

  /** Offset of the first literal from `i` on that spells `id`. */
  function FindLiteral(s: string, id: string, i: nat): (r: Option<nat>)
    requires i <= |s|
    ensures r.Some? ==> i <= r.value < |s| && LiteralAt(s, r.value) == [id]
                        && MatchAt(s, r.value) == Literal(r.value + |id| + 2)
    decreases |s| - i
  {
    if i == |s| then None
    else if LiteralAt(s, i) == [id] then Some(i)
    else FindLiteral(s, id, Next(s, i))
  }

  /** Offset of the first comment from `i` on. */
  function FindComment(s: string, i: nat): (r: Option<nat>)
    requires i <= |s|
    ensures r.Some? ==> i <= r.value < |s| && MatchAt(s, r.value).Comment?
    decreases |s| - i
  {
    if i == |s| then None
    else if MatchAt(s, i).Comment? then Some(i)
    else FindComment(s, Next(s, i))
  }

  /** Literals and comments from `i` on overwritten by spaces; offsets are kept. */
  function Blanked(s: string, i: nat): (r: string)
    requires i <= |s|
    ensures |r| == |s| - i
    decreases |s| - i
  {
    if i == |s| then ""
    else if MatchAt(s, i) == NoMatch then [s[i]] + Blanked(s, i + 1)
    else seq(Next(s, i) - i, _ => ' ') + Blanked(s, Next(s, i))
  }

  // -------------------------------------------------------------- root None

  predicate IsStripped(c: char) { c == ' ' || c == '\t' || c == '\r' || c == '\n' || c == '(' || c == ')' }

  predicate IsWordChar(c: char) {
    'a' <= c <= 'z' || 'A' <= c <= 'Z' || '0' <= c <= '9' || c == '_'
  }

  /** How many characters `strip` takes off the front. */
  function StripStart(s: string, i: nat): (r: nat)
    requires i <= |s|
    ensures i <= r <= |s| && (r < |s| ==> !IsStripped(s[r]))
    ensures forall x :: i <= x < r ==> IsStripped(s[x])
    decreases |s| - i
  {
    if i < |s| && IsStripped(s[i]) then StripStart(s, i + 1) else i
  }

  /** Where the text ends once `strip` has taken characters off the back. */
  function StripEnd(s: string, start: nat, end: nat): (r: nat)
    requires start <= end <= |s|
    ensures start <= r <= end && (start < r ==> !IsStripped(s[r - 1]))
    ensures forall x :: r <= x < end ==> IsStripped(s[x])
  {
    if start < end && IsStripped(s[end - 1]) then StripEnd(s, start, end - 1) else end
  }

  predicate SpellsNone(s: string, k: nat) {
    k + 4 <= |s| && s[k] == 'N' && s[k + 1] == 'o' && s[k + 2] == 'n' && s[k + 3] == 'e'
  }

  /** What `strip` leaves of `s` is the word None. */
  predicate StripsToNone(s: string) {
    var start := StripStart(s, 0);
    StripEnd(s, start, |s|) == start + 4 && SpellsNone(s, start)
  }

  /** The word None stands at `k`, with a word boundary on either side. */
  predicate WordNoneAt(s: string, k: nat) {
    SpellsNone(s, k)
    && (k == 0 || !IsWordChar(s[k - 1]))
    && (k + 4 == |s| || !IsWordChar(s[k + 4]))
  }

  function SearchNone(s: string, k: nat): (r: Option<nat>)
    requires k <= |s|
    ensures r.Some? ==> k <= r.value && WordNoneAt(s, r.value)
    ensures forall i :: k <= i < (if r.Some? then r.value else |s|) ==> !WordNoneAt(s, i)
    decreases |s| - k
  {
    if WordNoneAt(s, k) then Some(k)
    else if k == |s| then None
    else SearchNone(s, k + 1)
  }

  /** Offset of the None token of a chain root's right-hand side. */
  function RootNone(s: string): (r: Option<nat>)
    ensures r.Some? ==> r.value + 4 <= |s|
  {
    if !StripsToNone(Blanked(s, 0)) then None else SearchNone(Blanked(s, 0), 0)
  }

  // -------------------------------------------------------------- rewriting

  /** `str.isspace`, code point by code point. */
  predicate IsSpace(c: char) {
    '\t' <= c <= '\r' || '\U{1c}' <= c <= ' ' || c == '\U{85}' || c == '\U{a0}' || c == '\U{1680}'
    || '\U{2000}' <= c <= '\U{200a}' || c == '\U{2028}' || c == '\U{2029}' || c == '\U{202f}'
    || c == '\U{205f}' || c == '\U{3000}'
  }

  /** Where the white space at the end of `s[..end]` begins. */
  function SpaceStart(s: string, end: nat): (r: nat)
    requires end <= |s|
    ensures r <= end && (0 < r ==> !IsSpace(s[r - 1]))
    ensures forall x :: r <= x < end ==> IsSpace(s[x])
  {
    if 0 < end && IsSpace(s[end - 1]) then SpaceStart(s, end - 1) else end
  }

  /** The single parent a right-hand side declares, if it declares exactly one. */
  function OldParent(rhs: string): Option<string> {
    if |ParentRefs(rhs)| == 1 then Some(ParentRefs(rhs)[0]) else None
  }

  /** `text` with the characters from `start` to `end` replaced. */
  function Replace(text: string, start: nat, end: nat, put: string): (r: string)
    requires start <= end <= |text|
    ensures |r| == |text| - (end - start) + |put|
  {
    text[..start] + put + text[end..]
  }

  function Quoted(quote: char, id: string): (r: string)
    ensures |r| == |id| + 2
  {
    [quote] + id + [quote]
  }

  /** The right-hand side of the edited `down_revision` line. */
  function Rewrite(rhs: string, oldParent: Option<string>, newParent: string): string {
    var literal := if oldParent.Some? then FindLiteral(rhs, oldParent.value, 0) else None;
    if literal.Some? then
      var k := literal.value;
      Replace(rhs, k, MatchAt(rhs, k).end, Quoted(rhs[k], newParent))
    else if RootNone(rhs).Some? then
      var k := RootNone(rhs).value;
      Replace(rhs, k, k + 4, Quoted('"', newParent))
    else
      var comment := match FindComment(rhs, 0) case Some(k) => k case None => |rhs|;
      Replace(rhs, 0, SpaceStart(rhs, comment), Quoted('"', newParent))
  }
}
