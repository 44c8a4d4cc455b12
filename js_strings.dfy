/** The parts of JavaScript's string library the core relies on: `trim`,
    `startsWith`, `indexOf`, `split` with a non-empty separator, `join` and
    `length` (which counts UTF-16 code units). A JavaScript string is modelled
    as a sequence of Unicode scalar values. */
module JsStrings {
  import opened Wrappers

  /** The ECMAScript WhiteSpace and LineTerminator code points: exactly what
      `String.prototype.trim` removes (TAB, VT, FF, the Zs category, BOM,
      LF, CR, LS, PS). */
  const JsWhitespace: set<char> := {
    '\t', '\n', '\U{B}', '\U{C}', '\r', ' ', '\U{A0}', '\U{1680}',
    '\U{2000}', '\U{2001}', '\U{2002}', '\U{2003}', '\U{2004}', '\U{2005}',
    '\U{2006}', '\U{2007}', '\U{2008}', '\U{2009}', '\U{200A}',
    '\U{2028}', '\U{2029}', '\U{202F}', '\U{205F}', '\U{3000}', '\U{FEFF}'
  }

  predicate IsJsWhitespace(c: char) {
    c in JsWhitespace
  }

  predicate AllWhitespace(s: string) {
    forall i | 0 <= i < |s| :: IsJsWhitespace(s[i])
  }

  /** The length of the leading run of white space. */
  function LeadingSpace(s: string): (k: nat)
    ensures k <= |s|
    ensures forall j | 0 <= j < k :: IsJsWhitespace(s[j])
    ensures k == |s| || !IsJsWhitespace(s[k])
  {
    if s != [] && IsJsWhitespace(s[0]) then
      var k := LeadingSpace(s[1..]);
      assert forall j | 1 <= j < k + 1 :: s[j] == s[1..][j - 1];
      1 + k
    else 0
  }

  /** `s.trimStart()`: drops the leading white space and nothing else. */
  function TrimStart(s: string): (r: string)
    ensures |r| <= |s|
    ensures forall j | 0 <= j < |r| :: r[j] == s[|s| - |r| + j]
    ensures forall j | 0 <= j < |s| - |r| :: IsJsWhitespace(s[j])
    ensures r == [] || !IsJsWhitespace(r[0])
  {
    s[LeadingSpace(s)..]
  }

  /** `s.trimEnd()`: drops the trailing white space and nothing else. */
  function TrimEnd(s: string): (r: string)
    ensures |r| <= |s|
    ensures forall j | 0 <= j < |r| :: r[j] == s[j]
    ensures forall j | |r| <= j < |s| :: IsJsWhitespace(s[j])
    ensures r == [] || !IsJsWhitespace(r[|r| - 1])
  {
    if s != [] && IsJsWhitespace(s[|s| - 1]) then TrimEnd(s[..|s| - 1]) else s
  }

  /** `s.trim()`. */
  function Trim(s: string): (r: string) {
    TrimEnd(TrimStart(s))
  }

  /** Neither starts nor ends with white space. */
  predicate IsTrimmed(s: string) {
    s == [] || (!IsJsWhitespace(s[0]) && !IsJsWhitespace(s[|s| - 1]))
  }

  /** What `trim` returns is trimmed. */
  lemma TrimIsTrimmed(s: string)
    ensures IsTrimmed(Trim(s))
  {
    var t := TrimStart(s);
    var r := TrimEnd(t);
    if r != [] {
      assert r[0] == t[0];
    }
  }

  /** Trimming a trimmed string changes nothing. */
  lemma TrimmedIsFixed(s: string)
    requires IsTrimmed(s)
    ensures Trim(s) == s
  {
    if s != [] {
      assert LeadingSpace(s) == 0;
    }
    assert TrimStart(s) == s;
    assert TrimEnd(s) == s;
  }

  /** Trimming is idempotent. */
  lemma TrimIdempotent(s: string)
    ensures Trim(Trim(s)) == Trim(s)
  {
    TrimIsTrimmed(s);
    TrimmedIsFixed(Trim(s));
  }

  /** `!s.trim()`: the string is empty once trimmed exactly when every one of
      its characters is white space. */
  lemma TrimEmptyIffBlank(s: string)
    ensures Trim(s) == [] <==> AllWhitespace(s)
  {
    var t := TrimStart(s);
    if !AllWhitespace(s) {
      var i :| 0 <= i < |s| && !IsJsWhitespace(s[i]);
      assert t[i - (|s| - |t|)] == s[i];
    }
  }

  /** A string the code treats as blank: `undefined`, empty, or white space only. */
  predicate IsBlank(s: string) {
    Trim(s) == []
  }

  /** `s.startsWith(prefix)`. */
  predicate StartsWith(s: string, prefix: string) {
    |prefix| <= |s| && s[..|prefix|] == prefix
  }

  /** `sep` occurs in `s` at position `i`. */
  predicate OccursAt(s: string, sep: string, i: nat) {
    i + |sep| <= |s| && s[i..i + |sep|] == sep
  }

  lemma OccursAtTail(s: string, sep: string, j: nat)
    requires s != []
    ensures OccursAt(s[1..], sep, j) <==> OccursAt(s, sep, j + 1)
  {
    if j + |sep| <= |s[1..]| {
      assert s[1..][j..j + |sep|] == s[j + 1..j + 1 + |sep|];
    }
  }

  /** `s.indexOf(sep)`, with `None` for -1: the first position where `sep` occurs. */
  function IndexOf(s: string, sep: string): (r: Option<nat>)
    ensures r.Some? ==> OccursAt(s, sep, r.value)
    ensures r.Some? ==> forall j: nat | j < r.value :: !OccursAt(s, sep, j)
    ensures r.None? ==> forall j: nat :: !OccursAt(s, sep, j)
  {
    if |s| < |sep| then None
    else if s[..|sep|] == sep then Some(0)
    else
      match IndexOf(s[1..], sep)
      case None =>
        assert forall j: nat :: !OccursAt(s, sep, j) by {
          forall j: nat ensures !OccursAt(s, sep, j) {
            if j > 0 { OccursAtTail(s, sep, j - 1); }
          }
        }
        None
      case Some(i) =>
        OccursAtTail(s, sep, i);
        assert forall j: nat | j < i + 1 :: !OccursAt(s, sep, j) by {
          forall j: nat | j < i + 1 ensures !OccursAt(s, sep, j) {
            if j > 0 { OccursAtTail(s, sep, j - 1); }
          }
        }
        Some(i + 1)
  }

  /** `s.includes(sep)`. */
  predicate Contains(s: string, sep: string) {
    IndexOf(s, sep).Some?
  }

  /** The text of `s` before the first `sep`, or all of `s` when there is none. */
  function Before(s: string, sep: string): (r: string) {
    match IndexOf(s, sep)
    case None => s
    case Some(i) => s[..i]
  }

  /** `s.split(sep)` for a non-empty separator: the pieces between the
      occurrences of `sep`, scanning left to right. */
  function Split(s: string, sep: string): (r: seq<string>)
    requires |sep| > 0
    ensures |r| >= 1 && r[0] == Before(s, sep)
    decreases |s|
  {
    match IndexOf(s, sep)
    case None => [s]
    case Some(i) => [s[..i]] + Split(s[i + |sep|..], sep)
  }

  /** `parts.join(sep)`. */
  function Join(parts: seq<string>, sep: string): (r: string) {
    if parts == [] then ""
    else if |parts| == 1 then parts[0]
    else parts[0] + sep + Join(parts[1..], sep)
  }

  lemma JoinCons(head: string, tail: seq<string>, sep: string)
    requires tail != []
    ensures Join([head] + tail, sep) == head + sep + Join(tail, sep)
  {
    assert ([head] + tail)[1..] == tail;
  }

  /** One step of `Split`: the first piece, then the split of what follows
      the first separator. */
  lemma SplitStep(s: string, sep: string, i: nat)
    requires |sep| > 0
    requires IndexOf(s, sep) == Some(i)
    ensures Split(s, sep) == [s[..i]] + Split(s[i + |sep|..], sep)
    ensures s == s[..i] + sep + s[i + |sep|..]
  {
    assert s[i..i + |sep|] == sep;
    assert s == s[..i] + s[i..i + |sep|] + s[i + |sep|..];
  }

  /** Joining the pieces with the separator gives back the string. */
  lemma {:induction false} JoinSplit(s: string, sep: string)
    requires |sep| > 0
    ensures Join(Split(s, sep), sep) == s
    decreases |s|
  {
    var idx := IndexOf(s, sep);
    if idx.Some? {
      var i := idx.value;
      var rest := s[i + |sep|..];
      SplitStep(s, sep, i);
      JoinSplit(rest, sep);
      JoinCons(s[..i], Split(rest, sep), sep);
    }
  }

  /** A string in which `sep` never occurs. */
  lemma NoOccurrence(s: string, sep: string)
    requires forall j: nat :: !OccursAt(s, sep, j)
    ensures !Contains(s, sep)
  {
  }

  /** No piece of a split contains the separator. */
  lemma {:induction false} SplitPiecesFree(s: string, sep: string)
    requires |sep| > 0
    ensures forall k | 0 <= k < |Split(s, sep)| :: !Contains(Split(s, sep)[k], sep)
    decreases |s|
  {
    var idx := IndexOf(s, sep);
    if idx.Some? {
      var i := idx.value;
      var rest := s[i + |sep|..];
      SplitStep(s, sep, i);
      SplitPiecesFree(rest, sep);
      forall j: nat ensures OccursAt(s[..i], sep, j) ==> OccursAt(s, sep, j) {
        if j + |sep| <= i {
          assert s[..i][j..j + |sep|] == s[j..j + |sep|];
        }
      }
      NoOccurrence(s[..i], sep);
    }
  }

  /** `s.split(sep)[1]`: defined exactly when `sep` occurs in `s`, and then it
      is the text after the first occurrence, up to the next one or the end. */
  lemma SplitSecond(s: string, sep: string)
    requires |sep| > 0
    ensures |Split(s, sep)| >= 2 <==> Contains(s, sep)
    ensures Contains(s, sep) ==>
      Split(s, sep)[1] == Before(s[IndexOf(s, sep).value + |sep|..], sep)
  {
    if Contains(s, sep) {
      SplitStep(s, sep, IndexOf(s, sep).value);
    }
  }

  /** The second piece of `prefix + sep + rest`, where `prefix` and `rest`
      hold no occurrence of `sep`, is `rest` — provided `sep` does not straddle
      the boundary between `prefix` and `sep`. */
  lemma SplitSecondOfJoined(prefix: string, sep: string, rest: string)
    requires |sep| > 0
    requires forall j: nat | j < |prefix| :: !OccursAt(prefix + sep + rest, sep, j)
    requires !Contains(rest, sep)
    ensures |Split(prefix + sep + rest, sep)| == 2
    ensures Split(prefix + sep + rest, sep)[1] == rest
  {
    var s := prefix + sep + rest;
    assert s[|prefix|..|prefix| + |sep|] == sep;
    assert OccursAt(s, sep, |prefix|);
    assert IndexOf(s, sep) == Some(|prefix|);
    assert s[|prefix| + |sep|..] == rest;
  }

  /** A one-character separator that does not occur in `s` is not found. */
  lemma IndexOfAbsentChar(s: string, c: char)
    requires c !in s
    ensures IndexOf(s, [c]).None?
  {
    forall j: nat | j < |s| ensures !OccursAt(s, [c], j) {
      assert s[j..j + 1] == [s[j]];
    }
  }

  /** `indexOf` finds the first occurrence. */
  lemma IndexOfFirst(s: string, sep: string, i: nat)
    requires OccursAt(s, sep, i)
    requires forall j: nat | j < i :: !OccursAt(s, sep, j)
    ensures IndexOf(s, sep) == Some(i)
  {
    var r := IndexOf(s, sep);
    assert r.Some?;
    assert !(r.value < i);
    assert !(r.value > i);
  }

  /** `s.lastIndexOf(c)`, with `None` for -1. */
  function LastIndexOfChar(s: string, c: char): (r: Option<nat>)
    ensures r.Some? ==> r.value < |s| && s[r.value] == c
    ensures r.Some? ==> forall j | r.value < j < |s| :: s[j] != c
    ensures r.None? <==> c !in s
  {
    if s == [] then None
    else if s[|s| - 1] == c then Some(|s| - 1)
    else
      assert s == s[..|s| - 1] + [s[|s| - 1]];
      LastIndexOfChar(s[..|s| - 1], c)
  }

  /** Splitting on a one-character separator undoes joining with it, when
      no part contains that character. */
  lemma {:induction false} SplitJoinChar(parts: seq<string>, c: char)
    requires |parts| >= 1
    requires forall k | 0 <= k < |parts| :: c !in parts[k]
    ensures Split(Join(parts, [c]), [c]) == parts
  {
    if |parts| == 1 {
      IndexOfAbsentChar(parts[0], c);
    } else {
      var p := parts[0];
      var tail := Join(parts[1..], [c]);
      var s := p + [c] + tail;
      assert Join(parts, [c]) == s;
      assert s[|p|..|p| + 1] == [c];
      forall j: nat | j < |p| ensures !OccursAt(s, [c], j) {
        assert s[j..j + 1] == [p[j]];
      }
      IndexOfFirst(s, [c], |p|);
      SplitStep(s, [c], |p|);
      assert s[..|p|] == p && s[|p| + 1..] == tail;
      SplitJoinChar(parts[1..], c);
      assert parts == [p] + parts[1..];
    }
  }

  /** `s.length`: the number of UTF-16 code units, two for every code point
      above U+FFFF. */
  function Utf16Length(s: string): (n: nat)
    ensures |s| <= n <= 2 * |s|
  {
    if s == [] then 0
    else (if s[0] as int > 0xFFFF then 2 else 1) + Utf16Length(s[1..])
  }
}
