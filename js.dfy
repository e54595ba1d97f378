/** The pieces of JavaScript semantics the handlers rely on: thrown values
    as a `catch` block sees them, falsiness of optional strings, and the
    String methods `slice`, `startsWith`, `indexOf`/`includes`, `split`,
    `trim` and `toLowerCase`, over strings as sequences of characters. */
module Js {
  import opened Wrappers

  /** A value caught by `catch (error)`: its `message` and `code` properties,
      each of which may be undefined (a FileReader's error event has neither). */
  datatype Thrown = Thrown(message: Option<string>, code: Option<int>)

  /** `new Error(message)`. */
  function NewError(message: string): Thrown {
    Thrown(Some(message), None)
  }

  /** `${error.message}` in a template literal: an undefined message prints as "undefined". */
  function MessageText(e: Thrown): string {
    match e.message
    case Some(m) => m
    case None => "undefined"
  }

  /** JavaScript truthiness of a string that may be null or undefined. */
  predicate Truthy(s: Option<string>) {
    s.Some? && s.value != ""
  }

  function Min(a: int, b: int): int {
    if a <= b then a else b
  }

  // ---------------------------------------------------------------- slice

  /** How `slice` turns an argument into a position: negative values count
      back from the end, and the result is clamped to 0..n. */
  function ClampIndex(i: int, n: nat): (r: nat)
    ensures r <= n
  {
    if i < 0 then (if n + i < 0 then 0 else n + i) else if i > n then n else i
  }

  /** `s.slice(start, end)`. */
  function Slice(s: string, start: int, end: int): (r: string)
    ensures |r| <= |s|
    ensures 0 <= start <= end <= |s| ==> r == s[start..end]
  {
    var from, to := ClampIndex(start, |s|), ClampIndex(end, |s|);
    if from < to then s[from..to] else ""
  }

  /** `s.slice(start)`: the end defaults to the length. */
  function SliceFrom(s: string, start: int): (r: string)
    ensures |r| <= |s|
  {
    Slice(s, start, |s|)
  }

  /** `s.slice(0, k)` keeps the first k characters, or all of a shorter string. */
  lemma SliceHead(s: string, k: nat)
    ensures Slice(s, 0, k) == s[..Min(k, |s|)]
  {
  }

  /** `s.slice(-k)` for k > 0 keeps the last k characters, or all of a shorter
      string. (For k = 0 it would keep everything, since -0 is 0.) */
  lemma SliceTail(s: string, k: nat)
    requires k > 0
    ensures SliceFrom(s, -(k as int)) == s[|s| - Min(k, |s|)..]
  {
  }

  // ------------------------------------------------- startsWith, indexOf

  /** `s.startsWith(p)`. */
  predicate StartsWith(s: string, p: string) {
    |p| <= |s| && s[..|p|] == p
  }

  /** p occurs in s at position i. */
  predicate OccursAt(s: string, p: string, i: nat) {
    i + |p| <= |s| && s[i..i + |p|] == p
  }

  /** An occurrence fixes each character it covers. */
  lemma OccursAtChar(s: string, p: string, i: nat, k: nat)
    requires k < |p|
    ensures OccursAt(s, p, i) ==> i + k < |s| && s[i + k] == p[k]
  {
    if OccursAt(s, p, i) {
      assert s[i..i + |p|][k] == s[i + k];
    }
  }

  /** `s.indexOf(p, from)`: the first occurrence at or after `from`, or -1. */
  function IndexOfFrom(s: string, p: string, from: nat): (r: int)
    requires from <= |s|
    ensures r == -1 || (from <= r && OccursAt(s, p, r))
    ensures r == -1 ==> forall j: nat :: from <= j ==> !OccursAt(s, p, j)
    ensures r != -1 ==> forall j: nat :: from <= j < r ==> !OccursAt(s, p, j)
    decreases |s| - from
  {
    if OccursAt(s, p, from) then from
    else if from == |s| then -1
    else IndexOfFrom(s, p, from + 1)
  }

  /** `s.indexOf(p)`. */
  function IndexOf(s: string, p: string): (r: int)
    ensures r == -1 || (0 <= r && OccursAt(s, p, r))
    ensures r == -1 ==> forall j: nat :: !OccursAt(s, p, j)
    ensures r != -1 ==> forall j: nat :: j < r ==> !OccursAt(s, p, j)
  {
    IndexOfFrom(s, p, 0)
  }

  /** `s.includes(p)`. */
  predicate Includes(s: string, p: string) {
    IndexOf(s, p) >= 0
  }

  /** `includes` holds exactly when p occurs somewhere in s. */
  lemma IncludesIff(s: string, p: string)
    ensures Includes(s, p) <==> exists i: nat :: OccursAt(s, p, i)
  {
    if Includes(s, p) {
      assert OccursAt(s, p, IndexOf(s, p));
    }
  }

  /** No occurrence lies wholly inside the text before the first occurrence. */
  lemma NothingBeforeFirst(s: string, p: string, i: nat)
    requires |p| > 0 && i <= |s|
    requires forall j: nat :: j < i ==> !OccursAt(s, p, j)
    ensures !Includes(s[..i], p)
  {
    var t := s[..i];
    if Includes(t, p) {
      var j: nat := IndexOf(t, p);
      assert t[j..j + |p|] == s[j..j + |p|];
      assert OccursAt(s, p, j);
    }
  }

  // ---------------------------------------------------------------- split

  /** `parts.join(sep)`. */
  function Join(parts: seq<string>, sep: string): string
    decreases |parts|
  {
    if |parts| == 0 then ""
    else if |parts| == 1 then parts[0]
    else parts[0] + sep + Join(parts[1..], sep)
  }

  /** `s.split(sep)` for a non-empty separator: the pieces between the
      occurrences of `sep`, found left to right without overlap. */
  function Split(s: string, sep: string): (parts: seq<string>)
    requires |sep| > 0
    ensures |parts| >= 1
    decreases |s|
  {
    var i := IndexOf(s, sep);
    if i < 0 then [s] else [s[..i]] + Split(s[i + |sep|..], sep)
  }

  /** When s contains sep, its pieces are the text before the first
      occurrence followed by the pieces of what comes after it. */
  lemma SplitAtFirst(s: string, sep: string)
    requires |sep| > 0 && Includes(s, sep)
    ensures var i := IndexOf(s, sep);
      i + |sep| <= |s| && Split(s, sep) == [s[..i]] + Split(s[i + |sep|..], sep)
  {
  }

  /** Joining a first piece to the others puts the separator between. */
  lemma JoinCons(p: string, rest: seq<string>, sep: string)
    requires |rest| >= 1
    ensures Join([p] + rest, sep) == p + sep + Join(rest, sep)
  {
    assert ([p] + rest)[1..] == rest;
  }

  /** Joining the pieces with `sep` gives `s` back. */
  lemma {:induction false} SplitJoin(s: string, sep: string)
    requires |sep| > 0
    ensures Join(Split(s, sep), sep) == s
    decreases |s|
  {
    if Includes(s, sep) {
      var i := IndexOf(s, sep);
      var rest := s[i + |sep|..];
      SplitAtFirst(s, sep);
      SplitJoin(rest, sep);
      JoinCons(s[..i], Split(rest, sep), sep);
      assert s == s[..i] + sep + rest by {
        assert s[i..i + |sep|] == sep;
        assert s == s[..i] + s[i..i + |sep|] + rest;
      }
    }
  }

  /** Where piece k starts in the string the pieces were split from: the
      earlier pieces and one separator after each. */
  function PieceStart(parts: seq<string>, sep: string, k: nat): nat
    requires k <= |parts|
    decreases k
  {
    if k == 0 then 0 else |parts[0]| + |sep| + PieceStart(parts[1..], sep, k - 1)
  }

  /** Piece p stands at st in s, no separator starts inside it, and after
      it either s ends (the last piece) or a separator follows. */
  predicate PieceAt(s: string, sep: string, p: string, st: nat, last: bool) {
    && OccursAt(s, p, st)
    && (forall j: nat :: st <= j < st + |p| ==> !OccursAt(s, sep, j))
    && (if last then st + |p| == |s| else OccursAt(s, sep, st + |p|))
  }

  /** The pieces are cut at the leftmost occurrences of sep, one after
      the other. */
  predicate CutsLeftmost(s: string, sep: string, parts: seq<string>) {
    forall k :: 0 <= k < |parts| ==>
      PieceAt(s, sep, parts[k], PieceStart(parts, sep, k), k + 1 == |parts|)
  }

  /** A piece of the suffix s[off..] is a piece of s, shifted by off. */
  lemma PieceShift(s: string, sep: string, p: string, off: nat, st: nat, last: bool)
    requires off <= |s| && PieceAt(s[off..], sep, p, st, last)
    ensures PieceAt(s, sep, p, off + st, last)
  {
    OccursShift(s, p, off, st);
    OccursShift(s, sep, off, st + |p|);
    forall j: nat | off + st <= j < off + st + |p|
      ensures !OccursAt(s, sep, j)
    {
      OccursShift(s, sep, off, j - off);
    }
  }

  /** Without an occurrence, s is its own only piece. */
  lemma WholePiece(s: string, sep: string)
    requires !Includes(s, sep)
    ensures PieceAt(s, sep, s, 0, true)
  {
    assert s[0..|s|] == s;
  }

  /** The text before the first occurrence is a piece at 0. */
  lemma PieceBeforeFirst(s: string, sep: string)
    requires Includes(s, sep)
    ensures PieceAt(s, sep, s[..IndexOf(s, sep)], 0, false)
  {
    assert s[0..IndexOf(s, sep)] == s[..IndexOf(s, sep)];
  }

  /** Piece k + 1 after a first piece p is piece k of the rest, shifted past
      p and the separator. */
  lemma ConsPieceAt(s: string, sep: string, i: nat, tail: seq<string>, k: nat)
    requires i + |sep| <= |s| && k < |tail|
    requires PieceAt(s[i + |sep|..], sep, tail[k], PieceStart(tail, sep, k), k + 1 == |tail|)
    ensures PieceAt(s, sep, ([s[..i]] + tail)[k + 1], PieceStart([s[..i]] + tail, sep, k + 1),
                    k + 2 == |[s[..i]] + tail|)
  {
    var parts := [s[..i]] + tail;
    assert parts[1..] == tail;
    assert PieceStart(parts, sep, k + 1) == i + |sep| + PieceStart(tail, sep, k);
    PieceShift(s, sep, tail[k], i + |sep|, PieceStart(tail, sep, k), k + 1 == |tail|);
  }

  /** Cutting at the first occurrence and then leftmost in the rest cuts
      leftmost in s. */
  lemma CutsLeftmostCons(s: string, sep: string, i: nat, tail: seq<string>)
    requires i + |sep| <= |s| && |tail| >= 1
    requires PieceAt(s, sep, s[..i], 0, false)
    requires CutsLeftmost(s[i + |sep|..], sep, tail)
    ensures CutsLeftmost(s, sep, [s[..i]] + tail)
  {
    var parts := [s[..i]] + tail;
    forall k | 0 <= k < |parts|
      ensures PieceAt(s, sep, parts[k], PieceStart(parts, sep, k), k + 1 == |parts|)
    {
      if k > 0 {
        ConsPieceAt(s, sep, i, tail, k - 1);
      }
    }
  }

  /** `split` cuts at the leftmost occurrence, piece by piece. */
  lemma {:induction false} SplitLeftmost(s: string, sep: string)
    requires |sep| > 0
    ensures CutsLeftmost(s, sep, Split(s, sep))
    decreases |s|
  {
    if !Includes(s, sep) {
      WholePiece(s, sep);
      assert Split(s, sep) == [s];
    } else {
      var i := IndexOf(s, sep);
      var rest := s[i + |sep|..];
      SplitAtFirst(s, sep);
      var tail := Split(rest, sep);
      assert Split(s, sep) == [s[..i]] + tail;
      SplitLeftmost(rest, sep);
      PieceBeforeFirst(s, sep);
      CutsLeftmostCons(s, sep, i, tail);
    }
  }

  /** An occurrence inside p, where p stands at st in s, is one in s. */
  lemma OccursInside(s: string, p: string, st: nat, sep: string, j: nat)
    requires OccursAt(s, p, st)
    ensures OccursAt(p, sep, j) ==> OccursAt(s, sep, st + j)
  {
    if OccursAt(p, sep, j) {
      forall m | 0 <= m < |sep|
        ensures s[st + j + m] == sep[m]
      {
        assert p[j..j + |sep|][m] == p[j + m];
        assert s[st..st + |p|][j + m] == s[st + j + m];
      }
      assert s[st + j..st + j + |sep|] == sep;
    }
  }

  /** A piece no separator starts inside contains no separator. */
  lemma PieceFree(s: string, sep: string, p: string, st: nat, last: bool)
    requires |sep| > 0 && PieceAt(s, sep, p, st, last)
    ensures !Includes(p, sep)
  {
    var i := IndexOf(p, sep);
    var j: nat := if i >= 0 then i else 0;
    OccursInside(s, p, st, sep, j);
  }

  /** No piece contains the separator. */
  lemma SplitPiecesFree(s: string, sep: string)
    requires |sep| > 0
    ensures forall k :: 0 <= k < |Split(s, sep)| ==> !Includes(Split(s, sep)[k], sep)
  {
    var parts := Split(s, sep);
    SplitLeftmost(s, sep);
    forall k | 0 <= k < |parts|
      ensures !Includes(parts[k], sep)
    {
      PieceFree(s, sep, parts[k], PieceStart(parts, sep, k), k + 1 == |parts|);
    }
  }

  /** Joining the pieces with `sep` gives `s` back, no piece contains
      `sep`, and each cut is the leftmost occurrence after the previous
      one. */
  lemma SplitSpec(s: string, sep: string)
    requires |sep| > 0
    ensures Join(Split(s, sep), sep) == s
    ensures forall k :: 0 <= k < |Split(s, sep)| ==> !Includes(Split(s, sep)[k], sep)
    ensures CutsLeftmost(s, sep, Split(s, sep))
  {
    SplitJoin(s, sep);
    SplitPiecesFree(s, sep);
    SplitLeftmost(s, sep);
  }

  /** The first piece is a prefix of s without the separator, no
      occurrence of the separator starts inside it, and s either ends with
      it or continues with the separator. */
  lemma FirstPiece(s: string, sep: string)
    requires |sep| > 0
    ensures var p := Split(s, sep)[0];
      |p| <= |s| && s[..|p|] == p && !Includes(p, sep) && (|p| == |s| || OccursAt(s, sep, |p|))
    ensures forall j: nat :: j < |Split(s, sep)[0]| ==> !OccursAt(s, sep, j)
  {
    SplitSpec(s, sep);
    if Includes(s, sep) {
      SplitAtFirst(s, sep);
    }
  }

  /** An occurrence in a suffix of s is an occurrence in s, shifted. */
  lemma OccursShift(s: string, p: string, off: nat, j: nat)
    requires off <= |s|
    ensures OccursAt(s[off..], p, j) <==> OccursAt(s, p, off + j)
  {
    if off + j + |p| <= |s| {
      assert s[off..][j..j + |p|] == s[off + j..off + j + |p|];
    }
  }

  /** The first piece of the split of a suffix s[off..], read in s: it
      occurs at off, no separator starts inside it, and after it s ends or
      the separator follows. */
  lemma FirstPieceAt(s: string, sep: string, off: nat)
    requires |sep| > 0 && off <= |s|
    ensures var r := Split(s[off..], sep)[0];
      && OccursAt(s, r, off) && !Includes(r, sep)
      && (forall j: nat :: off <= j < off + |r| ==> !OccursAt(s, sep, j))
      && (off + |r| == |s| || OccursAt(s, sep, off + |r|))
  {
    var rest := s[off..];
    FirstPiece(rest, sep);
    var r := Split(rest, sep)[0];
    assert s[off..off + |r|] == rest[..|r|];
    OccursShift(s, sep, off, |r|);
    forall j: nat | off <= j < off + |r|
      ensures !OccursAt(s, sep, j)
    {
      OccursShift(s, sep, off, j - off);
    }
  }

  /** `s.split('/').pop()`: the last piece of the split at '/', which is
      the text after the last '/', or all of s when it has none
      (LastSegmentIsLastPiece proves the two agree). */
  function LastSegment(s: string): string
    decreases |s|
  {
    if s == [] || s[|s| - 1] == '/' then [] else LastSegment(s[..|s| - 1]) + [s[|s| - 1]]
  }

  /** The last segment is a suffix of s. */
  lemma {:induction false} LastSegmentSuffix(s: string)
    ensures |LastSegment(s)| <= |s| && s[|s| - |LastSegment(s)|..] == LastSegment(s)
    decreases |s|
  {
    if s != [] && s[|s| - 1] != '/' {
      var n := |s| - 1;
      var t := s[..n];
      LastSegmentSuffix(t);
      var m := |LastSegment(t)|;
      assert s[n - m..n] == t[n - m..];
      assert s[n - m..] == s[n - m..n] + [s[n]];
    }
  }

  /** The last segment contains no '/'. */
  lemma {:induction false} LastSegmentNoSlash(s: string)
    ensures '/' !in LastSegment(s)
    decreases |s|
  {
    if s != [] && s[|s| - 1] != '/' {
      LastSegmentNoSlash(s[..|s| - 1]);
    }
  }

  /** Unless it is the whole of s, the last segment is preceded by a '/'. */
  lemma {:induction false} LastSegmentBoundary(s: string)
    ensures |LastSegment(s)| < |s| ==> s[|s| - |LastSegment(s)| - 1] == '/'
    decreases |s|
  {
    if s != [] && s[|s| - 1] != '/' {
      var n := |s| - 1;
      var t := s[..n];
      LastSegmentBoundary(t);
      var m := |LastSegment(t)|;
      if m < n {
        assert t[n - m - 1] == s[n - m - 1];
      }
    }
  }

  /** The last segment is a suffix of s containing no '/', and unless it
      is the whole of s it is preceded by a '/'. */
  lemma LastSegmentFacts(s: string)
    ensures '/' !in LastSegment(s)
    ensures |LastSegment(s)| <= |s| && s[|s| - |LastSegment(s)|..] == LastSegment(s)
    ensures |LastSegment(s)| < |s| ==> s[|s| - |LastSegment(s)| - 1] == '/'
  {
    LastSegmentSuffix(s);
    LastSegmentNoSlash(s);
    LastSegmentBoundary(s);
  }

  /** A character of a suffix of s is the character of s at the shifted
      position. */
  lemma SuffixChar(s: string, b: string, m: int)
    ensures |b| <= |s| && s[|s| - |b|..] == b && 0 <= m < |b| ==> b[m] == s[|s| - |b| + m]
  {
  }

  /** Two suffixes of s without '/', each preceded by '/' unless it is the
      whole of s, are the same. */
  lemma SegmentUnique(s: string, a: string, b: string)
    requires |a| <= |s| && s[|s| - |a|..] == a && '/' !in a && (|a| < |s| ==> s[|s| - |a| - 1] == '/')
    requires |b| <= |s| && s[|s| - |b|..] == b && '/' !in b && (|b| < |s| ==> s[|s| - |b| - 1] == '/')
    ensures a == b
  {
    SuffixChar(s, a, |a| - |b| - 1);
    SuffixChar(s, b, |b| - |a| - 1);
    assert |a| == |b|;
  }

  /** After a '/' at i, the last segment of s is that of the rest. */
  lemma {:induction false} LastSegmentAfterSlash(s: string, i: nat)
    requires i < |s| && s[i] == '/'
    ensures LastSegment(s) == LastSegment(s[i + 1..])
    decreases |s|
  {
    var n := |s| - 1;
    if i < n && s[n] != '/' {
      var rest := s[i + 1..];
      LastSegmentAfterSlash(s[..n], i);
      assert rest[..|rest| - 1] == s[..n][i + 1..];
      assert rest[|rest| - 1] == s[n];
    }
  }

  /** `split('/').pop()` is the last piece of the split at "/". */
  lemma {:induction false} LastSegmentIsLastPiece(s: string)
    ensures LastSegment(s) == Split(s, "/")[|Split(s, "/")| - 1]
    decreases |s|
  {
    if Includes(s, "/") {
      var i := IndexOf(s, "/");
      SplitAtFirst(s, "/");
      OccursAtChar(s, "/", i, 0);
      LastSegmentIsLastPiece(s[i + 1..]);
      LastSegmentAfterSlash(s, i);
    } else {
      assert Split(s, "/") == [s];
      forall k | 0 <= k < |s|
        ensures s[k] != '/'
      {
        if s[k] == '/' {
          SlashIncluded(s, k);
        }
      }
      LastSegmentFacts(s);
      SegmentUnique(s, LastSegment(s), s);
    }
  }

  /** A '/' anywhere means "/" is included. */
  lemma SlashIncluded(s: string, k: nat)
    requires k < |s| && s[k] == '/'
    ensures Includes(s, "/")
  {
    assert s[k..k + 1] == "/";
    assert OccursAt(s, "/", k);
    IncludesIff(s, "/");
  }

  /** Without a '/' character, "/" is not included. */
  lemma NoSlashNotIncluded(s: string)
    requires '/' !in s
    ensures !Includes(s, "/")
  {
    if Includes(s, "/") {
      var i := IndexOf(s, "/");
      OccursAtChar(s, "/", i, 0);
    }
  }

  // ----------------------------------------------------------------- trim

  /** The code points `trim` removes: ECMAScript's WhiteSpace and
      LineTerminator characters. */
  predicate IsWhitespace(c: char) {
    var n := c as int;
    n == 0x09 || n == 0x0A || n == 0x0B || n == 0x0C || n == 0x0D || n == 0x20
    || n == 0xA0 || n == 0x1680 || (0x2000 <= n <= 0x200A) || n == 0x2028
    || n == 0x2029 || n == 0x202F || n == 0x205F || n == 0x3000 || n == 0xFEFF
  }

  /** `s.trimStart()`. */
  function TrimStart(s: string): string
    decreases |s|
  {
    if |s| > 0 && IsWhitespace(s[0]) then TrimStart(s[1..]) else s
  }

  /** `trimStart` removes exactly the leading whitespace: what is left is a
      suffix of s that does not start with whitespace, and everything
      removed is whitespace. */
  lemma {:induction false} TrimStartSpec(s: string)
    ensures var r := TrimStart(s);
      |r| <= |s| && r == s[|s| - |r|..]
      && (r == "" || !IsWhitespace(r[0]))
      && (forall k :: 0 <= k < |s| - |r| ==> IsWhitespace(s[k]))
    decreases |s|
  {
    if |s| > 0 && IsWhitespace(s[0]) {
      TrimStartSpec(s[1..]);
      var r := TrimStart(s);
      assert r == TrimStart(s[1..]);
      assert forall k :: 1 <= k < |s| - |r| ==> s[k] == s[1..][k - 1];
    }
  }

  /** `s.trimEnd()`. */
  function TrimEnd(s: string): string
    decreases |s|
  {
    if |s| > 0 && IsWhitespace(s[|s| - 1]) then TrimEnd(s[..|s| - 1]) else s
  }

  /** `trimEnd` removes exactly the trailing whitespace. */
  lemma {:induction false} TrimEndSpec(s: string)
    ensures var r := TrimEnd(s);
      |r| <= |s| && r == s[..|r|]
      && (r == "" || !IsWhitespace(r[|r| - 1]))
      && (forall k :: |r| <= k < |s| ==> IsWhitespace(s[k]))
    decreases |s|
  {
    if |s| > 0 && IsWhitespace(s[|s| - 1]) {
      TrimEndSpec(s[..|s| - 1]);
    }
  }

  /** `s.trim()`: s without its leading and trailing whitespace. */
  function Trim(s: string): string {
    TrimEnd(TrimStart(s))
  }

  /** `trim` leaves the empty string exactly when s is all whitespace;
      otherwise the result neither starts nor ends with whitespace and is
      the stretch of s that starts after the leading whitespace. */
  lemma TrimSpec(s: string)
    ensures |TrimStart(s)| <= |s|
    ensures Trim(s) == "" <==> forall k :: 0 <= k < |s| ==> IsWhitespace(s[k])
    ensures Trim(s) != "" ==> !IsWhitespace(Trim(s)[0]) && !IsWhitespace(Trim(s)[|Trim(s)| - 1])
    ensures OccursAt(s, Trim(s), |s| - |TrimStart(s)|)
    ensures forall k :: 0 <= k < |s| - |TrimStart(s)| ==> IsWhitespace(s[k])
    ensures forall k :: |s| - |TrimStart(s)| + |Trim(s)| <= k < |s| ==> IsWhitespace(s[k])
  {
    var t := TrimStart(s);
    var r := TrimEnd(t);
    TrimStartSpec(s);
    TrimEndSpec(t);
    var a := |s| - |t|;
    if r != "" {
      assert r[0] == t[0];
    }
    if t != "" {
      assert t[0] == s[a];
    }
    assert r == s[a..][..|r|];
    assert r == s[a..a + |r|];
    forall k | a + |r| <= k < |s|
      ensures IsWhitespace(s[k])
    {
      assert s[k] == t[k - a];
    }
  }

  // ---------------------------------------------------------- toLowerCase

  /** Lower-casing of one character, for the ASCII letters. */
  function LowerChar(c: char): char {
    if 'A' <= c <= 'Z' then (c as int + 32) as char else c
  }

  /** `s.toLowerCase()`, character by character. */
  function ToLower(s: string): (r: string)
    ensures |r| == |s|
    ensures forall k :: 0 <= k < |s| ==> r[k] == LowerChar(s[k])
  {
    seq(|s|, k requires 0 <= k < |s| => LowerChar(s[k]))
  }
}
