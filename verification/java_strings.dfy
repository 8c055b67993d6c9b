/** The `java.lang.String` operations the drivers and statistics programs use,
    over strings of Unicode scalar values. */
module JavaStrings {

  /** `s.endsWith(suffix)` */
  predicate EndsWith(s: string, suffix: string) {
    |suffix| <= |s| && s[|s| - |suffix|..] == suffix
  }

  /** A suffix survives putting a character in front. */
  lemma EndsWithCons(c: char, s: string, suffix: string)
    requires EndsWith(s, suffix)
    ensures EndsWith([c] + s, suffix)
  {
    assert ([c] + s)[|s| + 1 - |suffix|..] == s[|s| - |suffix|..];
  }

  /** A suffix survives dropping characters in front of it. */
  lemma EndsWithDrop(s: string, suffix: string, k: nat)
    requires EndsWith(s, suffix) && k <= |s| - |suffix|
    ensures EndsWith(s[k..], suffix)
  {
    assert s[k..][|s| - k - |suffix|..] == s[|s| - |suffix|..];
  }

  /** Position of the first `c` in `s`, or `|s|` when `s` has none. */
  function IndexOf(s: string, c: char): (i: nat)
    ensures i <= |s|
    ensures i < |s| ==> s[i] == c
    ensures forall j :: 0 <= j < i ==> s[j] != c
  {
    if |s| == 0 then 0
    else if s[0] == c then 0
    else 1 + IndexOf(s[1..], c)
  }

  /** The `c`-free segments of `s` between consecutive `c`s, empty ones included. */
  function Pieces(s: string, c: char): (parts: seq<string>)
    ensures |parts| >= 1
    decreases |s|
  {
    var i := IndexOf(s, c);
    if i == |s| then [s] else [s[..i]] + Pieces(s[i + 1..], c)
  }

  /** The parts glued back together with `c` between neighbours. */
  function Join(parts: seq<string>, c: char): string
  {
    if |parts| == 0 then []
    else if |parts| == 1 then parts[0]
    else parts[0] + [c] + Join(parts[1..], c)
  }

  /** No part holds the separator. */
  predicate SeparatorFree(parts: seq<string>, c: char) {
    forall i :: 0 <= i < |parts| ==> c !in parts[i]
  }

  lemma PiecesOfSeparatorFree(s: string, c: char)
    requires c !in s
    ensures Pieces(s, c) == [s]
  {
  }

  lemma PiecesCons(a: string, c: char, b: string)
    requires c !in a
    ensures Pieces(a + [c] + b, c) == [a] + Pieces(b, c)
  {
    var s := a + [c] + b;
    assert s[|a|] == c;
    assert IndexOf(s, c) == |a|;
    assert s[..|a|] == a;
    assert s[|a| + 1..] == b;
  }

  /** No piece holds the separator. */
  lemma {:induction false} PiecesSeparatorFree(s: string, c: char)
    ensures SeparatorFree(Pieces(s, c), c)
    decreases |s|
  {
    var i := IndexOf(s, c);
    if i == |s| {
      assert c !in s;
    } else {
      var head, rest := s[..i], Pieces(s[i + 1..], c);
      PiecesSeparatorFree(s[i + 1..], c);
      assert Pieces(s, c) == [head] + rest;
      assert c !in head;
      forall k | 1 <= k < |rest| + 1
        ensures c !in ([head] + rest)[k]
      {
        assert ([head] + rest)[k] == rest[k - 1];
      }
    }
  }

  /** Splitting separates exactly at the separators: gluing the pieces back
      with `c` gives the string. */
  lemma {:induction false} PiecesJoin(s: string, c: char)
    ensures Join(Pieces(s, c), c) == s
    decreases |s|
  {
    var i := IndexOf(s, c);
    if i < |s| {
      var head, tail := s[..i], s[i + 1..];
      var rest := Pieces(tail, c);
      PiecesJoin(tail, c);
      calc {
        Join(Pieces(s, c), c);
        { assert Pieces(s, c) == [head] + rest; }
        Join([head] + rest, c);
        { assert ([head] + rest)[1..] == rest; }
        head + [c] + Join(rest, c);
        head + [c] + tail;
        { assert s == head + [c] + tail; }
        s;
      }
    }
  }

  /** Joining separator-free parts and splitting again gives the parts back. */
  lemma {:induction false} JoinPieces(parts: seq<string>, c: char)
    requires |parts| >= 1
    requires SeparatorFree(parts, c)
    ensures Pieces(Join(parts, c), c) == parts
    decreases |parts|
  {
    if |parts| == 1 {
      PiecesOfSeparatorFree(parts[0], c);
    } else {
      assert c !in parts[0];
      JoinPieces(parts[1..], c);
      PiecesCons(parts[0], c, Join(parts[1..], c));
    }
  }

  /** The first piece is where `s` starts. */
  lemma FirstPieceIsPrefix(s: string, c: char)
    ensures Pieces(s, c)[0] <= s
  {
  }

  /** With two or more pieces, `s` has a separator: the first piece is
      what precedes it and the second starts what follows it. */
  lemma PiecesAtFirstSeparator(s: string, c: char)
    requires |Pieces(s, c)| >= 2
    ensures IndexOf(s, c) < |s|
    ensures Pieces(s, c)[0] == s[..IndexOf(s, c)]
    ensures Pieces(s, c)[1] == Pieces(s[IndexOf(s, c) + 1..], c)[0]
  {
  }

  /** With two or more pieces, `s` starts with the first two and the separator between them. */
  lemma FirstTwoPiecesArePrefix(s: string, c: char)
    requires |Pieces(s, c)| >= 2
    ensures Pieces(s, c)[0] + [c] + Pieces(s, c)[1] <= s
  {
    var i := IndexOf(s, c);
    PiecesAtFirstSeparator(s, c);
    FirstPieceIsPrefix(s[i + 1..], c);
    PrefixAroundSeparator(s, i, c, Pieces(s, c)[0], Pieces(s, c)[1]);
  }

  /** What precedes position `i`, the character there and a prefix of what
      follows it form a prefix of `s`. */
  lemma PrefixAroundSeparator(s: string, i: nat, c: char, before: string, after: string)
    requires i < |s| && s[i] == c
    requires before == s[..i] && after <= s[i + 1..]
    ensures before + [c] + after <= s
  {
    assert before + [c] + after == s[..i + 1 + |after|];
  }

  /** `parts` with its run of trailing empty strings removed. */
  function DropTrailingEmpty(parts: seq<string>): (r: seq<string>)
    ensures r <= parts
    ensures |r| > 0 ==> r[|r| - 1] != []
    ensures forall i :: |r| <= i < |parts| ==> parts[i] == []
  {
    if |parts| == 0 then []
    else if parts[|parts| - 1] == [] then DropTrailingEmpty(parts[..|parts| - 1])
    else parts
  }

  /** `s.split(c)` for a separator that is not a regular-expression
      metacharacter (or is escaped): `s` itself when `c` does not occur,
      otherwise the pieces with trailing empty ones removed. */
  function Split(s: string, c: char): (r: seq<string>)
    ensures SeparatorFree(r, c)
    ensures c !in s ==> r == [s]
    ensures c in s ==> r <= Pieces(s, c)
    ensures c in s && |r| > 0 ==> r[|r| - 1] != []
    ensures c in s ==> forall i :: |r| <= i < |Pieces(s, c)| ==> Pieces(s, c)[i] == []
  {
    PiecesSeparatorFree(s, c);
    if c !in s then [s] else DropTrailingEmpty(Pieces(s, c))
  }

  /** When the last piece is not empty, `split` keeps every piece. */
  lemma SplitKeepsAllPieces(s: string, c: char)
    requires Pieces(s, c)[|Pieces(s, c)| - 1] != []
    ensures Split(s, c) == Pieces(s, c)
  {
    if c !in s {
      PiecesOfSeparatorFree(s, c);
    }
  }

  /** When the first piece is not empty, `split` keeps it at index 0. */
  lemma SplitKeepsFirstPiece(s: string, c: char)
    requires Pieces(s, c)[0] != []
    ensures |Split(s, c)| >= 1 && Split(s, c)[0] == Pieces(s, c)[0]
  {
    if c !in s {
      PiecesOfSeparatorFree(s, c);
    }
  }

  /** `s.replaceAll(x, "")` for a one-letter pattern `x`. */
  function RemoveChar(s: string, c: char): (r: string)
    ensures c !in r
    ensures c !in s ==> r == s
    ensures forall x :: x in r ==> x in s
    ensures forall x :: x != c ==> multiset(r)[x] == multiset(s)[x]
  {
    if |s| == 0 then []
    else
      assert s == [s[0]] + s[1..];
      if s[0] == c then RemoveChar(s[1..], c)
      else [s[0]] + RemoveChar(s[1..], c)
  }

  /** Removal works piecewise, so the kept characters stay in order. */
  lemma {:induction false} RemoveCharAppend(a: string, b: string, c: char)
    ensures RemoveChar(a + b, c) == RemoveChar(a, c) + RemoveChar(b, c)
    decreases |a|
  {
    if |a| > 0 {
      assert (a + b)[1..] == a[1..] + b;
      RemoveCharAppend(a[1..], b, c);
    } else {
      assert a + b == b;
    }
  }

  /** A single character is dropped exactly when it is the removed one. */
  lemma RemoveCharSingle(x: char, c: char)
    ensures RemoveChar([x], c) == if x == c then [] else [x]
  {
    assert [x][1..] == [];
  }

  /** Characters `String.trim` strips: code points up to and including the space. */
  predicate IsTrimmed(c: char) {
    c <= ' '
  }

  function TrimStart(s: string): (r: string)
    ensures |r| <= |s| && r == s[|s| - |r|..]
    ensures |r| > 0 ==> !IsTrimmed(r[0])
    ensures forall k :: 0 <= k < |s| - |r| ==> IsTrimmed(s[k])
  {
    if |s| > 0 && IsTrimmed(s[0]) then
      var r := TrimStart(s[1..]);
      assert forall k :: 1 <= k < |s| ==> s[k] == s[1..][k - 1];
      r
    else s
  }

  function TrimEnd(s: string): (r: string)
    ensures r <= s
    ensures |r| > 0 ==> !IsTrimmed(r[|r| - 1])
    ensures forall k :: |r| <= k < |s| ==> IsTrimmed(s[k])
  {
    if |s| > 0 && IsTrimmed(s[|s| - 1]) then TrimEnd(s[..|s| - 1]) else s
  }

  /** `r` is the slice of `s` from `i` on, and only characters `trim`
      strips lie before or after it. */
  predicate StripsTo(s: string, i: nat, r: string) {
    && i + |r| <= |s|
    && r == s[i..i + |r|]
    && (forall k :: 0 <= k < i ==> IsTrimmed(s[k]))
    && (forall k :: i + |r| <= k < |s| ==> IsTrimmed(s[k]))
  }

  /** `s.trim()` */
  function Trim(s: string): (r: string)
    ensures |r| > 0 ==> !IsTrimmed(r[0]) && !IsTrimmed(r[|r| - 1])
    ensures (forall i :: 0 <= i < |s| ==> !IsTrimmed(s[i])) ==> r == s
    ensures |r| <= |s|
    ensures exists i: nat :: StripsTo(s, i, r)
  {
    TrimStrips(s);
    TrimEnd(TrimStart(s))
  }

  /** Trimming the start and then the end strips `s` to a slice. */
  lemma TrimStrips(s: string)
    ensures StripsTo(s, |s| - |TrimStart(s)|, TrimEnd(TrimStart(s)))
  {
    var t := TrimStart(s);
    var r := TrimEnd(t);
    var i := |s| - |t|;
    SliceOfSuffix(s, i, t, r);
    TrimmedAfterSlice(s, i, t, r);
  }

  lemma SliceOfSuffix(s: string, i: nat, t: string, r: string)
    requires i <= |s| && t == s[i..] && r <= t
    ensures r == s[i..i + |r|]
  {
  }

  lemma TrimmedAfterSlice(s: string, i: nat, t: string, r: string)
    requires i <= |s| && t == s[i..] && |r| <= |t|
    requires forall k :: |r| <= k < |t| ==> IsTrimmed(t[k])
    ensures forall k :: i + |r| <= k < |s| ==> IsTrimmed(s[k])
  {
    forall k | i + |r| <= k < |s|
      ensures IsTrimmed(s[k])
    {
      assert s[k] == t[k - i];
    }
  }

  function LowerChar(c: char): char {
    if 'A' <= c <= 'Z' then (c as int + 32) as char else c
  }

  /** `s.toLowerCase()` on the ASCII letters. */
  function Lower(s: string): (r: string)
    ensures |r| == |s|
    ensures forall i :: 0 <= i < |s| ==> r[i] == LowerChar(s[i])
  {
    if |s| == 0 then [] else [LowerChar(s[0])] + Lower(s[1..])
  }

  /** The literal `t` occurs in `s` at position `i`. */
  predicate OccursAt(s: string, i: nat, t: string) {
    i + |t| <= |s| && s[i..i + |t|] == t
  }

  /** `s.replace(target, replacement)`: every occurrence of the literal
      `target`, scanning left to right without overlap. */
  function ReplaceLiteral(s: string, target: string, replacement: string): (r: string)
    requires |target| > 0
    ensures (forall i :: 0 <= i < |s| ==> !OccursAt(s, i, target)) ==> r == s
    ensures |replacement| == |target| ==> |r| == |s|
    decreases |s|
  {
    if |s| == 0 then []
    else if target <= s then
      assert OccursAt(s, 0, target);
      replacement + ReplaceLiteral(s[|target|..], target, replacement)
    else
      var rest := s[1..];
      assert forall i :: 0 <= i < |rest| ==> (OccursAt(rest, i, target) <==> OccursAt(s, i + 1, target));
      assert s == [s[0]] + rest;
      [s[0]] + ReplaceLiteral(rest, target, replacement)
  }

  /** A character that cannot start the target is copied. */
  lemma ReplaceLiteralSkip(s: string, target: string, replacement: string)
    requires |target| > 0 && |s| > 0 && s[0] != target[0]
    ensures ReplaceLiteral(s, target, replacement) == [s[0]] + ReplaceLiteral(s[1..], target, replacement)
  {
  }

  /** A prefix none of whose characters starts `target` passes through
      the replacement untouched. */
  lemma {:induction false} ReplaceLiteralAfterPrefix(p: string, target: string, replacement: string)
    requires |target| > 0 && forall i :: 0 <= i < |p| ==> p[i] != target[0]
    ensures ReplaceLiteral(p + target, target, replacement) == p + replacement
    decreases |p|
  {
    if p == [] {
      assert p + target == target && target[|target|..] == [];
    } else {
      assert (p + target)[0] == p[0] && (p + target)[1..] == p[1..] + target;
      ReplaceLiteralSkip(p + target, target, replacement);
      ReplaceLiteralAfterPrefix(p[1..], target, replacement);
    }
  }

  /** The characters the regular-expression `.` does not match in Java's default mode. */
  predicate IsLineTerminator(c: char) {
    c == '\n' || c == '\r' || c == '\U{85}' || c == '\U{2028}' || c == '\U{2029}'
  }

  /** Whether the regular expression `.` followed by the literal `lit`
      matches `s` at position `i`. */
  predicate MatchAt(s: string, i: nat, lit: string) {
    i + 1 + |lit| <= |s| && !IsLineTerminator(s[i]) && s[i + 1..i + 1 + |lit|] == lit
  }

  /** `s.replaceAll("." + lit, "")` for a literal `lit` free of
      metacharacters: every leftmost, non-overlapping match is deleted. */
  function RemoveAnyThen(s: string, lit: string): (r: string)
    ensures |r| <= |s|
    ensures (forall i :: 0 <= i < |s| ==> !MatchAt(s, i, lit)) ==> r == s
    decreases |s|
  {
    if |s| == 0 then []
    else if MatchAt(s, 0, lit) then RemoveAnyThen(s[1 + |lit|..], lit)
    else
      var rest := s[1..];
      assert forall i :: 0 <= i < |rest| ==> (MatchAt(rest, i, lit) <==> MatchAt(s, i + 1, lit));
      assert s == [s[0]] + rest;
      [s[0]] + RemoveAnyThen(rest, lit)
  }

  /** A string in which the pattern never matches is left alone, in
      particular one that lacks the pattern's first letter. */
  lemma {:induction false} RemoveAnyThenWithoutLetter(s: string, lit: string)
    requires |lit| > 0 && lit[0] !in s
    ensures RemoveAnyThen(s, lit) == s
    decreases |s|
  {
    if |s| > 0 {
      RemoveAnyThenWithoutLetter(s[1..], lit);
      assert s == [s[0]] + s[1..];
    }
  }

  /** The readers' line terminators. */
  predicate IsNewline(c: char) {
    c == '\n' || c == '\r'
  }

  function LineEnd(s: string): (i: nat)
    ensures i <= |s|
    ensures i < |s| ==> IsNewline(s[i])
    ensures forall j :: 0 <= j < i ==> !IsNewline(s[j])
  {
    if |s| == 0 then 0
    else if IsNewline(s[0]) then 0
    else 1 + LineEnd(s[1..])
  }

  /** `Files.lines`, i.e. repeated `BufferedReader.readLine`: a line ends at
      `\n`, `\r` or `\r\n`, and a final terminator opens no further line. */
  function Lines(s: string): (lines: seq<string>)
    ensures forall k :: 0 <= k < |lines| ==> '\n' !in lines[k] && '\r' !in lines[k]
    decreases |s|
  {
    if |s| == 0 then []
    else
      var i := LineEnd(s);
      if i == |s| then [s]
      else
        var next := if s[i] == '\r' && i + 1 < |s| && s[i + 1] == '\n' then i + 2 else i + 1;
        [s[..i]] + Lines(s[next..])
  }

  /** Reading back a line that was written with a `\n` after it. */
  lemma LinesCons(line: string, rest: string)
    requires '\n' !in line && '\r' !in line
    ensures Lines(line + "\n" + rest) == [line] + Lines(rest)
  {
    var s := line + "\n" + rest;
    assert s[|line|] == '\n';
    assert LineEnd(s) == |line|;
    assert s[..|line|] == line;
    assert s[|line| + 1..] == rest;
  }
}
