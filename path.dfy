/**
  `Path.Combine`: a root path and a relative path become one path. Both are trimmed, split
  on the directory separator (empty pieces kept), the root's pieces are pushed on a stack,
  each relative piece is pushed or, when it is `..`, pops the stack (nothing happens on an
  empty stack), and the stack is joined back with the separator, bottom first.

  The directory separator is `\`, as on Windows.
*/
module FilePath {
  import opened Wrappers
  import opened Exceptions

  const Separator: char := '\\'
  const BackToken: string := ".."

  /** `char.IsWhiteSpace`: the characters with the Unicode White_Space property. */
  predicate IsWhiteSpace(c: char) {
    c == ' ' || '\t' <= c <= '\r' || c == '\U{85}' || c == '\U{A0}' || c == '\U{1680}'
    || '\U{2000}' <= c <= '\U{200A}' || c == '\U{2028}' || c == '\U{2029}' || c == '\U{202F}'
    || c == '\U{205F}' || c == '\U{3000}'
  }

  /** The two kinds of character the path code trims. */
  datatype CharClass = WhiteSpace | SeparatorChar

  predicate InClass(c: char, k: CharClass) {
    match k
    case WhiteSpace => IsWhiteSpace(c)
    case SeparatorChar => c == Separator
  }

  predicate AllInClass(s: string, k: CharClass) {
    forall i :: 0 <= i < |s| ==> InClass(s[i], k)
  }

  /** `TrimStart`: the longest suffix not starting with a character of the class. */
  function TrimStart(s: string, k: CharClass): (t: string)
    ensures |t| <= |s|
  {
    if |s| > 0 && InClass(s[0], k) then TrimStart(s[1..], k) else s
  }

  /** What `TrimStart` removes is a run of the class, and what it keeps does not start with
      one. */
  lemma {:induction false} TrimStartSpec(s: string, k: CharClass)
    ensures var t := TrimStart(s, k);
      t == s[|s| - |t|..] && (|t| > 0 ==> !InClass(t[0], k)) && AllInClass(s[..|s| - |t|], k)
  {
    if |s| > 0 && InClass(s[0], k) {
      var t := TrimStart(s[1..], k);
      TrimStartSpec(s[1..], k);
      assert s[1..][..|s| - 1 - |t|] == s[1..|s| - |t|];
      assert forall i :: 1 <= i < |s| - |t| ==> s[i] == s[1..][i - 1];
    }
  }

  /** `TrimEnd`: the longest prefix not ending with a character of the class. */
  function TrimEnd(s: string, k: CharClass): (t: string)
    ensures |t| <= |s|
  {
    if |s| > 0 && InClass(s[|s| - 1], k) then TrimEnd(s[..|s| - 1], k) else s
  }

  /** What `TrimEnd` removes is a run of the class, and what it keeps does not end with
      one. */
  lemma {:induction false} TrimEndSpec(s: string, k: CharClass)
    ensures var t := TrimEnd(s, k);
      t == s[..|t|] && (|t| > 0 ==> !InClass(t[|t| - 1], k)) && AllInClass(s[|t|..], k)
  {
    if |s| > 0 && InClass(s[|s| - 1], k) {
      var t := TrimEnd(s[..|s| - 1], k);
      TrimEndSpec(s[..|s| - 1], k);
      assert s[..|s| - 1][|t|..] == s[|t|..|s| - 1];
      assert forall i :: |t| <= i < |s| - 1 ==> s[i] == s[..|s| - 1][i];
    }
  }

  /** `Trim`: both ends, white space only. */
  function Trim(s: string): string {
    TrimEnd(TrimStart(s, WhiteSpace), WhiteSpace)
  }

  /** `NormalizePath`: trimmed, then without leading separators. */
  function NormalizePath(path: string): string {
    TrimStart(Trim(path), SeparatorChar)
  }

  /** The root as `Combine` uses it: normalized, then without trailing separators. */
  function NormalizedRoot(root: string): string {
    TrimEnd(NormalizePath(root), SeparatorChar)
  }

  /** `String.Split(Separator)`: the pieces between separators, empty ones included. */
  function Split(s: string): (parts: seq<string>)
    ensures |parts| >= 1
    ensures forall i :: 0 <= i < |parts| ==> Separator !in parts[i]
  {
    if |s| == 0 then [""]
    else
      var rest := Split(s[1..]);
      if s[0] == Separator then [""] + rest else [[s[0]] + rest[0]] + rest[1..]
  }

  /** The pieces joined with the separator. */
  function Join(parts: seq<string>): string {
    if |parts| == 0 then ""
    else if |parts| == 1 then parts[0]
    else parts[0] + [Separator] + Join(parts[1..])
  }

  /** One relative piece applied to the stack (top at the end). */
  function Step(stack: seq<string>, segment: string): seq<string> {
    if segment == BackToken then
      if |stack| > 0 then stack[..|stack| - 1] else stack
    else stack + [segment]
  }

  /** The stack after the relative pieces, in order. */
  function Resolve(stack: seq<string>, segments: seq<string>): seq<string>
    decreases |segments|
  {
    if |segments| == 0 then stack
    else Step(Resolve(stack, segments[..|segments| - 1]), segments[|segments| - 1])
  }

  /** What `Combine(root, relative)` returns. */
  function Combined(root: string, relative: string): string {
    Join(Resolve(Split(NormalizedRoot(root)), Split(NormalizePath(relative))))
  }

  function Reverse(s: seq<string>): (r: seq<string>)
    ensures |r| == |s| && forall i :: 0 <= i < |s| ==> r[i] == s[|s| - 1 - i]
  {
    seq(|s|, i requires 0 <= i < |s| => s[|s| - 1 - i])
  }

  /** The text built after the bottom `count` pieces have been appended. */
  function Emitted(stack: seq<string>, count: nat): string
    requires count <= |stack|
  {
    if count == 0 then "" else Join(stack[..count]) + (if count < |stack| then [Separator] else [])
  }

  lemma {:induction false} JoinSnoc(parts: seq<string>, last: string)
    requires |parts| >= 1
    ensures Join(parts + [last]) == Join(parts) + [Separator] + last
  {
    if |parts| > 1 {
      assert (parts + [last])[1..] == parts[1..] + [last];
      JoinSnoc(parts[1..], last);
    }
  }

  /** `Combine`. Trimming a null root or a null relative path throws
      `NullReferenceException`. */
  method Combine(root: Option<string>, relative: Option<string>) returns (r: Result<string>)
    ensures root.None? || relative.None? <==> r == Throw(NullReferenceException)
    ensures root.Some? && relative.Some? ==> r == Ok(Combined(root.value, relative.value))
  {
    if root.None? || relative.None? {
      return Throw(NullReferenceException);
    }
    var combined := CombineStrings(root.value, relative.value);
    return Ok(combined);
  }

  /** `Combine` on two non-null strings: the root pieces are pushed, then each relative piece
      pops or pushes, then the stack is emitted. */
  method CombineStrings(root: string, relative: string) returns (combined: string)
    ensures combined == Combined(root, relative)
  {
    var normalizedRoot := TrimEnd(NormalizePath(root), SeparatorChar);
    var normalizedRelative := NormalizePath(relative);
    var rootSplit := Split(normalizedRoot);
    var relativeSplit := Split(normalizedRelative);
    var stack: seq<string> := [];
    for i := 0 to |rootSplit|
      invariant stack == rootSplit[..i]
    {
      stack := stack + [rootSplit[i]];
    }
    assert rootSplit[..|rootSplit|] == rootSplit;
    for i := 0 to |relativeSplit|
      invariant stack == Resolve(rootSplit, relativeSplit[..i])
    {
      assert relativeSplit[..i + 1][..i] == relativeSplit[..i];
      if relativeSplit[i] == BackToken {
        if |stack| > 0 {
          stack := stack[..|stack| - 1];
        }
      } else {
        stack := stack + [relativeSplit[i]];
      }
    }
    assert relativeSplit[..|relativeSplit|] == relativeSplit;
    combined := Emit(stack);
  }

  /** The last loop of `Combine`: the stack reversed, then walked from its end, so the
      pieces are joined bottom first with a separator between neighbours. */
  method Emit(stack: seq<string>) returns (combined: string)
    ensures combined == Join(stack)
  {
    var splitStack := Reverse(stack);
    combined := "";
    var i := |splitStack| - 1;
    while i >= 0
      invariant -1 <= i < |splitStack|
      invariant combined == Emitted(stack, |stack| - 1 - i)
    {
      ghost var count := |stack| - 1 - i;
      if count > 0 {
        assert stack[..count + 1] == stack[..count] + [stack[count]];
        JoinSnoc(stack[..count], stack[count]);
      }
      combined := combined + splitStack[i];
      if i > 0 {
        combined := combined + [Separator];
      }
      i := i - 1;
    }
    assert stack[..|stack|] == stack;
  }

  // Splitting and joining

  /** Joining the pieces of a split gives the text back. */
  lemma {:induction false} JoinSplit(s: string)
    ensures Join(Split(s)) == s
  {
    if |s| > 0 {
      var rest := Split(s[1..]);
      JoinSplit(s[1..]);
      if s[0] == Separator {
        assert Join([""] + rest) == [Separator] + Join(rest);
      } else if |rest| > 1 {
        assert ([[s[0]] + rest[0]] + rest[1..])[1..] == rest[1..];
      }
    }
  }

  /** Splitting a join of separator-free pieces gives the pieces back. */
  lemma {:induction false} SplitJoin(parts: seq<string>)
    requires |parts| >= 1 && forall i :: 0 <= i < |parts| ==> Separator !in parts[i]
    ensures Split(Join(parts)) == parts
  {
    if |parts| == 1 {
      SplitPiece(parts[0], []);
    } else {
      SplitJoin(parts[1..]);
      SplitPiece(parts[0], parts[1..]);
    }
  }

  /** A separator-free piece in front of a separator and more pieces. */
  lemma {:induction false} SplitPiece(piece: string, rest: seq<string>)
    requires Separator !in piece
    requires |rest| >= 1 ==> Split(Join(rest)) == rest
    ensures |rest| == 0 ==> Split(piece) == [piece]
    ensures |rest| >= 1 ==> Split(piece + [Separator] + Join(rest)) == [piece] + rest
  {
    if |piece| > 0 {
      assert piece[0] != Separator by { assert piece[0] in piece; }
      assert Separator !in piece[1..] by {
        forall c | c in piece[1..] ensures c != Separator {
          assert c in piece;
        }
      }
      SplitPiece(piece[1..], rest);
      assert [piece[0]] + piece[1..] == piece;
      if |rest| >= 1 {
        assert (piece + [Separator] + Join(rest))[1..] == piece[1..] + [Separator] + Join(rest);
      }
    } else if |rest| >= 1 {
      assert ([] + [Separator] + Join(rest))[1..] == Join(rest);
    }
  }

  lemma {:induction false} JoinAppend(a: seq<string>, b: seq<string>)
    requires |a| >= 1 && |b| >= 1
    ensures Join(a + b) == Join(a) + [Separator] + Join(b)
  {
    if |a| > 1 {
      assert (a + b)[1..] == a[1..] + b;
      JoinAppend(a[1..], b);
    } else {
      assert (a + b)[1..] == b;
    }
  }

  // The stack machine

  /** Resolving in two parts is resolving the whole. */
  lemma {:induction false} ResolveAppend(stack: seq<string>, a: seq<string>, b: seq<string>)
    ensures Resolve(stack, a + b) == Resolve(Resolve(stack, a), b)
    decreases |b|
  {
    if |b| == 0 {
      assert a + b == a;
    } else {
      assert (a + b)[..|a + b| - 1] == a + b[..|b| - 1];
      ResolveAppend(stack, a, b[..|b| - 1]);
    }
  }

  predicate NoBackToken(segments: seq<string>) {
    forall i :: 0 <= i < |segments| ==> segments[i] != BackToken
  }

  /** Without `..`, every piece is pushed. */
  lemma {:induction false} ResolveNoBack(stack: seq<string>, segments: seq<string>)
    requires NoBackToken(segments)
    ensures Resolve(stack, segments) == stack + segments
    decreases |segments|
  {
    if |segments| > 0 {
      var front := segments[..|segments| - 1];
      ResolveNoBack(stack, front);
      assert front + [segments[|segments| - 1]] == segments;
    }
  }

  /** `..` removes the most recent piece. */
  lemma BackPops(stack: seq<string>, top: string, rest: seq<string>)
    ensures Resolve(stack + [top], [BackToken] + rest) == Resolve(stack, rest)
  {
    ResolveAppend(stack + [top], [BackToken], rest);
    assert (stack + [top])[..|stack|] == stack;
  }

  /** `..` on an empty stack is ignored. */
  lemma BackOnEmptyIgnored(rest: seq<string>)
    ensures Resolve([], [BackToken] + rest) == Resolve([], rest)
  {
    ResolveAppend([], [BackToken], rest);
  }

  /** The number of pieces that are not `..`. */
  function Pushes(segments: seq<string>): nat {
    if |segments| == 0 then 0
    else Pushes(segments[..|segments| - 1]) + (if segments[|segments| - 1] == BackToken then 0 else 1)
  }

  /** The stack never holds more than the root's pieces and the pushed relative pieces. */
  lemma {:induction false} ResolveBound(stack: seq<string>, segments: seq<string>)
    ensures |Resolve(stack, segments)| <= |stack| + Pushes(segments)
    decreases |segments|
  {
    if |segments| > 0 {
      ResolveBound(stack, segments[..|segments| - 1]);
    }
  }

  /** Every piece of a combined path is a root piece or a relative piece. */
  lemma {:induction false} ResolvePieces(stack: seq<string>, segments: seq<string>)
    ensures forall i :: 0 <= i < |Resolve(stack, segments)| ==>
      Resolve(stack, segments)[i] in stack || Resolve(stack, segments)[i] in segments
    decreases |segments|
  {
    if |segments| > 0 {
      var front := segments[..|segments| - 1];
      ResolvePieces(stack, front);
      forall x | x in front ensures x in segments {
        var k :| 0 <= k < |front| && front[k] == x;
        assert segments[k] == x;
      }
    }
  }

  /** The combined path has at most the root's pieces plus the relative pieces that are not
      `..`, and it splits back into the stack it was joined from. */
  lemma CombinedSegments(root: string, relative: string)
    ensures var stack := Resolve(Split(NormalizedRoot(root)), Split(NormalizePath(relative)));
      |stack| <= |Split(NormalizedRoot(root))| + Pushes(Split(NormalizePath(relative)))
      && (|stack| >= 1 ==> Split(Combined(root, relative)) == stack)
  {
    var rootSplit, relativeSplit := Split(NormalizedRoot(root)), Split(NormalizePath(relative));
    var stack := Resolve(rootSplit, relativeSplit);
    ResolveBound(rootSplit, relativeSplit);
    if |stack| >= 1 {
      ResolvePieces(rootSplit, relativeSplit);
      forall i | 0 <= i < |stack| ensures Separator !in stack[i] {
        if stack[i] in rootSplit {
          var k :| 0 <= k < |rootSplit| && rootSplit[k] == stack[i];
        } else {
          var k :| 0 <= k < |relativeSplit| && relativeSplit[k] == stack[i];
        }
      }
      SplitJoin(stack);
    }
  }

  // What Combine promises

  /** Without `..`, the result is the normalized root, a separator, and the normalized
      relative path. */
  lemma CombineWithoutBack(root: string, relative: string)
    requires NoBackToken(Split(NormalizePath(relative)))
    ensures Combined(root, relative) == NormalizedRoot(root) + [Separator] + NormalizePath(relative)
  {
    var rootSplit, relativeSplit := Split(NormalizedRoot(root)), Split(NormalizePath(relative));
    ResolveNoBack(rootSplit, relativeSplit);
    JoinAppend(rootSplit, relativeSplit);
    JoinSplit(NormalizedRoot(root));
    JoinSplit(NormalizePath(relative));
  }

  /** The normalized root neither starts nor ends with a separator, and the normalized
      relative path does not start with one. */
  lemma NormalizedEnds(root: string, relative: string)
    ensures var r := NormalizedRoot(root); |r| > 0 ==> r[0] != Separator && r[|r| - 1] != Separator
    ensures var p := NormalizePath(relative); |p| > 0 ==> p[0] != Separator
  {
    TrimStartSpec(Trim(root), SeparatorChar);
    TrimEndSpec(NormalizePath(root), SeparatorChar);
    TrimStartSpec(Trim(relative), SeparatorChar);
  }

  /** A relative path ending in a separator gives a result ending in one, since the empty
      last piece is pushed; only when that piece is all that is left is the result empty. */
  lemma CombineTrailingSeparator(root: string, relative: string)
    requires var p := NormalizePath(relative); |p| > 0 && p[|p| - 1] == Separator
    ensures var c := Combined(root, relative); c == "" || c[|c| - 1] == Separator
  {
    var p := NormalizePath(relative);
    SplitEndsEmpty(p);
    var rootSplit, relativeSplit := Split(NormalizedRoot(root)), Split(p);
    var before := Resolve(rootSplit, relativeSplit[..|relativeSplit| - 1]);
    assert Resolve(rootSplit, relativeSplit) == before + [""];
    if |before| >= 1 {
      JoinSnoc(before, "");
    }
  }

  lemma {:induction false} SplitEndsEmpty(s: string)
    requires |s| > 0 && s[|s| - 1] == Separator
    ensures var parts := Split(s); parts[|parts| - 1] == ""
  {
    if |s| > 1 {
      SplitEndsEmpty(s[1..]);
    }
  }

  // White space

  lemma {:induction false} TrimStartDrops(w: string, s: string, k: CharClass)
    requires AllInClass(w, k)
    ensures TrimStart(w + s, k) == TrimStart(s, k)
  {
    if |w| > 0 {
      assert (w + s)[0] == w[0] && (w + s)[1..] == w[1..] + s;
      TrimStartDrops(w[1..], s, k);
    } else {
      assert w + s == s;
    }
  }

  lemma {:induction false} TrimEndDrops(s: string, w: string, k: CharClass)
    requires AllInClass(w, k)
    ensures TrimEnd(s + w, k) == TrimEnd(s, k)
    decreases |w|
  {
    if |w| > 0 {
      assert (s + w)[|s + w| - 1] == w[|w| - 1] && (s + w)[..|s + w| - 1] == s + w[..|w| - 1];
      TrimEndDrops(s, w[..|w| - 1], k);
    } else {
      assert s + w == s;
    }
  }

  /** Trimming the front first does not change what trimming the back leaves. */
  lemma {:induction false} TrimStartAppend(s: string, w: string, k: CharClass)
    requires AllInClass(w, k)
    ensures TrimEnd(TrimStart(s + w, k), k) == TrimEnd(TrimStart(s, k), k)
  {
    if |s| > 0 && InClass(s[0], k) {
      assert (s + w)[0] == s[0] && (s + w)[1..] == s[1..] + w;
      TrimStartAppend(s[1..], w, k);
    } else if |s| > 0 {
      assert (s + w)[0] == s[0];
      TrimEndDrops(s, w, k);
    } else {
      assert s + w == w;
      TrimStartDrops(w, [], k);
      assert w + [] == w;
    }
  }

  /** White space around a path is ignored. */
  lemma TrimIgnoresOuterWhiteSpace(front: string, s: string, back: string)
    requires AllInClass(front, WhiteSpace) && AllInClass(back, WhiteSpace)
    ensures Trim(front + s + back) == Trim(s)
  {
    assert front + s + back == front + (s + back);
    TrimStartDrops(front, s + back, WhiteSpace);
    TrimStartAppend(s, back, WhiteSpace);
  }

  /** `Combine` ignores white space before and after either argument. */
  lemma CombineIgnoresOuterWhiteSpace(root: string, relative: string, w1: string, w2: string, w3: string, w4: string)
    requires AllInClass(w1, WhiteSpace) && AllInClass(w2, WhiteSpace)
    requires AllInClass(w3, WhiteSpace) && AllInClass(w4, WhiteSpace)
    ensures Combined(w1 + root + w2, w3 + relative + w4) == Combined(root, relative)
  {
    TrimIgnoresOuterWhiteSpace(w1, root, w2);
    TrimIgnoresOuterWhiteSpace(w3, relative, w4);
  }

  /** A trimmed front keeps what follows it. */
  lemma {:induction false} TrimStartKeeps(s: string, w: string, k: CharClass)
    requires TrimStart(s, k) != []
    ensures TrimStart(s + w, k) == TrimStart(s, k) + w
  {
    if InClass(s[0], k) {
      assert (s + w)[0] == s[0] && (s + w)[1..] == s[1..] + w;
      TrimStartKeeps(s[1..], w, k);
    } else {
      assert (s + w)[0] == s[0];
    }
  }

  /** Separators after a root that needs no trimming at the front are ignored. */
  lemma CombineIgnoresRootTrailingSeparators(root: string, seps: string)
    requires |root| > 0 && !IsWhiteSpace(root[0]) && root[0] != Separator && !IsWhiteSpace(root[|root| - 1])
    requires AllInClass(seps, SeparatorChar)
    ensures NormalizedRoot(root + seps) == NormalizedRoot(root)
  {
    var whole := root + seps;
    assert whole[0] == root[0] && whole[|whole| - 1] == (if |seps| > 0 then seps[|seps| - 1] else root[|root| - 1]);
    assert Trim(whole) == whole;
    assert Trim(root) == root;
    assert NormalizePath(whole) == whole;
    assert NormalizePath(root) == root;
    TrimEndDrops(root, seps, SeparatorChar);
  }
}
