/**
 * The JavaScript string primitives the models rely on: the `\s` and `\w`
 * character classes of a non-Unicode regular expression, `toLowerCase` on
 * ASCII letters, `trim`, `indexOf` of one character, `split` on one
 * character and `padStart`.
 */
module Text {
  import opened Wrappers

  /** JavaScript's `\s`: WhiteSpace and LineTerminator, which is also what `trim` removes. */
  predicate IsSpace(c: char) {
    if c < '\U{A0}' then
      c == ' ' || ('\t' <= c <= '\r')  // tab, line feed, vertical tab, form feed, carriage return
    else
      || c == '\U{A0}' || c == '\U{1680}' || ('\U{2000}' <= c <= '\U{200A}')
      || c == '\U{2028}' || c == '\U{2029}' || c == '\U{202F}' || c == '\U{205F}'
      || c == '\U{3000}' || c == '\U{FEFF}'
  }

  predicate IsDigit(c: char) {
    '0' <= c <= '9'
  }

  /** JavaScript's `\w` without the `u` flag: `[A-Za-z0-9_]`. */
  predicate IsWordChar(c: char) {
    ('a' <= c <= 'z') || ('A' <= c <= 'Z') || IsDigit(c) || c == '_'
  }

  function LowerChar(c: char): (d: char)
    ensures 'A' <= c <= 'Z' ==> 'a' <= d <= 'z' && d as int == c as int + 32
    ensures !('A' <= c <= 'Z') ==> d == c
  {
    if 'A' <= c <= 'Z' then (c as int + 32) as char else c
  }

  /** `String.prototype.toLowerCase`, on ASCII letters. */
  function Lower(s: string): (r: string)
    ensures |r| == |s|
    ensures forall i :: 0 <= i < |s| ==> r[i] == LowerChar(s[i])
  {
    seq(|s|, i requires 0 <= i < |s| => LowerChar(s[i]))
  }

  /** `s` without its leading run of characters satisfying `p`. */
  function DropWhile(s: string, p: char -> bool): (r: string)
    ensures |r| <= |s|
    ensures r == [] || !p(r[0])
    ensures forall i :: 0 <= i < |s| - |r| ==> p(s[i])
  {
    if s != [] && p(s[0]) then DropWhile(s[1..], p) else s
  }

  /** What `DropWhile` leaves is a suffix of its input. */
  lemma {:induction false} DropWhileSuffix(s: string, p: char -> bool)
    ensures DropWhile(s, p) == s[|s| - |DropWhile(s, p)|..]
  {
    if s != [] && p(s[0]) {
      DropWhileSuffix(s[1..], p);
    }
  }

  /** `s` without its trailing run of characters satisfying `p`. */
  function DropWhileEnd(s: string, p: char -> bool): (r: string)
    ensures |r| <= |s|
    ensures r == [] || !p(r[|r| - 1])
    ensures forall i :: |r| <= i < |s| ==> p(s[i])
  {
    if s != [] && p(s[|s| - 1]) then DropWhileEnd(s[..|s| - 1], p) else s
  }

  /** What `DropWhileEnd` leaves is a prefix of its input. */
  lemma {:induction false} DropWhileEndPrefix(s: string, p: char -> bool)
    ensures DropWhileEnd(s, p) == s[..|DropWhileEnd(s, p)|]
  {
    if s != [] && p(s[|s| - 1]) {
      DropWhileEndPrefix(s[..|s| - 1], p);
    }
  }

  /** `String.prototype.trim`. */
  function Trim(s: string): string {
    DropWhileEnd(DropWhile(s, IsSpace), IsSpace)
  }

  /** The result of `trim` is a contiguous part of its input whose ends are not white space. */
  lemma TrimShape(s: string)
    ensures var k := |s| - |DropWhile(s, IsSpace)|; k + |Trim(s)| <= |s| && Trim(s) == s[k..k + |Trim(s)|]
    ensures Trim(s) == [] || (!IsSpace(Trim(s)[0]) && !IsSpace(Trim(s)[|Trim(s)| - 1]))
  {
    var t := DropWhile(s, IsSpace);
    var k := |s| - |t|;
    var r := DropWhileEnd(t, IsSpace);
    assert Trim(s) == r;
    DropWhileSuffix(s, IsSpace);
    DropWhileEndPrefix(t, IsSpace);
    assert t[..|r|] == s[k..k + |r|];
  }

  /** A string that neither starts nor ends with white space is its own trim. */
  lemma TrimNoOp(s: string)
    requires s == [] || (!IsSpace(s[0]) && !IsSpace(s[|s| - 1]))
    ensures Trim(s) == s
  {
  }

  /** Dropping a leading run that is followed by a non-matching character leaves what follows it. */
  lemma {:induction false} DropWhileRun(a: string, b: string, p: char -> bool)
    requires forall i :: 0 <= i < |a| ==> p(a[i])
    requires b == [] || !p(b[0])
    ensures DropWhile(a + b, p) == b
  {
    if a == [] {
      assert a + b == b;
    } else {
      assert (a + b)[0] == a[0];
      assert (a + b)[1..] == a[1..] + b;
      DropWhileRun(a[1..], b, p);
    }
  }

  /** Dropping a trailing run that follows a non-matching character leaves what precedes it. */
  lemma {:induction false} DropWhileEndRun(a: string, b: string, p: char -> bool)
    requires forall i :: 0 <= i < |b| ==> p(b[i])
    requires a == [] || !p(a[|a| - 1])
    ensures DropWhileEnd(a + b, p) == a
    decreases |b|
  {
    if b == [] {
      assert a + b == a;
    } else {
      assert (a + b)[|a + b| - 1] == b[|b| - 1];
      assert (a + b)[..|a + b| - 1] == a + b[..|b| - 1];
      DropWhileEndRun(a, b[..|b| - 1], p);
    }
  }

  /** White space around a text that neither starts nor ends with white space is exactly what `trim` removes. */
  lemma SpacedTrim(pre: string, s: string, post: string)
    requires forall i :: 0 <= i < |pre| ==> IsSpace(pre[i])
    requires forall i :: 0 <= i < |post| ==> IsSpace(post[i])
    requires s != [] && !IsSpace(s[0]) && !IsSpace(s[|s| - 1])
    ensures Trim(pre + s + post) == s
  {
    assert pre + s + post == pre + (s + post);
    assert (s + post)[0] == s[0];
    DropWhileRun(pre, s + post, IsSpace);
    DropWhileEndRun(s, post, IsSpace);
  }

  lemma TrimIdempotent(s: string)
    ensures Trim(Trim(s)) == Trim(s)
  {
    TrimShape(s);
    TrimNoOp(Trim(s));
  }

  /** Lower-casing turns no character into white space and no white space into anything else. */
  lemma LowerKeepsSpace(c: char)
    ensures IsSpace(LowerChar(c)) == IsSpace(c)
  {
  }

  lemma {:induction false} DropSpaceLower(s: string)
    ensures DropWhile(Lower(s), IsSpace) == Lower(DropWhile(s, IsSpace))
    decreases |s|
  {
    if s != [] {
      LowerKeepsSpace(s[0]);
      if IsSpace(s[0]) {
        assert Lower(s)[1..] == Lower(s[1..]);
        DropSpaceLower(s[1..]);
      }
    }
  }

  lemma {:induction false} DropSpaceEndLower(s: string)
    ensures DropWhileEnd(Lower(s), IsSpace) == Lower(DropWhileEnd(s, IsSpace))
    decreases |s|
  {
    if s != [] {
      LowerKeepsSpace(s[|s| - 1]);
      if IsSpace(s[|s| - 1]) {
        assert Lower(s)[..|s| - 1] == Lower(s[..|s| - 1]);
        DropSpaceEndLower(s[..|s| - 1]);
      }
    }
  }

  /** Lower-casing and trimming commute, so the order in which the two setters run does not matter. */
  lemma TrimLowerCommute(s: string)
    ensures Trim(Lower(s)) == Lower(Trim(s))
  {
    DropSpaceLower(s);
    DropSpaceEndLower(DropWhile(s, IsSpace));
  }

  /** Lower-casing and then trimming a second time changes nothing. */
  lemma TrimLowerIdempotent(s: string)
    ensures Trim(Lower(Trim(Lower(s)))) == Trim(Lower(s))
  {
    TrimLowerCommute(s);
    assert Lower(Lower(s)) == Lower(s);
    TrimLowerCommute(Lower(s));
    TrimIdempotent(Lower(s));
  }

  /** The first position of `c` in `s`, as `indexOf` finds it. */
  function IndexOf(s: string, c: char): (r: Option<nat>)
    ensures r.None? <==> c !in s
    ensures r.Some? ==> r.value < |s| && s[r.value] == c && c !in s[..r.value]
  {
    if s == [] then None
    else if s[0] == c then Some(0)
    else match IndexOf(s[1..], c)
      case None => None
      case Some(i) => Some(i + 1)
  }

  /** A character found at `i` and nowhere before it is found first at `i`. */
  lemma {:induction false} IndexOfFirst(s: string, c: char, i: nat)
    requires i < |s| && s[i] == c && c !in s[..i]
    ensures IndexOf(s, c) == Some(i)
  {
    if i > 0 {
      assert s[..i][0] == s[0];
      assert s[1..][..i - 1] == s[..i][1..];
      IndexOfFirst(s[1..], c, i - 1);
    }
  }

  /** `String.prototype.split` with a one-character separator. */
  function Split(s: string, sep: char): (parts: seq<string>)
    ensures |parts| >= 1
    ensures forall k :: 0 <= k < |parts| ==> sep !in parts[k]
    decreases |s|
  {
    match IndexOf(s, sep)
    case None => [s]
    case Some(i) => [s[..i]] + Split(s[i + 1..], sep)
  }

  /** `Array.prototype.join` with a one-character separator. */
  function Join(parts: seq<string>, sep: char): string
    requires |parts| >= 1
  {
    if |parts| == 1 then parts[0] else parts[0] + [sep] + Join(parts[1..], sep)
  }

  /** Joining the parts of a split with the separator gives back the text that was split. */
  lemma {:induction false} JoinSplit(s: string, sep: char)
    ensures Join(Split(s, sep), sep) == s
    decreases |s|
  {
    match IndexOf(s, sep)
    case None =>
      assert Split(s, sep) == [s];
    case Some(i) =>
      var rest := Split(s[i + 1..], sep);
      assert Split(s, sep) == [s[..i]] + rest;
      assert ([s[..i]] + rest)[1..] == rest;
      JoinSplit(s[i + 1..], sep);
      assert Join(Split(s, sep), sep) == s[..i] + [sep] + Join(rest, sep);
      assert s == s[..i] + [sep] + s[i + 1..];
  }

  /** Splitting on a separator that occurs exactly once gives the text on either side of it. */
  lemma SplitOnce(s: string, sep: char, i: nat)
    requires i < |s| && s[i] == sep && sep !in s[..i] && sep !in s[i + 1..]
    ensures Split(s, sep) == [s[..i], s[i + 1..]]
  {
    assert IndexOf(s, sep) == Some(i);
    assert IndexOf(s[i + 1..], sep).None?;
  }

  /** `String.prototype.padStart(n, c)` with a one-character fill. */
  function PadStart(s: string, n: nat, c: char): (r: string)
    ensures |r| == if |s| >= n then |s| else n
    ensures r[|r| - |s|..] == s
    ensures forall i :: 0 <= i < |r| - |s| ==> r[i] == c
  {
    if |s| >= n then s else seq(n - |s|, _ => c) + s
  }
}
