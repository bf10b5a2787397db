/**
 * The slug an event derives from its title in the pre-save hook of
 * database/event.model.ts: lower-case, trim, drop every character outside
 * `[\w\s-]`, turn each run of white space into one hyphen, collapse each run
 * of hyphens into one, and drop the hyphens left at either end.
 */
module Slug {
  import opened Text

  predicate IsHyphen(c: char) {
    c == '-'
  }

  /** The characters `[\w\s-]` that survive `.replace(/[^\w\s-]/g, "")`. */
  predicate Kept(c: char) {
    IsWordChar(c) || IsSpace(c) || c == '-'
  }

  /** The characters a derived slug is made of: `[a-z0-9_-]`. */
  predicate IsSlugChar(c: char) {
    ('a' <= c <= 'z') || IsDigit(c) || c == '_' || c == '-'
  }

  /** `.replace(/[^\w\s-]/g, "")`. */
  function StripSpecial(s: string): string {
    if s == [] then []
    else if Kept(s[0]) then [s[0]] + StripSpecial(s[1..])
    else StripSpecial(s[1..])
  }

  /** Stripping keeps only characters of `[\w\s-]`, each taken from its input. */
  lemma {:induction false} StripSpecialChars(s: string)
    ensures forall c :: c in StripSpecial(s) ==> c in s && Kept(c)
  {
    if s != [] {
      StripSpecialChars(s[1..]);
      assert forall c :: c in s[1..] ==> c in s;
    }
  }

  /**
   * `.replace(/X+/g, r)` where `X` is the character class `p`: every maximal run
   * of characters in the class is replaced by the single character `r`. A class
   * character followed by another one is dropped; the last one of a run becomes `r`.
   */
  function ReplaceRuns(s: string, p: char -> bool, r: char): (out: string)
    ensures s == [] <==> out == []
    ensures s != [] ==> out[0] == if p(s[0]) then r else s[0]
  {
    if s == [] then []
    else if p(s[0]) && |s| > 1 && p(s[1]) then ReplaceRuns(s[1..], p, r)
    else if p(s[0]) then [r] + ReplaceRuns(s[1..], p, r)
    else [s[0]] + ReplaceRuns(s[1..], p, r)
  }

  /** `.replace(/^-+|-+$/g, "")`. */
  function TrimHyphens(s: string): string {
    DropWhileEnd(DropWhile(s, IsHyphen), IsHyphen)
  }

  /** The slug the pre-save hook assigns for a given title. */
  function Slugify(title: string): string {
    var stripped := StripSpecial(Trim(Lower(title)));
    TrimHyphens(ReplaceRuns(ReplaceRuns(stripped, IsSpace, '-'), IsHyphen, '-'))
  }

  ghost predicate NoDoubleHyphen(s: string) {
    forall i :: 0 <= i < |s| - 1 ==> !(s[i] == '-' && s[i + 1] == '-')
  }

  /** What a derived slug looks like: `[a-z0-9_-]` only, no hyphen at either end, no two hyphens in a row. */
  ghost predicate IsSlug(s: string) {
    && (forall i :: 0 <= i < |s| ==> IsSlugChar(s[i]))
    && (s != [] ==> s[0] != '-' && s[|s| - 1] != '-')
    && NoDoubleHyphen(s)
  }

  /** The word characters of `s`, in order: what a slug keeps of a title. */
  function WordChars(s: string): string {
    if s == [] then []
    else if IsWordChar(s[0]) then [s[0]] + WordChars(s[1..])
    else WordChars(s[1..])
  }

  // ---- shape of the slug ----

  /** Every character the replacement produces is `r` or a character of the input outside the class. */
  lemma {:induction false} ReplaceRunsChars(s: string, p: char -> bool, r: char)
    ensures forall c :: c in ReplaceRuns(s, p, r) ==> c == r || (c in s && !p(c))
  {
    if s != [] {
      ReplaceRunsChars(s[1..], p, r);
      assert forall c :: c in s[1..] ==> c in s;
    }
  }

  lemma {:induction false} CollapsedHasNoDoubleHyphen(s: string)
    ensures NoDoubleHyphen(ReplaceRuns(s, IsHyphen, '-'))
  {
    if s != [] {
      CollapsedHasNoDoubleHyphen(s[1..]);
      var rest := ReplaceRuns(s[1..], IsHyphen, '-');
      if IsHyphen(s[0]) && |s| > 1 && IsHyphen(s[1]) {
      } else if IsHyphen(s[0]) {
        assert ReplaceRuns(s, IsHyphen, '-') == ['-'] + rest;
        assert rest != [] ==> rest[0] == s[1];
      } else {
        assert ReplaceRuns(s, IsHyphen, '-') == [s[0]] + rest;
      }
    }
  }

  lemma NoDoubleHyphenSlice(s: string, i: nat, j: nat)
    requires i <= j <= |s| && NoDoubleHyphen(s)
    ensures NoDoubleHyphen(s[i..j])
  {
    forall k | 0 <= k < j - i - 1 ensures !(s[i..j][k] == '-' && s[i..j][k + 1] == '-') {
      assert s[i..j][k] == s[i + k] && s[i..j][k + 1] == s[i + k + 1];
    }
  }

  /** Characters of the lower-cased title that get through trimming and stripping. */
  lemma StrippedChars(title: string)
    ensures forall c :: c in StripSpecial(Trim(Lower(title))) ==> !('A' <= c <= 'Z') && Kept(c)
  {
    var lowered := Lower(title);
    var trimmed := Trim(lowered);
    TrimShape(lowered);
    StripSpecialChars(trimmed);
    forall c | c in StripSpecial(trimmed) ensures !('A' <= c <= 'Z') {
      assert c in trimmed;
      var i :| 0 <= i < |trimmed| && trimmed[i] == c;
      assert c in lowered;
    }
  }

  /** Every character of a derived slug is in `[a-z0-9_-]`. */
  lemma SlugifyChars(title: string)
    ensures forall i :: 0 <= i < |Slugify(title)| ==> IsSlugChar(Slugify(title)[i])
  {
    StrippedChars(title);
    var stripped := StripSpecial(Trim(Lower(title)));
    var spaced := ReplaceRuns(stripped, IsSpace, '-');
    var collapsed := ReplaceRuns(spaced, IsHyphen, '-');
    var front := DropWhile(collapsed, IsHyphen);
    var slug := DropWhileEnd(front, IsHyphen);
    ReplaceRunsChars(stripped, IsSpace, '-');
    ReplaceRunsChars(spaced, IsHyphen, '-');
    DropWhileSuffix(collapsed, IsHyphen);
    DropWhileEndPrefix(front, IsHyphen);
    forall i | 0 <= i < |slug| ensures IsSlugChar(slug[i]) {
      assert front[i] == slug[i];
      assert slug[i] in collapsed;
    }
  }

  /** Every derived slug has the slug shape: the title's other characters are gone or became hyphens. */
  lemma SlugifyIsSlug(title: string)
    ensures IsSlug(Slugify(title))
  {
    SlugifyChars(title);
    var spaced := ReplaceRuns(StripSpecial(Trim(Lower(title))), IsSpace, '-');
    var collapsed := ReplaceRuns(spaced, IsHyphen, '-');
    var front := DropWhile(collapsed, IsHyphen);
    var slug := DropWhileEnd(front, IsHyphen);
    assert slug == Slugify(title);
    DropWhileSuffix(collapsed, IsHyphen);
    DropWhileEndPrefix(front, IsHyphen);
    CollapsedHasNoDoubleHyphen(spaced);
    NoDoubleHyphenSlice(collapsed, |collapsed| - |front|, |collapsed|);
    NoDoubleHyphenSlice(front, 0, |slug|);
    assert slug != [] ==> slug[0] == front[0];
  }

  // ---- content of the slug ----

  lemma {:induction false} WordCharsAppend(a: string, b: string)
    ensures WordChars(a + b) == WordChars(a) + WordChars(b)
    decreases |a|
  {
    if a != [] {
      assert (a + b)[0] == a[0];
      assert (a + b)[1..] == a[1..] + b;
      WordCharsAppend(a[1..], b);
    } else {
      assert a + b == b;
    }
  }

  lemma {:induction false} WordCharsNone(s: string)
    requires forall c :: c in s ==> !IsWordChar(c)
    ensures WordChars(s) == []
    decreases |s|
  {
    if s != [] {
      assert s[0] in s;
      assert forall c :: c in s[1..] ==> c in s;
      WordCharsNone(s[1..]);
    }
  }

  /** Dropping characters that are not word characters from the front keeps the word characters. */
  lemma DropKeepsWordChars(s: string, p: char -> bool)
    requires forall c :: p(c) ==> !IsWordChar(c)
    ensures WordChars(DropWhile(s, p)) == WordChars(s)
  {
    var front := DropWhile(s, p);
    var k := |s| - |front|;
    DropWhileSuffix(s, p);
    assert s == s[..k] + front;
    WordCharsAppend(s[..k], front);
    WordCharsNone(s[..k]);
  }

  /** Dropping characters that are not word characters from the back keeps the word characters. */
  lemma DropEndKeepsWordChars(s: string, p: char -> bool)
    requires forall c :: p(c) ==> !IsWordChar(c)
    ensures WordChars(DropWhileEnd(s, p)) == WordChars(s)
  {
    var back := DropWhileEnd(s, p);
    DropWhileEndPrefix(s, p);
    assert s == back + s[|back|..];
    WordCharsAppend(back, s[|back|..]);
    WordCharsNone(s[|back|..]);
  }

  lemma {:induction false} StripKeepsWordChars(s: string)
    ensures WordChars(StripSpecial(s)) == WordChars(s)
    decreases |s|
  {
    if s != [] {
      StripKeepsWordChars(s[1..]);
      if Kept(s[0]) {
        WordCharsAppend([s[0]], StripSpecial(s[1..]));
      }
    }
  }

  lemma {:induction false} ReplaceKeepsWordChars(s: string, p: char -> bool, r: char)
    requires !IsWordChar(r) && forall c :: p(c) ==> !IsWordChar(c)
    ensures WordChars(ReplaceRuns(s, p, r)) == WordChars(s)
  {
    if s != [] {
      ReplaceKeepsWordChars(s[1..], p, r);
      var rest := ReplaceRuns(s[1..], p, r);
      if p(s[0]) && |s| > 1 && p(s[1]) {
      } else if p(s[0]) {
        WordCharsAppend([r], rest);
      } else {
        WordCharsAppend([s[0]], rest);
      }
    }
  }

  /**
   * Every word character of the lower-cased title survives into the slug, in
   * order, and no other word character appears there.
   */
  lemma SlugKeepsWordChars(title: string)
    ensures WordChars(Slugify(title)) == WordChars(Lower(title))
  {
    var lowered := Lower(title);
    DropKeepsWordChars(lowered, IsSpace);
    DropEndKeepsWordChars(DropWhile(lowered, IsSpace), IsSpace);
    var stripped := StripSpecial(Trim(lowered));
    StripKeepsWordChars(Trim(lowered));
    var spaced := ReplaceRuns(stripped, IsSpace, '-');
    ReplaceKeepsWordChars(stripped, IsSpace, '-');
    var collapsed := ReplaceRuns(spaced, IsHyphen, '-');
    ReplaceKeepsWordChars(spaced, IsHyphen, '-');
    DropKeepsWordChars(collapsed, IsHyphen);
    DropEndKeepsWordChars(DropWhile(collapsed, IsHyphen), IsHyphen);
  }

  // ---- a slug is its own slug ----

  lemma {:induction false} StripNoOp(s: string)
    requires forall i :: 0 <= i < |s| ==> Kept(s[i])
    ensures StripSpecial(s) == s
  {
    if s != [] {
      assert Kept(s[0]);
      StripNoOp(s[1..]);
    }
  }

  lemma {:induction false} ReplaceRunsNoMatch(s: string, p: char -> bool, r: char)
    requires forall i :: 0 <= i < |s| ==> !p(s[i])
    ensures ReplaceRuns(s, p, r) == s
  {
    if s != [] {
      assert !p(s[0]);
      ReplaceRunsNoMatch(s[1..], p, r);
    }
  }

  lemma {:induction false} CollapseNoOp(s: string)
    requires NoDoubleHyphen(s)
    ensures ReplaceRuns(s, IsHyphen, '-') == s
  {
    if s != [] {
      NoDoubleHyphenSlice(s, 1, |s|);
      CollapseNoOp(s[1..]);
    }
  }

  /** The lower-case and trim setters of the `slug` path leave a slug unchanged. */
  lemma SlugSettersNoOp(s: string)
    requires IsSlug(s)
    ensures Lower(s) == s && Trim(s) == s
  {
    if s != [] {
      assert IsSlugChar(s[0]) && IsSlugChar(s[|s| - 1]);
    }
    TrimNoOp(s);
  }

  /** Deriving a slug from a slug gives it back. */
  lemma SlugifyFixesSlugs(s: string)
    requires IsSlug(s)
    ensures Slugify(s) == s
  {
    SlugSettersNoOp(s);
    assert forall i :: 0 <= i < |s| ==> Kept(s[i]) && !IsSpace(s[i]) by {
      assert forall i :: 0 <= i < |s| ==> IsSlugChar(s[i]);
    }
    StripNoOp(s);
    ReplaceRunsNoMatch(s, IsSpace, '-');
    CollapseNoOp(s);
  }

  /** Re-deriving the slug of a derived slug changes nothing. */
  lemma SlugifyIdempotent(title: string)
    ensures Slugify(Slugify(title)) == Slugify(title)
  {
    SlugifyIsSlug(title);
    SlugifyFixesSlugs(Slugify(title));
  }

  // ---- worked examples ----

  /** Text with no class character passes through the replacement unchanged, whatever follows it. */
  lemma {:induction false} ReplaceRunsAfterText(w: string, b: string, p: char -> bool, r: char)
    requires forall i :: 0 <= i < |w| ==> !p(w[i])
    ensures ReplaceRuns(w + b, p, r) == w + ReplaceRuns(b, p, r)
  {
    if w == [] {
      assert w + b == b;
    } else {
      assert !p(w[0]);
      assert (w + b)[0] == w[0];
      assert (w + b)[1..] == w[1..] + b;
      ReplaceRunsAfterText(w[1..], b, p, r);
    }
  }

  /** A run of class characters followed by text that does not start with one becomes a single `r`. */
  lemma {:induction false} ReplaceRunsOfRun(run: string, b: string, p: char -> bool, r: char)
    requires run != [] && (forall i :: 0 <= i < |run| ==> p(run[i]))
    requires b == [] || !p(b[0])
    ensures ReplaceRuns(run + b, p, r) == [r] + ReplaceRuns(b, p, r)
  {
    assert p(run[0]);
    assert (run + b)[0] == run[0];
    assert (run + b)[1..] == run[1..] + b;
    if |run| == 1 {
      assert run[1..] + b == b;
    } else {
      assert (run + b)[1] == run[1];
      ReplaceRunsOfRun(run[1..], b, p, r);
    }
  }

  lemma {:induction false} StripAllGone(s: string)
    requires forall i :: 0 <= i < |s| ==> !Kept(s[i])
    ensures StripSpecial(s) == []
  {
    if s != [] {
      assert !Kept(s[0]);
      StripAllGone(s[1..]);
    }
  }

  lemma {:induction false} StripAppend(a: string, b: string)
    ensures StripSpecial(a + b) == StripSpecial(a) + StripSpecial(b)
    decreases |a|
  {
    if a == [] {
      assert a + b == b;
    } else {
      assert (a + b)[0] == a[0];
      assert (a + b)[1..] == a[1..] + b;
      StripAppend(a[1..], b);
    }
  }

  lemma SpacedHyphenSpaces(s: string)
    requires s == "a - b"
    ensures ReplaceRuns(s, IsSpace, '-') == "a---b"
  {
    var a, b := "a", "b";
    assert s == a + (" " + ("-" + (" " + b)));
    ReplaceRunsNoMatch(b, IsSpace, '-');
    ReplaceRunsOfRun(" ", b, IsSpace, '-');
    ReplaceRunsAfterText("-", " " + b, IsSpace, '-');
    ReplaceRunsOfRun(" ", "-" + (" " + b), IsSpace, '-');
    ReplaceRunsAfterText(a, " " + ("-" + (" " + b)), IsSpace, '-');
  }

  lemma SpacedHyphenCollapse(s: string)
    requires s == "a---b"
    ensures TrimHyphens(ReplaceRuns(s, IsHyphen, '-')) == "a-b"
  {
    var a, b := "a", "b";
    assert s == a + ("---" + b);
    ReplaceRunsNoMatch(b, IsHyphen, '-');
    ReplaceRunsOfRun("---", b, IsHyphen, '-');
    ReplaceRunsAfterText(a, "---" + b, IsHyphen, '-');
  }

  /** Runs of white space and hyphens collapse: "a - b" gives "a-b". */
  lemma SpacedHyphenExample(title: string)
    requires title == "a - b"
    ensures Slugify(title) == "a-b"
  {
    assert Lower(title) == title;
    TrimNoOp(title);
    StripNoOp(title);
    SpacedHyphenSpaces(title);
    SpacedHyphenCollapse("a---b");
  }

  // ---- titles made of words ----

  /** `ws.join(sep)`. */
  function JoinWords(ws: seq<string>, sep: char): string {
    if |ws| == 0 then []
    else if |ws| == 1 then ws[0]
    else ws[0] + [sep] + JoinWords(ws[1..], sep)
  }

  /** One or more characters of `\w`. */
  ghost predicate IsWord(w: string) {
    w != [] && forall i :: 0 <= i < |w| ==> IsWordChar(w[i])
  }

  function LowerWords(ws: seq<string>): (r: seq<string>)
    ensures |r| == |ws| && forall k :: 0 <= k < |ws| ==> r[k] == Lower(ws[k])
  {
    seq(|ws|, k requires 0 <= k < |ws| => Lower(ws[k]))
  }

  lemma LowerAppend(a: string, b: string)
    ensures Lower(a + b) == Lower(a) + Lower(b)
  {
  }

  lemma LowerWord(w: string)
    requires IsWord(w)
    ensures IsWord(Lower(w))
  {
  }

  lemma {:induction false} LowerJoin(ws: seq<string>, sep: char)
    requires !('A' <= sep <= 'Z')
    ensures Lower(JoinWords(ws, sep)) == JoinWords(LowerWords(ws), sep)
    decreases |ws|
  {
    if |ws| >= 2 {
      LowerAppend(ws[0] + [sep], JoinWords(ws[1..], sep));
      LowerAppend(ws[0], [sep]);
      assert Lower([sep]) == [sep];
      LowerJoin(ws[1..], sep);
      assert LowerWords(ws)[1..] == LowerWords(ws[1..]);
    }
  }

  lemma {:induction false} JoinEnds(ws: seq<string>, sep: char)
    requires |ws| >= 1 && forall k :: 0 <= k < |ws| ==> ws[k] != []
    ensures var j := JoinWords(ws, sep);
      j != [] && j[0] == ws[0][0] && j[|j| - 1] == ws[|ws| - 1][|ws[|ws| - 1]| - 1]
    decreases |ws|
  {
    if |ws| >= 2 {
      JoinEnds(ws[1..], sep);
    }
  }

  lemma {:induction false} StripJoin(ws: seq<string>)
    requires forall k :: 0 <= k < |ws| ==> IsWord(ws[k])
    ensures StripSpecial(JoinWords(ws, ' ')) == JoinWords(ws, ' ')
    decreases |ws|
  {
    if |ws| == 1 {
      StripNoOp(ws[0]);
    } else if |ws| >= 2 {
      var rest := JoinWords(ws[1..], ' ');
      StripAppend(ws[0] + [' '], rest);
      StripAppend(ws[0], [' ']);
      StripNoOp(ws[0]);
      StripNoOp([' ']);
      StripJoin(ws[1..]);
    }
  }

  /** Joining with a class character and replacing runs of the class is joining with the replacement. */
  lemma {:induction false} ReplaceJoin(ws: seq<string>, sep: char, p: char -> bool, r: char)
    requires p(sep)
    requires forall k :: 0 <= k < |ws| ==> ws[k] != []
    requires forall k, i :: 0 <= k < |ws| && 0 <= i < |ws[k]| ==> !p(ws[k][i])
    ensures ReplaceRuns(JoinWords(ws, sep), p, r) == JoinWords(ws, r)
    decreases |ws|
  {
    if |ws| == 1 {
      ReplaceRunsNoMatch(ws[0], p, r);
    } else if |ws| >= 2 {
      var rest := JoinWords(ws[1..], sep);
      assert JoinWords(ws, sep) == ws[0] + ([sep] + rest);
      JoinEnds(ws[1..], sep);
      assert !p(ws[1][0]);
      ReplaceRunsAfterText(ws[0], [sep] + rest, p, r);
      ReplaceRunsOfRun([sep], rest, p, r);
      ReplaceJoin(ws[1..], sep, p, r);
    }
  }

  lemma TrimHyphensNoOp(s: string)
    requires s == [] || (!IsHyphen(s[0]) && !IsHyphen(s[|s| - 1]))
    ensures TrimHyphens(s) == s
  {
  }

  lemma LowerWordsAndJunk(ws: seq<string>, junk: string)
    requires forall i :: 0 <= i < |junk| ==> !Kept(junk[i])
    ensures Lower(JoinWords(ws, ' ') + junk) == JoinWords(LowerWords(ws), ' ') + junk
  {
    LowerAppend(JoinWords(ws, ' '), junk);
    LowerJoin(ws, ' ');
    assert Lower(junk) == junk;
  }

  lemma WordCharNotSpace(c: char)
    requires IsWordChar(c)
    ensures !IsSpace(c) && !IsHyphen(c)
  {
  }

  lemma JoinedWordEnds(ws: seq<string>)
    requires |ws| >= 1 && forall k :: 0 <= k < |ws| ==> IsWord(ws[k])
    ensures var j := JoinWords(ws, ' '); j != [] && IsWordChar(j[0]) && IsWordChar(j[|j| - 1])
  {
    JoinEnds(ws, ' ');
    assert IsWord(ws[0]) && IsWord(ws[|ws| - 1]);
  }

  lemma TrimWordsAndJunk(ws: seq<string>, junk: string)
    requires |ws| >= 1 && forall k :: 0 <= k < |ws| ==> IsWord(ws[k])
    requires forall i :: 0 <= i < |junk| ==> !Kept(junk[i])
    ensures Trim(JoinWords(ws, ' ') + junk) == JoinWords(ws, ' ') + junk
  {
    var j := JoinWords(ws, ' ');
    JoinedWordEnds(ws);
    var s := j + junk;
    assert s[0] == j[0];
    WordCharNotSpace(j[0]);
    if junk == [] {
      assert s == j;
      WordCharNotSpace(j[|j| - 1]);
    } else {
      assert s[|s| - 1] == junk[|junk| - 1];
      assert !Kept(junk[|junk| - 1]);
    }
    TrimNoOp(s);
  }

  lemma StripWordsAndJunk(ws: seq<string>, junk: string)
    requires forall k :: 0 <= k < |ws| ==> IsWord(ws[k])
    requires forall i :: 0 <= i < |junk| ==> !Kept(junk[i])
    ensures StripSpecial(JoinWords(ws, ' ') + junk) == JoinWords(ws, ' ')
  {
    StripAppend(JoinWords(ws, ' '), junk);
    StripJoin(ws);
    StripAllGone(junk);
  }

  lemma TrimJoinedHyphens(ws: seq<string>)
    requires |ws| >= 1 && forall k :: 0 <= k < |ws| ==> IsWord(ws[k])
    ensures TrimHyphens(JoinWords(ws, '-')) == JoinWords(ws, '-')
  {
    var j := JoinWords(ws, '-');
    JoinEnds(ws, '-');
    assert IsWord(ws[0]) && IsWord(ws[|ws| - 1]);
    WordCharNotSpace(j[0]);
    WordCharNotSpace(j[|j| - 1]);
    TrimHyphensNoOp(j);
  }

  lemma HyphenateWords(ws: seq<string>)
    requires |ws| >= 1 && forall k :: 0 <= k < |ws| ==> IsWord(ws[k])
    ensures TrimHyphens(ReplaceRuns(ReplaceRuns(JoinWords(ws, ' '), IsSpace, '-'), IsHyphen, '-'))
      == JoinWords(ws, '-')
  {
    forall k, i | 0 <= k < |ws| && 0 <= i < |ws[k]|
      ensures !IsSpace(ws[k][i]) && !IsHyphen(ws[k][i])
    {
      WordCharNotSpace(ws[k][i]);
    }
    ReplaceJoin(ws, ' ', IsSpace, '-');
    ReplaceJoin(ws, '-', IsHyphen, '-');
    TrimJoinedHyphens(ws);
  }

  /**
   * A title made of words separated by single spaces, followed by punctuation that
   * is not kept, slugs to its lowered words joined by hyphens.
   */
  lemma SlugOfWords(ws: seq<string>, junk: string)
    requires |ws| >= 1 && forall k :: 0 <= k < |ws| ==> IsWord(ws[k])
    requires forall i :: 0 <= i < |junk| ==> !Kept(junk[i])
    ensures Slugify(JoinWords(ws, ' ') + junk) == JoinWords(LowerWords(ws), '-')
  {
    var lws := LowerWords(ws);
    forall k | 0 <= k < |lws|
      ensures IsWord(lws[k])
    {
      LowerWord(ws[k]);
    }
    LowerWordsAndJunk(ws, junk);
    TrimWordsAndJunk(lws, junk);
    StripWordsAndJunk(lws, junk);
    HyphenateWords(lws);
  }

  lemma ReactSummitWords(ws: seq<string>)
    requires ws == ["React", "Summit", "2025"]
    ensures |ws| >= 1 && forall k :: 0 <= k < |ws| ==> IsWord(ws[k])
    ensures JoinWords(LowerWords(ws), '-') == "react-summit-2025"
  {
    assert IsWord(ws[0]) && IsWord(ws[1]) && IsWord(ws[2]);
    assert Lower("React") == "react";
    assert Lower("Summit") == "summit";
    assert Lower("2025") == "2025";
    assert LowerWords(ws) == ["react", "summit", "2025"];
    assert JoinWords(["react", "summit", "2025"], '-') == "react-summit-2025";
  }

  lemma ReactSummitTitle(title: string, ws: seq<string>, bangs: string)
    requires title == "React Summit 2025!!" && ws == ["React", "Summit", "2025"] && bangs == "!!"
    ensures title == JoinWords(ws, ' ') + bangs
    ensures forall i :: 0 <= i < |bangs| ==> !Kept(bangs[i])
  {
    assert ws[2..] == ["2025"] && ws[1..] == ["Summit", "2025"];
    assert JoinWords(ws[2..], ' ') == "2025";
    assert JoinWords(ws[1..], ' ') == "Summit 2025";
    assert JoinWords(ws, ' ') == "React Summit 2025";
  }

  /** Upper case is lowered, spaces become hyphens and trailing punctuation goes. */
  lemma ReactSummitExample(title: string, ws: seq<string>, bangs: string)
    requires title == "React Summit 2025!!" && ws == ["React", "Summit", "2025"] && bangs == "!!"
    ensures Slugify(title) == "react-summit-2025"
  {
    ReactSummitTitle(title, ws, bangs);
    ReactSummitWords(ws);
    SlugOfWords(ws, bangs);
  }
}
