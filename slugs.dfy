/**
 * `generateSlug` of the frontend utilities: a chain of five string
 * replacements that turns a post title into a URL slug.
 *
 *   1. drop every character other than ASCII letters, digits and the space;
 *   2. trim white space at both ends;
 *   3. merge each run of spaces into one space;
 *   4. turn every white-space character into `-`;
 *   5. lower-case.
 */
module Slugs {
  import opened Text

  /** Characters that survive `/[^a-zA-Z0-9 ]/g`. */
  predicate IsKept(c: char) { IsAsciiAlphanumeric(c) || c == ' ' }

  /** The characters a finished slug may contain: `a-z`, `0-9` and `-`. */
  predicate IsSlugChar(c: char) { IsAsciiLower(c) || IsAsciiDigit(c) || c == '-' }

  /** Step 1: `replace(/[^a-zA-Z0-9 ]/g, '')`. */
  function DropDisallowed(s: string): (r: string)
    ensures |r| <= |s|
    ensures forall i :: 0 <= i < |r| ==> IsKept(r[i])
    ensures (forall i :: 0 <= i < |s| ==> IsKept(s[i])) ==> r == s
  {
    if s == [] then []
    else (if IsKept(s[0]) then [s[0]] else []) + DropDisallowed(s[1..])
  }

  /** The leading half of step 2. */
  function TrimStart(s: string): (r: string)
    ensures |r| <= |s|
    ensures r == [] || !IsJsWhitespace(r[0])
  {
    if s != [] && IsJsWhitespace(s[0]) then TrimStart(s[1..]) else s
  }

  /** The trailing half of step 2. */
  function TrimEnd(s: string): (r: string)
    ensures |r| <= |s|
    ensures r == [] || !IsJsWhitespace(r[|r| - 1])
  {
    if s != [] && IsJsWhitespace(s[|s| - 1]) then TrimEnd(s[..|s| - 1]) else s
  }

  /** Step 2: `trim()`. */
  function Trim(s: string): (r: string)
    ensures |r| <= |s|
    ensures r == [] || (!IsJsWhitespace(r[0]) && !IsJsWhitespace(r[|r| - 1]))
  {
    TrimEndRemovesTrailingWhitespace(TrimStart(s));
    TrimEnd(TrimStart(s))
  }

  /** No space directly follows another. */
  predicate NoDoubleSpace(t: string)
  {
    forall i, j :: 0 <= i < |t| && 0 <= j < |t| && j == i + 1 ==> !(t[i] == ' ' && t[j] == ' ')
  }

  /** Step 3: `replace(/ +/g, ' ')`; a space followed by a space is dropped. */
  function MergeSpaces(s: string): (r: string)
    ensures |r| <= |s|
    ensures |s| > 0 ==> |r| > 0 && r[0] == s[0] && r[|r| - 1] == s[|s| - 1]
    ensures NoDoubleSpace(r)
  {
    if |s| <= 1 then s
    else if s[0] == ' ' && s[1] == ' ' then MergeSpaces(s[1..])
    else [s[0]] + MergeSpaces(s[1..])
  }

  /** Step 4: `replace(/\s/g, '-')`. */
  function WhitespaceToDash(s: string): (r: string)
    ensures |r| == |s|
  {
    if s == [] then [] else [if IsJsWhitespace(s[0]) then '-' else s[0]] + WhitespaceToDash(s[1..])
  }

  /** Step 4 changes each white-space character into a dash and leaves every other character alone. */
  lemma {:induction false} WhitespaceToDashAt(s: string)
    ensures forall i :: 0 <= i < |s| ==> WhitespaceToDash(s)[i] == if IsJsWhitespace(s[i]) then '-' else s[i]
  {
    if s != [] {
      WhitespaceToDashAt(s[1..]);
      assert forall i :: 1 <= i < |s| ==> WhitespaceToDash(s)[i] == WhitespaceToDash(s[1..])[i - 1];
    }
  }

  /** `generateSlug(input)`: the five steps in order, the last being `toLowerCase()`. */
  function GenerateSlug(input: string): (r: string)
    ensures |r| <= |input|
  {
    ToLower(WhitespaceToDash(MergeSpaces(Trim(DropDisallowed(input)))))
  }

  /**
   * The words of `s`, its maximal runs of characters other than the space,
   * joined by single dashes: spaces before the first word and after the last
   * are dropped, and any run of spaces between two words becomes one `-`.
   * `started` says a word has been written; `pending` that a space has been
   * passed since then.
   */
  function JoinWords(s: string, pending: bool, started: bool): string
  {
    if s == [] then []
    else if s[0] == ' ' then JoinWords(s[1..], started, started)
    else (if pending then "-" else "") + [s[0]] + JoinWords(s[1..], false, true)
  }

  /** `s` with every `-` deleted. */
  function RemoveDashes(s: string): (r: string)
  {
    if s == [] then [] else (if s[0] == '-' then [] else [s[0]]) + RemoveDashes(s[1..])
  }

  predicate NoEdgeDash(s: string) { s == [] || (s[0] != '-' && s[|s| - 1] != '-') }

  predicate NoDoubleDash(s: string) { forall i :: 0 <= i < |s| - 1 ==> !(s[i] == '-' && s[i + 1] == '-') }

  // ---------------------------------------------------------------------------
  // The string just before step 4: kept characters only, no space at either
  // end, no two spaces in a row, and the same letters and digits as the input.

  predicate SpacedWords(t: string)
  {
    && AllKept(t)
    && (t == [] || (t[0] != ' ' && t[|t| - 1] != ' '))
    && NoDoubleSpace(t)
  }

  predicate AllKept(s: string) { forall i :: 0 <= i < |s| ==> IsKept(s[i]) }

  lemma AllKeptSuffix(s: string, k: nat)
    requires AllKept(s) && k <= |s|
    ensures AllKept(s[k..])
  {
    forall i | 0 <= i < |s| - k
      ensures IsKept(s[k..][i])
    {
      assert s[k..][i] == s[k + i];
    }
  }

  lemma NoDoubleSpaceSuffix(s: string, k: nat)
    requires NoDoubleSpace(s) && k <= |s|
    ensures NoDoubleSpace(s[k..])
  {
    forall i, j | 0 <= i < |s| - k && 0 <= j < |s| - k && j == i + 1
      ensures !(s[k..][i] == ' ' && s[k..][j] == ' ')
    {
      assert s[k..][i] == s[k + i] && s[k..][j] == s[k + j];
    }
  }

  /** Step 1 keeps a letter, digit or space and drops any other character. */
  lemma DropDisallowedOfChar(c: char)
    ensures DropDisallowed([c]) == if IsKept(c) then [c] else []
  {
    assert [c][1..] == [];
  }

  /** Step 1 works character by character: filtering a concatenation filters each part. */
  lemma {:induction false} DropDisallowedOfConcat(a: string, b: string)
    ensures DropDisallowed(a + b) == DropDisallowed(a) + DropDisallowed(b)
  {
    if a == [] {
      assert a + b == b;
    } else {
      assert (a + b)[0] == a[0] && (a + b)[1..] == a[1..] + b;
      DropDisallowedOfConcat(a[1..], b);
    }
  }

  lemma {:induction false} DropDisallowedAlphanumerics(s: string)
    ensures AsciiAlphanumerics(DropDisallowed(s)) == AsciiAlphanumerics(s)
  {
    if s != [] {
      DropDisallowedAlphanumerics(s[1..]);
      var head := if IsKept(s[0]) then [s[0]] else [];
      AlphanumericsOfConcat(head, DropDisallowed(s[1..]));
    }
  }

  /** `TrimStart` removes white space in front of its result and nothing else. */
  lemma {:induction false} TrimStartRemovesLeadingWhitespace(s: string)
    ensures |TrimStart(s)| <= |s| && TrimStart(s) == s[|s| - |TrimStart(s)|..]
    ensures forall i :: 0 <= i < |s| - |TrimStart(s)| ==> IsJsWhitespace(s[i])
  {
    if s != [] && IsJsWhitespace(s[0]) {
      TrimStartRemovesLeadingWhitespace(s[1..]);
      var k := |s| - |TrimStart(s)|;
      assert s[1..][k - 1..] == s[k..];
      forall i | 1 <= i < k
        ensures IsJsWhitespace(s[i])
      {
        assert s[i] == s[1..][i - 1];
      }
    }
  }

  /** `TrimEnd` removes white space behind its result and nothing else. */
  lemma {:induction false} TrimEndRemovesTrailingWhitespace(s: string)
    ensures |TrimEnd(s)| <= |s| && TrimEnd(s) == s[..|TrimEnd(s)|]
    ensures forall i :: |TrimEnd(s)| <= i < |s| ==> IsJsWhitespace(s[i])
  {
    if s != [] && IsJsWhitespace(s[|s| - 1]) {
      var init := s[..|s| - 1];
      TrimEndRemovesTrailingWhitespace(init);
      assert init[..|TrimEnd(s)|] == s[..|TrimEnd(s)|];
      forall i | |TrimEnd(s)| <= i < |s| - 1
        ensures IsJsWhitespace(s[i])
      {
        assert s[i] == init[i];
      }
    }
  }

  lemma {:induction false} TrimStartAlphanumerics(s: string)
    ensures AsciiAlphanumerics(TrimStart(s)) == AsciiAlphanumerics(s)
  {
    if s != [] && IsJsWhitespace(s[0]) {
      TrimStartAlphanumerics(s[1..]);
      assert !IsAsciiAlphanumeric(s[0]);
    }
  }

  lemma {:induction false} TrimEndAlphanumerics(s: string)
    ensures AsciiAlphanumerics(TrimEnd(s)) == AsciiAlphanumerics(s)
  {
    if s != [] && IsJsWhitespace(s[|s| - 1]) {
      var init := s[..|s| - 1];
      TrimEndAlphanumerics(init);
      assert s == init + [s[|s| - 1]];
      AlphanumericsOfConcat(init, [s[|s| - 1]]);
    }
  }

  lemma TrimStartKept(s: string)
    requires AllKept(s)
    ensures AllKept(TrimStart(s))
    ensures AsciiAlphanumerics(TrimStart(s)) == AsciiAlphanumerics(s)
  {
    TrimStartRemovesLeadingWhitespace(s);
    AllKeptSuffix(s, |s| - |TrimStart(s)|);
    TrimStartAlphanumerics(s);
  }

  lemma TrimEndKept(s: string)
    requires AllKept(s)
    ensures AllKept(TrimEnd(s))
    ensures AsciiAlphanumerics(TrimEnd(s)) == AsciiAlphanumerics(s)
    ensures s != [] && !IsJsWhitespace(s[0]) ==> TrimEnd(s) != [] && TrimEnd(s)[0] == s[0]
  {
    var r := TrimEnd(s);
    TrimEndRemovesTrailingWhitespace(s);
    assert forall i :: 0 <= i < |r| ==> r[i] == s[i];
    TrimEndAlphanumerics(s);
  }

  lemma {:induction false} TrimStartKeepsWords(s: string)
    requires AllKept(s)
    ensures JoinWords(TrimStart(s), false, false) == JoinWords(s, false, false)
  {
    if s != [] && IsJsWhitespace(s[0]) {
      assert s[0] == ' ';
      AllKeptSuffix(s, 1);
      TrimStartKeepsWords(s[1..]);
    }
  }

  /** A trailing space never produces a dash: no word follows it. */
  lemma {:induction false} TrailingSpaceAddsNoDash(s: string, pending: bool, started: bool)
    ensures JoinWords(s + " ", pending, started) == JoinWords(s, pending, started)
  {
    if s == [] {
      assert [] + " " == " " && " "[1..] == [];
    } else {
      assert (s + " ")[0] == s[0] && (s + " ")[1..] == s[1..] + " ";
      if s[0] == ' ' {
        TrailingSpaceAddsNoDash(s[1..], started, started);
      } else {
        TrailingSpaceAddsNoDash(s[1..], false, true);
      }
    }
  }

  lemma {:induction false} TrimEndKeepsWords(s: string, pending: bool, started: bool)
    requires AllKept(s)
    ensures JoinWords(TrimEnd(s), pending, started) == JoinWords(s, pending, started)
  {
    if s != [] && IsJsWhitespace(s[|s| - 1]) {
      var init := s[..|s| - 1];
      assert s == init + " ";
      TrimEndKeepsWords(init, pending, started);
      TrailingSpaceAddsNoDash(init, pending, started);
    }
  }

  /** Trimming a string of kept characters leaves kept characters, no edge space, and the same letters and digits. */
  lemma TrimKept(d: string)
    requires AllKept(d)
    ensures AllKept(Trim(d))
    ensures Trim(d) == [] || (Trim(d)[0] != ' ' && Trim(d)[|Trim(d)| - 1] != ' ')
    ensures AsciiAlphanumerics(Trim(d)) == AsciiAlphanumerics(d)
  {
    TrimStartKept(d);
    TrimEndKept(TrimStart(d));
  }

  /** Trimming a string of kept characters keeps its words: edge spaces never give a dash. */
  lemma TrimKeepsWords(d: string)
    requires AllKept(d)
    ensures JoinWords(Trim(d), false, false) == JoinWords(d, false, false)
  {
    TrimStartKept(d);
    TrimStartKeepsWords(d);
    TrimEndKeepsWords(TrimStart(d), false, false);
  }

  lemma {:induction false} MergeSpacesKept(s: string)
    requires AllKept(s)
    ensures AllKept(MergeSpaces(s))
    ensures AsciiAlphanumerics(MergeSpaces(s)) == AsciiAlphanumerics(s)
  {
    if |s| > 1 {
      MergeSpacesKept(s[1..]);
    }
  }

  /**
   * Merging spaces keeps the words and the gaps between them: each run of
   * spaces keeps one space, so every dash of `JoinWords` survives.
   */
  lemma {:induction false} MergeSpacesKeepsWords(s: string, pending: bool, started: bool)
    ensures JoinWords(MergeSpaces(s), pending, started) == JoinWords(s, pending, started)
  {
    if |s| > 1 {
      if s[0] == ' ' && s[1] == ' ' {
        MergeSpacesKeepsWords(s[1..], pending, started);
        assert s[1..][0] == ' ' && s[1..][1..] == s[2..];
      } else {
        var r := [s[0]] + MergeSpaces(s[1..]);
        assert r[0] == s[0] && r[1..] == MergeSpaces(s[1..]);
        if s[0] == ' ' {
          MergeSpacesKeepsWords(s[1..], started, started);
        } else {
          MergeSpacesKeepsWords(s[1..], false, true);
        }
      }
    }
  }

  lemma BeforeDashes(input: string)
    ensures SpacedWords(MergeSpaces(Trim(DropDisallowed(input))))
    ensures AsciiAlphanumerics(MergeSpaces(Trim(DropDisallowed(input)))) == AsciiAlphanumerics(input)
  {
    var d := DropDisallowed(input);
    DropDisallowedAlphanumerics(input);
    TrimKept(d);
    MergeSpacesKept(Trim(d));
  }

  lemma {:induction false} LetterDigitOrDashAlphanumerics(s: string)
    requires forall i :: 0 <= i < |s| ==> IsAsciiAlphanumeric(s[i]) || s[i] == '-'
    ensures RemoveDashes(s) == AsciiAlphanumerics(s)
  {
    if s != [] {
      LetterDigitOrDashAlphanumerics(s[1..]);
    }
  }

  lemma {:induction false} DashesReplaceSpaces(t: string)
    requires forall i :: 0 <= i < |t| ==> IsKept(t[i])
    ensures AsciiAlphanumerics(WhitespaceToDash(t)) == AsciiAlphanumerics(t)
  {
    if t != [] {
      DashesReplaceSpaces(t[1..]);
    }
  }

  /** After a word, a single space followed by a letter or digit gives one dash, then that character. */
  lemma SpaceThenWord(t: string)
    requires |t| >= 2 && t[0] == ' ' && IsAsciiAlphanumeric(t[1])
    ensures JoinWords(t, false, true) == "-" + [t[1]] + JoinWords(t[2..], false, true)
    ensures WhitespaceToDash(t) == "-" + [t[1]] + WhitespaceToDash(t[2..])
  {
    var w := t[1..];
    assert w[0] == t[1] && w[1..] == t[2..];
    assert JoinWords(t, false, true) == JoinWords(w, true, true);
  }

  /** Letters and digits, each possibly preceded by one space: words separated by single spaces. */
  predicate SingleSpaced(t: string)
    decreases |t|
  {
    || t == []
    || (IsAsciiAlphanumeric(t[0]) && SingleSpaced(t[1..]))
    || (|t| >= 2 && t[0] == ' ' && IsAsciiAlphanumeric(t[1]) && SingleSpaced(t[2..]))
  }

  lemma {:induction false} KeptIsSingleSpaced(t: string)
    requires AllKept(t) && NoDoubleSpace(t)
    requires t == [] || t[|t| - 1] != ' '
    ensures SingleSpaced(t)
    decreases |t|
  {
    if t != [] {
      var k := if t[0] == ' ' then 2 else 1;
      assert t[0] == ' ' ==> |t| >= 2 && t[1] != ' ' && IsAsciiAlphanumeric(t[1]);
      AllKeptSuffix(t, k);
      NoDoubleSpaceSuffix(t, k);
      assert t[k..] == [] || t[k..][|t[k..]| - 1] == t[|t| - 1];
      KeptIsSingleSpaced(t[k..]);
    }
  }

  /**
   * On words separated by single spaces, step 4 puts a dash exactly where
   * `JoinWords` does. Before the first word (`started` false) the string
   * must not open with a space.
   */
  lemma {:induction false} DashesJoinWords(t: string, started: bool)
    requires SingleSpaced(t)
    requires started || t == [] || t[0] != ' '
    ensures JoinWords(t, false, started) == WhitespaceToDash(t)
    decreases |t|
  {
    if t != [] && t[0] == ' ' {
      SpaceThenWord(t);
      DashesJoinWords(t[2..], true);
    } else if t != [] {
      assert IsAsciiAlphanumeric(t[0]);
      DashesJoinWords(t[1..], true);
    }
  }

  // ---------------------------------------------------------------------------
  // Properties of the finished slug.

  /**
   * The slug is the words of the input, once the characters other than ASCII
   * letters, digits and the space are dropped, joined by single dashes and
   * lower-cased.
   */
  lemma SlugIsJoinedWords(input: string)
    ensures GenerateSlug(input) == ToLower(JoinWords(DropDisallowed(input), false, false))
  {
    var d := DropDisallowed(input);
    BeforeDashes(input);
    KeptIsSingleSpaced(MergeSpaces(Trim(d)));
    DashesJoinWords(MergeSpaces(Trim(d)), false);
    SpacesMergedKeepWords(d);
  }

  lemma SpacesMergedKeepWords(d: string)
    requires AllKept(d)
    ensures JoinWords(MergeSpaces(Trim(d)), false, false) == JoinWords(d, false, false)
  {
    TrimKept(d);
    TrimKeepsWords(d);
    MergeSpacesKeepsWords(Trim(d), false, false);
  }

  /** Leading and trailing spaces vanish and the run of two spaces becomes one dash. */
  lemma WordsOfTitle()
    ensures JoinWords("  ab  c ", false, false) == "ab-c"
  {
    assert JoinWords(" ", false, true) == [];
    assert JoinWords("c ", true, true) == "-c";
    assert JoinWords(" c ", true, true) == "-c";
    assert JoinWords("  c ", false, true) == "-c";
    assert JoinWords("b  c ", false, true) == "b-c";
    assert JoinWords("ab  c ", false, false) == "ab-c";
    assert JoinWords(" ab  c ", false, false) == "ab-c";
  }

  /** After steps 4 and 5 a string of kept characters has a dash exactly where it had a space, and only slug characters. */
  lemma DashesMarkSpaces(t: string)
    requires AllKept(t)
    ensures |ToLower(WhitespaceToDash(t))| == |t|
    ensures forall i :: 0 <= i < |t| ==> (ToLower(WhitespaceToDash(t))[i] == '-' <==> t[i] == ' ')
    ensures forall i :: 0 <= i < |t| ==> IsSlugChar(ToLower(WhitespaceToDash(t))[i])
  {
    var u := WhitespaceToDash(t);
    var r := ToLower(u);
    WhitespaceToDashAt(t);
    forall i | 0 <= i < |t|
      ensures (r[i] == '-' <==> t[i] == ' ') && IsSlugChar(r[i])
    {
      if t[i] == ' ' {
        assert u[i] == '-';
      } else {
        assert IsAsciiAlphanumeric(t[i]);
        assert !IsJsWhitespace(t[i]);
        assert u[i] == t[i];
      }
    }
  }

  /** The slug uses only `a-z`, `0-9` and `-`, never starts or ends with `-` and never holds `--`. */
  lemma SlugShape(input: string)
    ensures forall i :: 0 <= i < |GenerateSlug(input)| ==> IsSlugChar(GenerateSlug(input)[i])
    ensures NoEdgeDash(GenerateSlug(input))
    ensures NoDoubleDash(GenerateSlug(input))
  {
    BeforeDashes(input);
    var t := MergeSpaces(Trim(DropDisallowed(input)));
    DashesMarkSpaces(t);
  }

  /** Deleting the dashes of the slug leaves the input's ASCII letters and digits, lower-cased, in order. */
  lemma SlugKeepsAlphanumerics(input: string)
    ensures RemoveDashes(GenerateSlug(input)) == ToLower(AsciiAlphanumerics(input))
  {
    var t := MergeSpaces(Trim(DropDisallowed(input)));
    var u := WhitespaceToDash(t);
    var r := ToLower(u);
    assert AsciiAlphanumerics(r) == ToLower(AsciiAlphanumerics(input)) by {
      BeforeDashes(input);
      DashesReplaceSpaces(t);
      AlphanumericsOfLower(u);
    }
    assert RemoveDashes(r) == AsciiAlphanumerics(r) by {
      BeforeDashes(input);
      DashesMarkSpaces(t);
      assert forall i :: 0 <= i < |r| ==> IsAsciiAlphanumeric(r[i]) || r[i] == '-' by {
        forall i | 0 <= i < |r|
          ensures IsAsciiAlphanumeric(r[i]) || r[i] == '-'
        {
          assert IsSlugChar(r[i]);
        }
      }
      LetterDigitOrDashAlphanumerics(r);
    }
  }

  /** An input without ASCII letters or digits gives the empty slug. */
  lemma DegenerateInputGivesEmptySlug(input: string)
    requires AsciiAlphanumerics(input) == []
    ensures GenerateSlug(input) == []
  {
    SlugShape(input);
    SlugKeepsAlphanumerics(input);
  }

  /** `generateSlug("a b")` is `"a-b"`: the space between the words becomes a dash. */
  lemma SlugOfTwoWords()
    ensures GenerateSlug("a b") == "a-b"
  {
    SlugIsJoinedWords("a b");
    KeepsTwoWords();
    JoinsTwoWords();
  }

  lemma KeepsTwoWords()
    ensures DropDisallowed("a b") == "a b"
  {
    assert DropDisallowed("b") == "b";
    assert DropDisallowed(" b") == " b";
  }

  lemma JoinsTwoWords()
    ensures ToLower(JoinWords("a b", false, false)) == "a-b"
  {
    assert JoinWords("a b", false, false) == "a-b";
    var r := ToLower("a-b");
    assert LowerChar('a') == 'a' && LowerChar('-') == '-' && LowerChar('b') == 'b';
    assert r[0] == 'a' && r[1] == '-' && r[2] == 'b';
  }

  lemma DropsDash()
    ensures DropDisallowed("a-b") == "ab"
  {
    assert DropDisallowed("b") == "b";
    assert DropDisallowed("-b") == "b";
  }

  /** Steps 2 to 5 leave a lower-case word unchanged. */
  lemma WordPassesThrough()
    ensures ToLower(WhitespaceToDash(MergeSpaces(Trim("ab")))) == "ab"
  {
    assert TrimStart("ab") == "ab";
    assert TrimEnd("ab") == "ab";
    assert MergeSpaces("b") == "b";
    assert MergeSpaces("ab") == "ab";
    var u := WhitespaceToDash("ab");
    assert u[0] == 'a' && u[1] == 'b';
    assert LowerChar('a') == 'a' && LowerChar('b') == 'b';
  }

  /** `generateSlug("a-b")` is `"ab"`: the dash is not a kept character. */
  lemma SlugOfDashedWords()
    ensures GenerateSlug("a-b") == "ab"
  {
    DropsDash();
    WordPassesThrough();
  }

  /**
   * The slug is not a fixed point of `GenerateSlug`: the dash it puts between
   * words is itself dropped by step 1 when the slug is fed back in.
   */
  lemma SlugIsNotIdempotent()
    ensures GenerateSlug(GenerateSlug("a b")) == "ab" != GenerateSlug("a b")
  {
    SlugOfTwoWords();
    SlugOfDashedWords();
  }
}
