/**
 The text matcher of the content script: a candidate control is the target
 when its text content, trimmed and lower-cased, is non-empty and contains
 the phrase "slow download".

 Trimming follows ECMAScript's String.prototype.trim exactly (its WhiteSpace
 and LineTerminator code points). Lower-casing maps only the ASCII letters
 A-Z; the full Unicode case mapping of toLowerCase is not modelled.
 */
module Text {

  /** The phrase searched for, already in lower case. */
  const Target: string := "slow download"

  /** The code points ECMAScript's trim removes: TAB, LF, VT, FF, CR, the
      space separators, LS, PS and the byte order mark. */
  const Spaces: set<char> :=
    {'\U{9}', '\U{A}', '\U{B}', '\U{C}', '\U{D}', ' ', '\U{A0}', '\U{1680}',
     '\U{2000}', '\U{2001}', '\U{2002}', '\U{2003}', '\U{2004}', '\U{2005}',
     '\U{2006}', '\U{2007}', '\U{2008}', '\U{2009}', '\U{200A}',
     '\U{2028}', '\U{2029}', '\U{202F}', '\U{205F}', '\U{3000}', '\U{FEFF}'}

  predicate IsSpace(c: char)
  {
    c in Spaces
  }

  ghost predicate AllSpace(s: string)
  {
    forall i :: 0 <= i < |s| ==> IsSpace(s[i])
  }

  /** Drops leading white space, one character at a time. */
  function TrimStart(s: string): (r: string)
    decreases |s|
  {
    if s != [] && IsSpace(s[0]) then TrimStart(s[1..]) else s
  }

  /** Drops trailing white space, one character at a time. */
  function TrimEnd(s: string): (r: string)
    decreases |s|
  {
    if s != [] && IsSpace(s[|s| - 1]) then TrimEnd(s[..|s| - 1]) else s
  }

  /** String.prototype.trim: the text between the leading and the trailing
      run of white space. */
  function Trim(s: string): (r: string)
  {
    TrimEnd(TrimStart(s))
  }

  // The characterisations below are lemmas rather than postconditions, so
  // that proofs which only pass a text through the matcher do not carry them.

  /** TrimStart keeps the longest suffix of `s` that does not start with
      white space; everything it drops is white space. */
  lemma {:induction false} TrimStartSpec(s: string)
    ensures |TrimStart(s)| <= |s| && TrimStart(s) == s[|s| - |TrimStart(s)|..]
    ensures TrimStart(s) == [] || !IsSpace(TrimStart(s)[0])
    ensures forall i :: 0 <= i < |s| - |TrimStart(s)| ==> IsSpace(s[i])
    decreases |s|
  {
    if s != [] && IsSpace(s[0]) {
      TrimStartSpec(s[1..]);
      forall i | 1 <= i < |s| - |TrimStart(s)|
        ensures IsSpace(s[i])
      {
        assert s[i] == s[1..][i - 1];
      }
    }
  }

  /** TrimEnd keeps the longest prefix of `s` that does not end with white
      space; everything it drops is white space. */
  lemma {:induction false} TrimEndSpec(s: string)
    ensures |TrimEnd(s)| <= |s| && TrimEnd(s) == s[..|TrimEnd(s)|]
    ensures TrimEnd(s) == [] || !IsSpace(TrimEnd(s)[|TrimEnd(s)| - 1])
    ensures forall i :: |TrimEnd(s)| <= i < |s| ==> IsSpace(s[i])
    decreases |s|
  {
    if s != [] && IsSpace(s[|s| - 1]) {
      TrimEndSpec(s[..|s| - 1]);
      forall i | |TrimEnd(s)| <= i < |s| - 1
        ensures IsSpace(s[i])
      {
        assert s[i] == s[..|s| - 1][i];
      }
    }
  }

  /** The trimmed text neither starts nor ends with white space. */
  lemma TrimEnds(s: string)
    ensures Trim(s) == [] || (!IsSpace(Trim(s)[0]) && !IsSpace(Trim(s)[|Trim(s)| - 1]))
  {
    TrimStartSpec(s);
    TrimEndSpec(TrimStart(s));
    if Trim(s) != [] {
      assert Trim(s)[0] == TrimStart(s)[0];
    }
  }

  /** What trimming keeps: a contiguous piece of the text with only white
      space before and after it, so with `TrimEnds` it is the longest such
      piece that neither starts nor ends with white space. */
  lemma TrimBracketed(s: string)
    ensures Bracketed(s, Trim(s), |s| - |TrimStart(s)|)
  {
    var inner := TrimStart(s);
    var r := TrimEnd(inner);
    TrimStartSpec(s);
    TrimEndSpec(inner);
    TrimStartDropsSpace(s);
    TrimEndDropsSpace(inner);
    BracketedPieces(s, inner, r);
  }

  /** A prefix `r` of a suffix `inner` of `s`, with white space dropped on
      either side, sits in `s` bracketed by that white space. */
  lemma BracketedPieces(s: string, inner: string, r: string)
    requires |inner| <= |s| && inner == s[|s| - |inner|..] && AllSpace(s[..|s| - |inner|])
    requires |r| <= |inner| && r == inner[..|r|] && AllSpace(inner[|r|..])
    ensures Bracketed(s, r, |s| - |inner|)
  {
    var a := |s| - |inner|;
    assert s[a..][..|r|] == s[a..a + |r|];
    assert s[a..][|r|..] == s[a + |r|..];
  }

  lemma TrimStartDropsSpace(s: string)
    ensures |TrimStart(s)| <= |s| && AllSpace(s[..|s| - |TrimStart(s)|])
  {
    TrimStartSpec(s);
    var head := s[..|s| - |TrimStart(s)|];
    forall k | 0 <= k < |head|
      ensures IsSpace(head[k])
    {
      assert head[k] == s[k];
    }
  }

  lemma TrimEndDropsSpace(s: string)
    ensures |TrimEnd(s)| <= |s| && AllSpace(s[|TrimEnd(s)|..])
  {
    TrimEndSpec(s);
    var tail := s[|TrimEnd(s)|..];
    forall k | 0 <= k < |tail|
      ensures IsSpace(tail[k])
    {
      assert tail[k] == s[|TrimEnd(s)| + k];
    }
  }

  /** `s` is `r` at position `a` with only white space before and after it. */
  ghost predicate Bracketed(s: string, r: string, a: int)
  {
    0 <= a && a + |r| <= |s| && r == s[a..a + |r|] && AllSpace(s[..a]) && AllSpace(s[a + |r|..])
  }

  function LowerChar(c: char): (r: char)
  {
    if 'A' <= c <= 'Z' then (c as int + 32) as char else c
  }

  /** ASCII lower-casing: every letter A-Z becomes its lower-case form, every
      other character is kept, and no upper-case ASCII letter remains. */
  function Lower(s: string): (r: string)
    ensures |r| == |s|
    ensures forall i :: 0 <= i < |s| ==> r[i] == LowerChar(s[i])
    ensures forall i :: 0 <= i < |r| ==> !('A' <= r[i] <= 'Z')
  {
    seq(|s|, i requires 0 <= i < |s| => LowerChar(s[i]))
  }

  /** `p` occurs in `t` at position `i`. */
  ghost predicate OccursAt(t: string, p: string, i: int)
  {
    0 <= i && i + |p| <= |t| && t[i..i + |p|] == p
  }

  /** Occurrences in `t[1..]` are the occurrences in `t` after position 0. */
  lemma OccursShift(t: string, p: string)
    ensures OccursAt(t, p, 0) <==> |p| <= |t| && t[..|p|] == p
    ensures t != [] ==> forall i :: OccursAt(t[1..], p, i) ==> OccursAt(t, p, i + 1)
    ensures t != [] ==> forall i :: 1 <= i && OccursAt(t, p, i) ==> OccursAt(t[1..], p, i - 1)
  {
    if t != [] {
      forall i | OccursAt(t[1..], p, i)
        ensures OccursAt(t, p, i + 1)
      {
        assert t[1..][i..i + |p|] == t[i + 1..i + 1 + |p|];
      }
      forall i | 1 <= i && OccursAt(t, p, i)
        ensures OccursAt(t[1..], p, i - 1)
      {
        assert t[1..][i - 1..i - 1 + |p|] == t[i..i + |p|];
      }
    }
  }

  /** The substring test of String.prototype.includes, by scanning start
      positions: it holds exactly when the phrase occurs at some position. */
  function Contains(t: string, p: string): (r: bool)
    ensures r <==> exists i :: OccursAt(t, p, i)
    decreases |t|
  {
    OccursShift(t, p);
    |p| <= |t| && (t[..|p|] == p || (t != [] && Contains(t[1..], p)))
  }

  /** The text rule of the button search: the trimmed, lower-cased text is
      non-empty and the phrase occurs in it. Non-emptiness adds nothing,
      since the phrase itself is not empty. */
  function TextMatches(raw: string): (r: bool)
    ensures r <==> exists i :: OccursAt(Lower(Trim(raw)), Target, i)
  {
    var text := Lower(Trim(raw));
    text != [] && Contains(text, Target)
  }

  /** Two strings that differ only in the case of ASCII letters. */
  ghost predicate SameUpToCase(a: string, b: string)
  {
    |a| == |b| && forall i :: 0 <= i < |a| ==> LowerChar(a[i]) == LowerChar(b[i])
  }

  // ---------------------------------------------------------------------------
  // Trimming

  lemma {:induction false} TrimStartSkipsSpace(a: string, s: string)
    requires AllSpace(a)
    ensures TrimStart(a + s) == TrimStart(s)
    decreases |a|
  {
    if a != [] {
      assert (a + s)[1..] == a[1..] + s;
      TrimStartSkipsSpace(a[1..], s);
    } else {
      assert a + s == s;
    }
  }

  lemma {:induction false} TrimEndSkipsSpace(s: string, b: string)
    requires AllSpace(b)
    ensures TrimEnd(s + b) == TrimEnd(s)
    decreases |b|
  {
    if b != [] {
      assert (s + b)[..|s + b| - 1] == s + b[..|b| - 1];
      TrimEndSkipsSpace(s, b[..|b| - 1]);
    } else {
      assert s + b == s;
    }
  }

  /** Text after the first non-space character is kept verbatim by TrimStart. */
  lemma {:induction false} TrimStartKeepsTail(s: string, b: string)
    requires TrimStart(s) != []
    ensures TrimStart(s + b) == TrimStart(s) + b
    decreases |s|
  {
    assert (s + b)[0] == s[0];
    if IsSpace(s[0]) {
      assert (s + b)[1..] == s[1..] + b;
      TrimStartKeepsTail(s[1..], b);
    }
  }

  /** Trimming ignores white space padding on either side. */
  lemma TrimIgnoresPadding(a: string, s: string, b: string)
    requires AllSpace(a) && AllSpace(b)
    ensures Trim(a + s + b) == Trim(s)
  {
    if TrimStart(s) != [] {
      TrimStartIgnoresPadding(a, s, b);
      TrimEndSkipsSpace(TrimStart(s), b);
    } else {
      BlankStaysBlank(a, s, b);
    }
  }

  /** Leading padding is dropped and trailing padding kept by TrimStart once
      the text has a non-space character. */
  lemma TrimStartIgnoresPadding(a: string, s: string, b: string)
    requires AllSpace(a) && AllSpace(b) && TrimStart(s) != []
    ensures TrimStart(a + s + b) == TrimStart(s) + b
  {
    TrimStartSkipsSpace(a, s);
    TrimStartKeepsTail(a + s, b);
  }

  /** Text that is all white space, padded with more, trims to nothing. */
  lemma BlankStaysBlank(a: string, s: string, b: string)
    requires AllSpace(a) && AllSpace(b) && TrimStart(s) == []
    ensures Trim(a + s + b) == [] && Trim(s) == []
  {
    TrimStartSpec(s);
    var t := a + s + b;
    forall k | 0 <= k < |t|
      ensures IsSpace(t[k])
    {
      if k < |a| {
        assert t[k] == a[k];
      } else if k < |a| + |s| {
        assert t[k] == s[k - |a|];
      } else {
        assert t[k] == b[k - |a| - |s|];
      }
    }
    AllSpaceTrimsToNothing(t);
  }

  lemma {:induction false} AllSpaceTrimsToNothing(t: string)
    requires AllSpace(t)
    ensures TrimStart(t) == []
    decreases |t|
  {
    if t != [] {
      assert AllSpace(t[1..]) by {
        forall k | 0 <= k < |t| - 1
          ensures IsSpace(t[1..][k])
        {
          assert t[1..][k] == t[k + 1];
        }
      }
      AllSpaceTrimsToNothing(t[1..]);
    }
  }

  // ---------------------------------------------------------------------------
  // Case

  /** Lower-casing maps white space to white space and nothing else to it. */
  lemma LowerCharKeepsSpace(c: char)
    ensures IsSpace(LowerChar(c)) <==> IsSpace(c)
  {
    if 'A' <= c <= 'Z' {
      assert 'a' <= LowerChar(c) <= 'z';
    }
  }

  lemma {:induction false} LowerTrimStartCommute(s: string)
    ensures Lower(TrimStart(s)) == TrimStart(Lower(s))
    decreases |s|
  {
    if s != [] {
      LowerCharKeepsSpace(s[0]);
      assert Lower(s)[0] == LowerChar(s[0]);
      if IsSpace(s[0]) {
        assert Lower(s)[1..] == Lower(s[1..]);
        LowerTrimStartCommute(s[1..]);
      }
    }
  }

  lemma {:induction false} LowerTrimEndCommute(s: string)
    ensures Lower(TrimEnd(s)) == TrimEnd(Lower(s))
    decreases |s|
  {
    if s != [] {
      LowerCharKeepsSpace(s[|s| - 1]);
      assert Lower(s)[|s| - 1] == LowerChar(s[|s| - 1]);
      if IsSpace(s[|s| - 1]) {
        assert Lower(s)[..|s| - 1] == Lower(s[..|s| - 1]);
        LowerTrimEndCommute(s[..|s| - 1]);
      }
    }
  }

  /** Lower-casing and trimming commute, because lower-casing maps white
      space to itself and letters to letters. */
  lemma LowerTrimCommute(s: string)
    ensures Lower(Trim(s)) == Trim(Lower(s))
  {
    LowerTrimEndCommute(TrimStart(s));
    LowerTrimStartCommute(s);
  }

  // ---------------------------------------------------------------------------
  // The text rule

  /** The text rule does not depend on the case of ASCII letters. */
  lemma TextMatchesIgnoresCase(a: string, b: string)
    requires SameUpToCase(a, b)
    ensures TextMatches(a) <==> TextMatches(b)
  {
    assert Lower(a) == Lower(b);
    LowerTrimCommute(a);
    LowerTrimCommute(b);
  }

  /** The text rule does not depend on surrounding white space. */
  lemma TextMatchesIgnoresPadding(a: string, s: string, b: string)
    requires AllSpace(a) && AllSpace(b)
    ensures TextMatches(a + s + b) <==> TextMatches(s)
  {
    TrimIgnoresPadding(a, s, b);
  }

  /** A match needs at least as many non-space characters as the phrase
      has, so empty or shorter text never matches. */
  lemma ShortTextNeverMatches(s: string)
    requires |Trim(s)| < |Target|
    ensures !TextMatches(s)
  {
  }

  /** Text with no white space at either end is left alone by Trim. */
  lemma TrimKeepsUnpadded(s: string)
    requires s != [] && !IsSpace(s[0]) && !IsSpace(s[|s| - 1])
    ensures Trim(s) == s
  {
  }

  /** Text that trimming and lower-casing leave unchanged matches exactly
      when it contains the phrase. */
  lemma NormalTextMatches(s: string)
    ensures Trim(s) == s && Lower(s) == s ==> (TextMatches(s) <==> s != [] && Contains(s, Target))
  {
  }

  lemma ContainsItself(p: string)
    ensures Contains(p, p)
  {
    assert p[..|p|] == p;
  }

  lemma TargetIsLowerCase()
    ensures forall i :: 0 <= i < |Target| ==> !('A' <= Target[i] <= 'Z')
  {
  }

  /** The phrase itself, in lower case and without padding, matches. */
  lemma TargetMatches()
    ensures TextMatches(Target)
  {
    TargetIsLowerCase();
    LowerIsIdentityOnLower(Target);
    TrimKeepsUnpadded(Target);
    ContainsItself(Target);
    NormalTextMatches(Target);
  }

  lemma TitleCaseIsTarget()
    ensures SameUpToCase("Slow Download", Target)
  {
  }

  lemma UpperCaseIsTarget()
    ensures SameUpToCase("SLOW DOWNLOAD", Target)
  {
  }

  /** Padded and capitalised: "  Slow Download  " matches. */
  lemma PaddedTitleCaseMatches()
    ensures TextMatches("  Slow Download  ")
  {
    assert "  " + "Slow Download" + "  " == "  Slow Download  ";
    TextMatchesIgnoresPadding("  ", "Slow Download", "  ");
    TitleCaseIsTarget();
    TextMatchesIgnoresCase("Slow Download", Target);
    TargetMatches();
  }

  /** All capitals: "SLOW DOWNLOAD" matches. */
  lemma UpperCaseMatches()
    ensures TextMatches("SLOW DOWNLOAD")
  {
    UpperCaseIsTarget();
    TextMatchesIgnoresCase("SLOW DOWNLOAD", Target);
    TargetMatches();
  }

  lemma ExtendedIsLowerCase()
    ensures forall i :: 0 <= i < |"slow download now"| ==> !('A' <= "slow download now"[i] <= 'Z')
  {
  }

  lemma ExtendedStartsWithTarget()
    ensures "slow download now"[..|Target|] == Target
  {
  }

  /** Extra words after the phrase: "slow download now" matches. */
  lemma ExtendedTextMatches()
    ensures TextMatches("slow download now")
  {
    ExtendedIsLowerCase();
    LowerIsIdentityOnLower("slow download now");
    TrimKeepsUnpadded("slow download now");
    ExtendedStartsWithTarget();
    NormalTextMatches("slow download now");
  }

  /** "download" alone is too short to contain the phrase. */
  lemma DownloadAloneDoesNotMatch()
    ensures !TextMatches("download")
  {
    TrimKeepsUnpadded("download");
    ShortTextNeverMatches("download");
  }

  lemma LowerIsIdentityOnLower(s: string)
    requires forall i :: 0 <= i < |s| ==> !('A' <= s[i] <= 'Z')
    ensures Lower(s) == s
  {
  }
}
