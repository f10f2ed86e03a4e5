/**
 * `preprocess_name` (temp.py): the process-name clean-up used before fuzzy
 * matching — lower-case, drop `.exe`, turn `_` and `-` into spaces, strike
 * the build-tag words, squeeze whitespace runs and trim.
 */
module Preprocess {
  import opened Text

  /** The alternation of the word-bounded pattern on temp.py line 15. */
  const Tags: seq<string> := ["win64", "shipping", "x64", "x86", "release", "debug"]

  /** `\w` on ASCII text: letters, digits and underscore. */
  predicate IsWordChar(c: char) {
    'a' <= c <= 'z' || 'A' <= c <= 'Z' || '0' <= c <= '9' || c == '_'
  }

  /** Length of the run of word characters that `s` starts with. */
  function WordLen(s: string): (k: nat)
    ensures k <= |s|
    ensures forall i :: 0 <= i < k ==> IsWordChar(s[i])
    ensures k == |s| || !IsWordChar(s[k])
  {
    if s != [] && IsWordChar(s[0]) then 1 + WordLen(s[1..]) else 0
  }

  /**
   * Length of the tag that a match of `\b(tag)\b` starting here would
   * consume, given a word boundary before `s`; 0 when there is none.
   * Every tag consists of word characters only, so a match is exactly a
   * leading word run that equals a tag.
   */
  function TagLen(s: string): nat
  {
    var k := WordLen(s);
    if s[..k] in Tags then k else 0
  }

  /** A tag `t` matches at the start of `s` and is followed by a word boundary. */
  predicate TagThenBoundary(s: string, t: string) {
    |t| <= |s| && s[..|t|] == t && (|t| == |s| || !IsWordChar(s[|t|]))
  }

  lemma TagsAreWords(t: string)
    requires t in Tags
    ensures |t| > 0 && forall i :: 0 <= i < |t| ==> IsWordChar(t[i])
  {
  }

  /** `TagLen` agrees with trying the alternatives of the pattern one by one. */
  lemma TagLenMatchesPattern(s: string)
    ensures TagLen(s) > 0 <==> exists t :: t in Tags && TagThenBoundary(s, t)
    ensures TagLen(s) > 0 ==> TagThenBoundary(s, s[..TagLen(s)]) && s[..TagLen(s)] in Tags
  {
    var k := WordLen(s);
    forall t | t in Tags && TagThenBoundary(s, t) ensures s[..k] == t {
      TagsAreWords(t);
      assert forall i :: 0 <= i < |t| ==> IsWordChar(s[i]) by {
        forall i | 0 <= i < |t| ensures IsWordChar(s[i]) { assert s[..|t|][i] == t[i]; }
      }
      assert k == |t|;
    }
    if s[..k] in Tags {
      TagsAreWords(s[..k]);
      assert TagThenBoundary(s, s[..k]);
    }
  }

  /**
   * `re.sub(r'\b(win64|…)\b', '', s)`: scans `s` left to right, `afterWord`
   * telling whether the character before `s` is a word character; a tag is
   * struck only at a word boundary, and scanning goes on after it.
   */
  function Strike(s: string, afterWord: bool): (r: string)
    ensures forall i :: 0 <= i < |r| ==> r[i] in s
    decreases |s|
  {
    if s == [] then []
    else if !afterWord && TagLen(s) > 0 then Strike(s[TagLen(s)..], true)
    else [s[0]] + Strike(s[1..], IsWordChar(s[0]))
  }

  /**
   * The scan finds nothing to strike in `r`: at every word boundary the
   * word that begins there is not a tag.
   */
  predicate TagFree(r: string, afterWord: bool)
    decreases |r|
  {
    r == [] || ((afterWord || TagLen(r) == 0) && TagFree(r[1..], IsWordChar(r[0])))
  }

  /** Inside a word nothing is struck: the word is copied through. */
  lemma {:induction false} StrikeCopiesWord(s: string)
    ensures var k := WordLen(s); Strike(s, true) == s[..k] + Strike(s[k..], true)
    decreases |s|
  {
    if s != [] && IsWordChar(s[0]) {
      StrikeCopiesWord(s[1..]);
      assert s[1..][WordLen(s[1..])..] == s[WordLen(s)..];
      assert s[..WordLen(s)] == [s[0]] + s[1..][..WordLen(s[1..])];
    }
  }

  /** When the first character is kept, the leading word survives whole. */
  lemma StrikeKeepsLeadingWord(s: string, afterWord: bool)
    requires s != [] && (afterWord || TagLen(s) == 0)
    ensures var r := Strike(s, afterWord);
      WordLen(r) == WordLen(s) && r[..WordLen(s)] == s[..WordLen(s)]
  {
    var k := WordLen(s);
    var r := Strike(s, afterWord);
    if IsWordChar(s[0]) {
      StrikeCopiesWord(s);
      assert r == s[..k] + Strike(s[k..], true);
      if k < |s| {
        assert Strike(s[k..], true)[0] == s[k];
        assert r[k] == s[k];
      }
      WordLenIs(r, k);
    } else {
      assert r[0] == s[0];
    }
  }

  /** `WordLen` is the only length with its three properties. */
  lemma {:induction false} WordLenIs(s: string, k: nat)
    requires k <= |s| && (forall i :: 0 <= i < k ==> IsWordChar(s[i]))
    requires k == |s| || !IsWordChar(s[k])
    ensures WordLen(s) == k
  {
    if k > 0 {
      WordLenIs(s[1..], k - 1);
    }
  }

  /** Two texts that start with the same whole word agree on the tag test. */
  lemma SameLeadingWord(a: string, b: string)
    requires WordLen(a) == WordLen(b) && a[..WordLen(a)] == b[..WordLen(b)]
    ensures TagLen(a) == TagLen(b)
  {
  }

  /**
   * The invariant of the scan relating the flag of the input (`inWord`) to
   * the flag of the output built so far (`outWord`): the output can lag
   * only right after a struck tag, and then a non-word character follows.
   */
  lemma {:induction false} StrikeLeavesNoTag(s: string, inWord: bool, outWord: bool)
    requires outWord ==> inWord
    requires inWord && !outWord ==> s == [] || !IsWordChar(s[0])
    ensures TagFree(Strike(s, inWord), outWord)
    decreases |s|
  {
    if s == [] {
    } else if !inWord && TagLen(s) > 0 {
      StrikeLeavesNoTag(s[TagLen(s)..], true, outWord);
    } else {
      var r := Strike(s, inWord);
      StrikeLeavesNoTag(s[1..], IsWordChar(s[0]), IsWordChar(s[0]));
      assert r[1..] == Strike(s[1..], IsWordChar(s[0]));
      if !outWord {
        if inWord {
          assert !IsWordChar(r[0]);
          assert WordLen(r) == 0;
        } else {
          StrikeKeepsLeadingWord(s, inWord);
          SameLeadingWord(r, s);
        }
      }
    }
  }

  /** Text the scan finds nothing in is left as it is. */
  lemma {:induction false} StrikeTagFree(r: string, afterWord: bool)
    requires TagFree(r, afterWord)
    ensures Strike(r, afterWord) == r
    decreases |r|
  {
    if r != [] {
      StrikeTagFree(r[1..], IsWordChar(r[0]));
    }
  }

  /** Striking the tags a second time changes nothing. */
  lemma StrikeIdempotent(s: string)
    ensures TagFree(Strike(s, false), false)
    ensures Strike(Strike(s, false), false) == Strike(s, false)
  {
    StrikeLeavesNoTag(s, false, false);
    StrikeTagFree(Strike(s, false), false);
  }

  /** `re.sub(r'\s+', ' ', s)`: every maximal whitespace run becomes one space. */
  function Squeeze(s: string): (r: string)
    ensures s != [] ==> r != [] && r[0] == (if IsSpace(s[0]) then ' ' else s[0])
    ensures forall i :: 0 <= i < |r| ==> r[i] == ' ' || (r[i] in s && !IsSpace(r[i]))
    ensures forall i :: 0 <= i < |r| - 1 ==> !(IsSpace(r[i]) && IsSpace(r[i + 1]))
    decreases |s|
  {
    if s == [] then []
    else if IsSpace(s[0]) then
      TrimStartShape(s[1..]);
      [' '] + Squeeze(TrimStart(s[1..]))
    else [s[0]] + Squeeze(s[1..])
  }

  /** `preprocess_name`, stage by stage as on temp.py lines 11-17. */
  function PreprocessName(name: string): string
  {
    var lowered := Lower(name);
    var bare := RemoveAll(lowered, ".exe");
    var spaced := ReplaceChar(ReplaceChar(bare, '_', ' '), '-', ' ');
    Strip(Squeeze(Strike(spaced, false)))
  }

  /** A word character in front extends the leading word by one. */
  lemma ConsWord(c: char, t: string)
    requires IsWordChar(c)
    ensures WordLen([c] + t) == 1 + WordLen(t)
    ensures ([c] + t)[..WordLen([c] + t)] == [c] + t[..WordLen(t)]
  {
    assert ([c] + t)[1..] == t;
  }

  lemma {:induction false} SqueezeKeepsLeadingWord(s: string)
    ensures WordLen(Squeeze(s)) == WordLen(s) && Squeeze(s)[..WordLen(s)] == s[..WordLen(s)]
    decreases |s|
  {
    if s != [] && IsWordChar(s[0]) {
      var t := s[1..];
      SqueezeKeepsLeadingWord(t);
      assert Squeeze(s) == [s[0]] + Squeeze(t);
      assert s == [s[0]] + t;
      ConsWord(s[0], Squeeze(t));
      ConsWord(s[0], t);
    }
  }

  lemma {:induction false} TagFreeDropSpaces(s: string, afterWord: bool)
    requires TagFree(s, afterWord)
    ensures TagFree(TrimStart(s), afterWord && TrimStart(s) == s)
    decreases |s|
  {
    if s != [] && IsSpace(s[0]) {
      TagFreeDropSpaces(s[1..], false);
    }
  }

  lemma {:induction false} SqueezeTagFree(s: string, afterWord: bool)
    requires TagFree(s, afterWord)
    ensures TagFree(Squeeze(s), afterWord)
    decreases |s|
  {
    if s != [] {
      if IsSpace(s[0]) {
        TagFreeDropSpaces(s[1..], false);
        SqueezeTagFree(TrimStart(s[1..]), false);
      } else {
        SqueezeTagFree(s[1..], IsWordChar(s[0]));
        SqueezeKeepsLeadingWord(s);
        SameLeadingWord(Squeeze(s), s);
      }
    }
  }

  lemma {:induction false} TagFreePrefix(s: string, j: nat, afterWord: bool)
    requires TagFree(s, afterWord) && j <= |s| && (j == |s| || !IsWordChar(s[j]))
    ensures TagFree(s[..j], afterWord)
    decreases |s|
  {
    if j > 0 {
      var t := s[..j];
      TagFreePrefix(s[1..], j - 1, IsWordChar(s[0]));
      assert t[1..] == s[1..][..j - 1];
      var k := WordLen(s);
      WordLenIs(t, k);
      assert t[..k] == s[..k];
    }
  }

  lemma StripTagFree(s: string)
    requires TagFree(s, false)
    ensures TagFree(Strip(s), false)
  {
    TagFreeDropSpaces(s, false);
    var t := TrimStart(s);
    TrimEndShape(t);
    TagFreePrefix(t, |TrimEnd(t)|, false);
  }

  /** No separator and no upper-case letter. */
  predicate Unseparated(r: string) {
    forall i :: 0 <= i < |r| ==> r[i] != '_' && r[i] != '-' && !('A' <= r[i] <= 'Z')
  }

  predicate NoDoubleSpace(r: string) {
    forall i :: 0 <= i < |r| - 1 ==> !(IsSpace(r[i]) && IsSpace(r[i + 1]))
  }

  lemma StripKeepsShape(s: string)
    requires Unseparated(s) && NoDoubleSpace(s)
    ensures Unseparated(Strip(s)) && NoDoubleSpace(Strip(s))
  {
    StripSlice(s);
    var r := Strip(s);
    var i0 := |s| - |TrimStart(s)|;
    forall i | 0 <= i < |r| ensures r[i] == s[i0 + i] {
    }
  }

  lemma SpacedShape(name: string)
    ensures Unseparated(ReplaceChar(ReplaceChar(RemoveAll(Lower(name), ".exe"), '_', ' '), '-', ' '))
  {
    var lowered := Lower(name);
    LowerIsLower(name);
    var bare := RemoveAll(lowered, ".exe");
    assert HasNoUpper(bare) by {
      forall i | 0 <= i < |bare| ensures !('A' <= bare[i] <= 'Z') {
        assert bare[i] in lowered;
      }
    }
  }

  /**
   * What `preprocess_name` promises of its result: no `_`, `-` or upper-case
   * letter, no surrounding whitespace, no two whitespace characters in a
   * row, and no build tag left standing as a whole word.
   */
  lemma PreprocessShape(name: string)
    ensures var r := PreprocessName(name);
      && Unseparated(r)
      && (r == [] || (!IsSpace(r[0]) && !IsSpace(r[|r| - 1])))
      && NoDoubleSpace(r)
      && TagFree(r, false)
  {
    var spaced := ReplaceChar(ReplaceChar(RemoveAll(Lower(name), ".exe"), '_', ' '), '-', ' ');
    SpacedShape(name);
    var struck := Strike(spaced, false);
    assert Unseparated(struck) by {
      forall i | 0 <= i < |struck| ensures struck[i] in spaced { }
    }
    var squeezed := Squeeze(struck);
    StripKeepsShape(squeezed);
    StripSlice(squeezed);
    StrikeLeavesNoTag(spaced, false, false);
    SqueezeTagFree(struck, false);
    StripTagFree(squeezed);
  }
}
