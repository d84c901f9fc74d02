/** `Textprocessing`: the word count of a sentence by `split(" ")`, its reversal, and the
    replacement of the first occurrence of a word in a `StringBuffer`. A Dafny `char` is a
    Unicode scalar value, so reversing a `seq<char>` reverses code points, as
    `StringBuilder.reverse` does (it keeps surrogate pairs together). */
module TextProcessing {

  // ---------------------------------------------------------------- split(" ")

  /** The number of spaces in s. */
  function Spaces(s: string): nat
  {
    if s == [] then 0 else (if s[0] == ' ' then 1 else 0) + Spaces(s[1..])
  }

  /** The text between consecutive spaces, every piece kept, empty ones included. */
  function Pieces(s: string): (r: seq<string>)
    ensures |r| == Spaces(s) + 1
    ensures forall k :: 0 <= k < |r| ==> ' ' !in r[k]
  {
    if s == [] then [""]
    else
      var rest := Pieces(s[1..]);
      if s[0] == ' ' then [""] + rest
      else [[s[0]] + rest[0]] + rest[1..]
  }

  /** The pieces joined back with single spaces. */
  function Join(pieces: seq<string>): string
    requires pieces != []
  {
    if |pieces| == 1 then pieces[0] else pieces[0] + " " + Join(pieces[1..])
  }

  /** `split` with limit 0 drops the empty strings at the end of the result. */
  function StripTrailingEmpty(pieces: seq<string>): (r: seq<string>)
    ensures |r| <= |pieces| && r == pieces[..|r|]
    ensures forall k :: |r| <= k < |pieces| ==> pieces[k] == ""
    ensures r == [] || r[|r| - 1] != ""
  {
    if pieces != [] && pieces[|pieces| - 1] == "" then StripTrailingEmpty(pieces[..|pieces| - 1])
    else pieces
  }

  /** `sentence.split(" ")`: a sentence without a space is its own only piece (so the
      empty sentence gives one empty word); otherwise the pieces with every trailing empty
      one removed, so that a sentence of spaces alone gives no words. */
  function Split(s: string): (r: seq<string>)
    ensures ' ' !in s ==> r == [s]
    ensures ' ' in s ==> |r| <= |Pieces(s)| && r == Pieces(s)[..|r|] && forall k :: |r| <= k < |Pieces(s)| ==> Pieces(s)[k] == ""
    ensures ' ' in s ==> r == [] || r[|r| - 1] != ""
    ensures forall k :: 0 <= k < |r| ==> ' ' !in r[k]
  {
    if ' ' !in s then [s] else StripTrailingEmpty(Pieces(s))
  }

  /** `words.length`. */
  function WordCount(s: string): (n: nat)
    ensures n <= Spaces(s) + 1
  {
    |Split(s)|
  }

  /** No leading, trailing or repeated space, and at least one character. */
  predicate WellSpaced(s: string)
  {
    && s != []
    && s[0] != ' '
    && s[|s| - 1] != ' '
    && forall i :: 0 <= i < |s| - 1 ==> !(s[i] == ' ' && s[i + 1] == ' ')
  }

  lemma JoinCons(c: char, p: string, ps: seq<string>)
    ensures Join([[c] + p] + ps) == [c] + Join([p] + ps)
  {
    if ps != [] {
      assert ([[c] + p] + ps)[1..] == ps == ([p] + ps)[1..];
    }
  }

  /** Joining the pieces with single spaces gives back the sentence. */
  lemma {:induction false} JoinPieces(s: string)
    ensures Join(Pieces(s)) == s
  {
    if s != [] {
      var rest := Pieces(s[1..]);
      JoinPieces(s[1..]);
      if s[0] == ' ' {
        assert ([""] + rest)[1..] == rest;
        assert s == " " + s[1..];
      } else {
        assert rest == [rest[0]] + rest[1..];
        JoinCons(s[0], rest[0], rest[1..]);
        assert s == [s[0]] + s[1..];
      }
    }
  }

  lemma WellSpacedSuffix(s: string, n: nat)
    requires WellSpaced(s) && n < |s| && s[n] != ' '
    ensures WellSpaced(s[n..])
  {
    var tail := s[n..];
    forall i | 0 <= i < |tail| - 1 ensures !(tail[i] == ' ' && tail[i + 1] == ' ') {
      assert tail[i] == s[i + n] && tail[i + 1] == s[i + n + 1];
    }
  }

  /** A well-spaced sentence has no empty piece. */
  lemma {:induction false} PiecesNonEmpty(s: string)
    requires WellSpaced(s)
    ensures forall k :: 0 <= k < |Pieces(s)| ==> Pieces(s)[k] != ""
    decreases |s|
  {
    if |s| == 1 {
      assert s[1..] == [];
    } else if s[1] != ' ' {
      WellSpacedSuffix(s, 1);
      PiecesNonEmpty(s[1..]);
    } else {
      assert s[1..][1..] == s[2..] && s[1] == ' ' && s[2] != ' ';
      WellSpacedSuffix(s, 2);
      PiecesNonEmpty(s[2..]);
      var rest := Pieces(s[1..]);
      assert rest == [""] + Pieces(s[2..]);
      assert Pieces(s) == [[s[0]] + ""] + Pieces(s[2..]);
    }
  }

  /** For a sentence with no leading, trailing or repeated spaces, the word count is the
      number of spaces plus one, every word is non-empty, and joining the words with single
      spaces gives back the sentence. */
  lemma WordCountWellSpaced(s: string)
    requires WellSpaced(s)
    ensures WordCount(s) == Spaces(s) + 1
    ensures forall k :: 0 <= k < |Split(s)| ==> Split(s)[k] != "" && ' ' !in Split(s)[k]
    ensures Join(Split(s)) == s
  {
    PiecesNonEmpty(s);
    JoinPieces(s);
    if ' ' in s {
      var p := Pieces(s);
      assert p[|p| - 1] != "";
      assert StripTrailingEmpty(p) == p;
    } else {
      assert Pieces(s) == [s] by {
        SpaceFreePieces(s);
      }
    }
  }

  lemma {:induction false} SpaceFreePieces(s: string)
    requires ' ' !in s
    ensures Pieces(s) == [s]
  {
    if s != [] {
      assert s[0] in s && ' ' !in s[1..];
      SpaceFreePieces(s[1..]);
      assert s == [s[0]] + s[1..];
    }
  }

  /** The pieces of a sentence of spaces only are all empty. */
  lemma {:induction false} PiecesOfSpaces(s: string)
    requires forall i :: 0 <= i < |s| ==> s[i] == ' '
    ensures forall k :: 0 <= k < |Pieces(s)| ==> Pieces(s)[k] == ""
  {
    if s != [] {
      PiecesOfSpaces(s[1..]);
    }
  }

  /** A non-empty sentence of spaces only has no words at all, while the empty sentence
      has one (empty) word. */
  lemma BlankSentences(s: string)
    requires forall i :: 0 <= i < |s| ==> s[i] == ' '
    ensures WordCount(s) == if s == [] then 1 else 0
  {
    if s != [] {
      assert s[0] in s;
      PiecesOfSpaces(s);
    }
  }

  // ---------------------------------------------------------------- reverse

  /** `new StringBuilder(sentence).reverse()`. */
  function Reverse(s: string): (r: string)
    ensures |r| == |s|
    ensures forall i :: 0 <= i < |s| ==> r[i] == s[|s| - 1 - i]
  {
    if s == [] then [] else Reverse(s[1..]) + [s[0]]
  }

  /** Reversing twice gives back the sentence. */
  lemma ReverseReverse(s: string)
    ensures Reverse(Reverse(s)) == s
  {
    var r := Reverse(Reverse(s));
    assert forall i :: 0 <= i < |s| ==> r[i] == Reverse(s)[|s| - 1 - i] == s[i];
  }

  // ---------------------------------------------------------------- indexOf and replace

  /** pattern occurs in s starting at index i. */
  predicate OccursAt(s: string, pattern: string, i: int)
  {
    0 <= i && i + |pattern| <= |s| && s[i..i + |pattern|] == pattern
  }

  /** The lowest index at or after `from` where pattern occurs, or -1. */
  function IndexFrom(s: string, pattern: string, from: nat): (r: int)
    requires from <= |s|
    ensures r == -1 || (from <= r && OccursAt(s, pattern, r))
    ensures forall k :: from <= k && (r == -1 || k < r) ==> !OccursAt(s, pattern, k)
    decreases |s| - from
  {
    if from + |pattern| > |s| then -1
    else if s[from..from + |pattern|] == pattern then from
    else IndexFrom(s, pattern, from + 1)
  }

  /** `indexOf(str)`: the lowest index where str occurs, or -1 exactly when it occurs
      nowhere; an empty str occurs at 0. */
  function IndexOf(s: string, pattern: string): (r: int)
    ensures r == -1 || OccursAt(s, pattern, r)
    ensures forall k :: 0 <= k && (r == -1 || k < r) ==> !OccursAt(s, pattern, k)
    ensures r == -1 <==> forall k :: !OccursAt(s, pattern, k)
  {
    IndexFrom(s, pattern, 0)
  }

  /** The sentence after the replacement block. When target occurs, exactly its first
      occurrence is replaced: the text before and after it is kept and the length changes
      by |replacement| - |target|. When it does not occur, the sentence is unchanged. */
  function ReplaceFirst(s: string, target: string, replacement: string): (r: string)
    ensures IndexOf(s, target) == -1 ==> r == s
    ensures IndexOf(s, target) != -1 ==> var i := IndexOf(s, target);
      && |r| == |s| - |target| + |replacement|
      && r[..i] == s[..i]
      && r[i..i + |replacement|] == replacement
      && r[i + |replacement|..] == s[i + |target|..]
  {
    var i := IndexOf(s, target);
    if i == -1 then s
    else
      var r := s[..i] + replacement + s[i + |target|..];
      assert r[..i] == s[..i];
      assert r[i..i + |replacement|] == replacement;
      assert r[i + |replacement|..] == s[i + |target|..];
      r
  }

  /** Later occurrences of target are left as they were, shifted by the change in length. */
  lemma LaterOccurrencesKept(s: string, target: string, replacement: string, j: int)
    requires IndexOf(s, target) != -1
    requires IndexOf(s, target) + |target| <= j && OccursAt(s, target, j)
    ensures OccursAt(ReplaceFirst(s, target, replacement), target, j - |target| + |replacement|)
  {
    var i := IndexOf(s, target);
    var r := ReplaceFirst(s, target, replacement);
    var j' := j - |target| + |replacement|;
    var offset := j - (i + |target|);
    assert r[j'..j' + |target|] == r[i + |replacement|..][offset..offset + |target|];
    assert s[j..j + |target|] == s[i + |target|..][offset..offset + |target|];
  }

  /** `java.lang.StringBuffer`, reduced to the one edit the sentence undergoes. */
  class StringBuffer {
    var contents: string

    constructor (s: string)
      ensures contents == s
    {
      contents := s;
    }

    /** `replace(start, end, str)`: the characters from start up to end (clamped to the
        length) give way to str. */
    method Replace(start: int, end: int, str: string)
      requires 0 <= start <= |contents| && start <= end
      modifies this
      ensures var stop := if end > |old(contents)| then |old(contents)| else end;
        contents == old(contents)[..start] + str + old(contents)[stop..]
    {
      var stop := if end > |contents| then |contents| else end;
      contents := contents[..start] + str + contents[stop..];
    }
  }

  /** The replacement block of `main`: look target up in a buffer holding the sentence and
      replace it there, or report "Word not found". */
  method UpdateSentence(sentence: string, target: string, replacement: string)
    returns (updated: string, wordNotFound: bool)
    ensures wordNotFound <==> forall k :: !OccursAt(sentence, target, k)
    ensures updated == ReplaceFirst(sentence, target, replacement)
  {
    var buffer := new StringBuffer(sentence);
    var index := IndexOf(buffer.contents, target);
    if index != -1 {
      buffer.Replace(index, index + |target|, replacement);
      wordNotFound := false;
    } else {
      wordNotFound := true;
    }
    updated := buffer.contents;
  }
}
