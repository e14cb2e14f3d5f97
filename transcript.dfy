/** Judging a spoken answer (SpellingPracticeView.tsx, the recognition
    result handler): the transcript is lower-cased and stripped of every
    character outside a-z, and must then equal the lower-cased target word.
    Lower-casing is modelled on ASCII letters. */
module Transcript {

  function LowerChar(c: char): char
  {
    if 'A' <= c <= 'Z' then (c as int + 32) as char else c
  }

  function ToLower(s: string): (r: string)
    ensures |r| == |s|
    ensures forall i :: 0 <= i < |s| ==> r[i] == LowerChar(s[i])
    decreases |s|
  {
    if s == [] then [] else [LowerChar(s[0])] + ToLower(s[1..])
  }

  predicate IsLowerLetter(c: char)
  {
    'a' <= c <= 'z'
  }

  predicate LettersOnly(s: string)
  {
    forall i :: 0 <= i < |s| ==> IsLowerLetter(s[i])
  }

  /** The characters a-z of `s`, in order. */
  function KeepLetters(s: string): (r: string)
    ensures LettersOnly(r)
    ensures |r| <= |s|
    decreases |s|
  {
    if s == [] then []
    else (if IsLowerLetter(s[0]) then [s[0]] else []) + KeepLetters(s[1..])
  }

  /** Exactly the letters of `s` are kept. */
  lemma {:induction false} KeepLettersMembers(s: string)
    ensures forall c :: c in KeepLetters(s) <==> c in s && IsLowerLetter(c)
    decreases |s|
  {
    if s != [] {
      KeepLettersMembers(s[1..]);
      assert s == [s[0]] + s[1..];
    }
  }

  /** The filter works character by character: filtering a concatenation
      is concatenating the filtered parts, so the kept letters stay in
      their order. */
  lemma {:induction false} KeepLettersAppend(a: string, b: string)
    ensures KeepLetters(a + b) == KeepLetters(a) + KeepLetters(b)
    decreases |a|
  {
    if a == [] {
      assert a + b == b;
    } else {
      assert (a + b)[0] == a[0];
      assert (a + b)[1..] == a[1..] + b;
      KeepLettersAppend(a[1..], b);
    }
  }

  /** One character is kept exactly when it is a letter. */
  lemma KeepLettersChar(c: char)
    ensures KeepLetters([c]) == (if IsLowerLetter(c) then [c] else [])
  {
    assert [c][1..] == [];
  }

  /** Every letter occurs in the result as often as in the input, and
      nothing else occurs. */
  lemma {:induction false} KeepLettersCount(s: string)
    ensures forall c :: multiset(KeepLetters(s))[c] == if IsLowerLetter(c) then multiset(s)[c] else 0
    decreases |s|
  {
    if s != [] {
      KeepLettersCount(s[1..]);
      assert s == [s[0]] + s[1..];
      assert multiset(s) == multiset{s[0]} + multiset(s[1..]);
    }
  }

  /** A string of letters only is kept whole, and only such a string is. */
  lemma {:induction false} KeepLettersIdentity(s: string)
    ensures KeepLetters(s) == s <==> LettersOnly(s)
    decreases |s|
  {
    if s != [] {
      KeepLettersIdentity(s[1..]);
      if IsLowerLetter(s[0]) {
        assert s == [s[0]] + s[1..];
        assert LettersOnly(s) <==> LettersOnly(s[1..]);
      } else {
        assert !LettersOnly(s);
      }
    }
  }

  function NormalizeTranscript(transcript: string): (r: string)
    ensures LettersOnly(r)
  {
    KeepLetters(ToLower(transcript))
  }

  /** Lower-casing twice is lower-casing once. */
  lemma ToLowerIdempotent(s: string)
    ensures ToLower(ToLower(s)) == ToLower(s)
  {
  }

  /** Normalising a normalised transcript changes nothing. */
  lemma NormalizeTranscriptIdempotent(transcript: string)
    ensures NormalizeTranscript(NormalizeTranscript(transcript)) == NormalizeTranscript(transcript)
  {
    var n := NormalizeTranscript(transcript);
    assert ToLower(n) == n;
    KeepLettersIdentity(n);
  }

  /** Case and punctuation in the transcript do not matter. */
  lemma NormalizeTranscriptExample()
    ensures NormalizeTranscript("Ca-t") == "cat"
  {
    var t := "Ca-t";
    assert t[1..] == "a-t" && t[1..][1..] == "-t" && t[1..][1..][1..] == "t";
    assert ToLower("t") == "t";
    assert ToLower("-t") == "-t";
    assert ToLower("a-t") == "a-t";
    assert ToLower(t) == "ca-t";
    var l := "ca-t";
    assert l[1..] == "a-t";
    assert KeepLetters("t") == "t";
    assert KeepLetters("-t") == "t";
    assert KeepLetters("a-t") == "at";
    assert KeepLetters(l) == "cat";
  }

  /** The answer counts as correct exactly when the normalised transcript is
      the lower-cased target word. */
  predicate IsCorrect(transcript: string, word: string)
  {
    NormalizeTranscript(transcript) == ToLower(word)
  }

  /** Saying the word itself is judged correct exactly when the lower-cased
      word consists of letters a-z only: a word with any other character
      (an apostrophe, a hyphen, a space) can never be judged correct. */
  lemma {:induction false} WordItselfCorrect(word: string)
    ensures IsCorrect(word, word) <==> LettersOnly(ToLower(word))
    ensures !LettersOnly(ToLower(word)) ==> forall t :: !IsCorrect(t, word)
  {
    KeepLettersIdentity(ToLower(word));
  }
}
