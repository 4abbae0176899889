/**
 * Joining and splitting strings on a one-character separator, with the
 * semantics of Python's `sep.join(words)` and `s.split(sep)` (the form of
 * `split` that is given an explicit separator, so empty pieces are kept).
 * The two are proved to be inverse to each other in both directions.
 */
module Text {

  /** `[sep].join(words)`: the words with one separator between neighbours. */
  function Join(words: seq<string>, sep: char): (s: string)
    ensures |words| == 0 ==> s == ""
    ensures |words| >= 2 ==> sep in s
    ensures |words| >= 1 ==> words[0] <= s
  {
    if |words| == 0 then ""
    else if |words| == 1 then words[0]
    else words[0] + [sep] + Join(words[1..], sep)
  }

  /** `s.split(sep)`: the maximal separator-free pieces of `s`, in order. */
  function Split(s: string, sep: char): (parts: seq<string>)
    ensures |parts| >= 1
    ensures forall i :: 0 <= i < |parts| ==> sep !in parts[i]
    ensures sep !in s ==> parts == [s]
  {
    if |s| == 0 then [""]
    else
      var rest := Split(s[1..], sep);
      if s[0] == sep then [""] + rest
      else
        assert sep !in s ==> [s[0]] + s[1..] == s;
        [[s[0]] + rest[0]] + rest[1..]
  }

  /** Joining two words puts exactly one separator between them. */
  lemma JoinPair(a: string, b: string, sep: char)
    ensures Join([a, b], sep) == a + [sep] + b
  {
    assert [a, b][1..] == [b];
  }

  /** Joining a word in front of a non-empty list adds the word and one separator. */
  lemma JoinCons(w: string, words: seq<string>, sep: char)
    requires |words| >= 1
    ensures Join([w] + words, sep) == w + [sep] + Join(words, sep)
  {
    assert ([w] + words)[1..] == words;
  }

  /** Splitting a word, a separator and a tail yields the word, then the pieces of the tail. */
  lemma {:induction false} SplitAfterWord(w: string, sep: char, tail: string)
    requires sep !in w
    ensures Split(w + [sep] + tail, sep) == [w] + Split(tail, sep)
  {
    var s := w + [sep] + tail;
    if |w| == 0 {
      assert s[0] == sep && s[1..] == tail;
    } else {
      assert s[0] == w[0] && s[1..] == w[1..] + [sep] + tail;
      SplitAfterWord(w[1..], sep, tail);
      assert [w[0]] + w[1..] == w;
    }
  }

  /** Splitting undoes joining, provided no word contains the separator. */
  lemma {:induction false} SplitJoin(words: seq<string>, sep: char)
    requires |words| >= 1
    requires forall i :: 0 <= i < |words| ==> sep !in words[i]
    ensures Split(Join(words, sep), sep) == words
  {
    if |words| > 1 {
      SplitAfterWord(words[0], sep, Join(words[1..], sep));
      SplitJoin(words[1..], sep);
    }
  }

  /** Joining the first piece with one more leading character. */
  lemma JoinConsChar(c: char, words: seq<string>, sep: char)
    requires |words| >= 1
    ensures Join([[c] + words[0]] + words[1..], sep) == [c] + Join(words, sep)
  {
  }

  /** Joining undoes splitting, for every string. */
  lemma {:induction false} JoinSplit(s: string, sep: char)
    ensures Join(Split(s, sep), sep) == s
  {
    if |s| > 0 {
      var rest := Split(s[1..], sep);
      JoinSplit(s[1..], sep);
      if s[0] == sep {
        assert ([""] + rest)[1..] == rest;
        assert [s[0]] + s[1..] == s;
      } else {
        JoinConsChar(s[0], rest, sep);
        assert [s[0]] + s[1..] == s;
      }
    }
  }
}
