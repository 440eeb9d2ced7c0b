/** The trigram extractor: the set of lower-cased three-character slices of a
    text, taken at the start positions 0 .. len/3 - 1 (integer division). The
    text is taken as already transliterated to ASCII. */
module Trigrams {

  /** ASCII lower-casing of one character. */
  function LowerChar(c: char): char
  {
    if 'A' <= c <= 'Z' then (c as int + 32) as char else c
  }

  function Lower(s: string): string
  {
    seq(|s|, i requires 0 <= i < |s| => LowerChar(s[i]))
  }

  /** No character is an upper-case ASCII letter. */
  predicate IsLower(s: string)
  {
    forall i :: 0 <= i < |s| ==> !('A' <= s[i] <= 'Z')
  }

  /** Every character is a 7-bit ASCII character, as transliterated text is. */
  predicate IsAscii(s: string)
  {
    forall i :: 0 <= i < |s| ==> s[i] < 128 as char
  }

  /** The lower-cased slice data[i .. i + 3]. */
  function TrigramAt(data: string, i: nat): string
    requires i + 3 <= |data|
  {
    Lower(data[i..i + 3])
  }

  /** The slices taken at the first n start positions. */
  function TrigramsUpTo(data: string, n: nat): set<string>
    requires n <= |data| / 3
  {
    set i | 0 <= i < n :: TrigramAt(data, i)
  }

  /** The trigrams of a text: one slice for each start position below
      len / 3. */
  function TrigramsOf(data: string): set<string>
  {
    TrigramsUpTo(data, |data| / 3)
  }

  /** Every trigram is three characters long and lower-case. */
  lemma TrigramsShape(data: string, t: string)
    requires t in TrigramsOf(data)
    ensures |t| == 3 && IsLower(t)
  {
  }

  lemma {:induction false} TrigramsUpToSize(data: string, n: nat)
    requires n <= |data| / 3
    ensures |TrigramsUpTo(data, n)| <= n
  {
    if n > 0 {
      TrigramsUpToSize(data, n - 1);
      assert TrigramsUpTo(data, n) == TrigramsUpTo(data, n - 1) + {TrigramAt(data, n - 1)};
    }
  }

  /** There are at most len / 3 trigrams, and none for a text shorter than
      three characters. */
  lemma TrigramsSize(data: string)
    ensures |TrigramsOf(data)| <= |data| / 3
    ensures |data| < 3 ==> TrigramsOf(data) == {}
  {
    TrigramsUpToSize(data, |data| / 3);
  }

  /** Only the start of the text is read: two texts of the same length that
      agree on their first len / 3 + 2 characters have the same trigrams,
      whatever the rest of them holds. */
  lemma TrigramsReadOnlyPrefix(a: string, b: string)
    requires |a| == |b|
    requires forall j :: 0 <= j < |a| && j < |a| / 3 + 2 ==> a[j] == b[j]
    ensures TrigramsOf(a) == TrigramsOf(b)
  {
    forall i | 0 <= i < |a| / 3 ensures TrigramAt(a, i) == TrigramAt(b, i) {
      assert a[i..i + 3] == b[i..i + 3];
    }
  }

  class Trigram {
    var data: string
    var trigrams: set<string>
    var verbose: bool

    /** Stores the text and the flag and collects the text's trigrams; the
        flag, off unless given, plays no part in what is collected. The text
        is the already transliterated one, so it is plain ASCII. */
    constructor (data: string, verbose: bool := false)
      requires IsAscii(data)
      ensures this.data == data && this.verbose == verbose
      ensures trigrams == TrigramsOf(data)
    {
      this.verbose := verbose;
      this.data := data;
      this.trigrams := {};
      new;
      GetTrigrams();
    }

    /** Adds the slice at every start position below len / 3 to the set. */
    method GetTrigrams()
      modifies this`trigrams
      ensures trigrams == old(trigrams) + TrigramsOf(data)
    {
      for i := 0 to |data| / 3
        invariant trigrams == old(trigrams) + TrigramsUpTo(data, i)
      {
        assert TrigramsUpTo(data, i + 1) == TrigramsUpTo(data, i) + {TrigramAt(data, i)};
        trigrams := trigrams + {Lower(data[i..i + 3])};
      }
    }

    /** The stored trigram set itself; nothing is changed. */
    method Call() returns (r: set<string>)
      ensures r == trigrams
    {
      r := trigrams;
    }
  }
}
