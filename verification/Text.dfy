/** The string operations the message matcher uses, on `seq<char>`. */
module Text {

  predicate IsSpace(c: char) {
    c == ' ' || c == '\t' || c == '\n' || c == '\r'
  }

  /** A word as `str.split` produces it. */
  predicate IsWord(w: string) {
    w != "" && forall i | 0 <= i < |w| :: !IsSpace(w[i])
  }

  /** `" ".join(words)`. */
  function Join(words: seq<string>): string {
    if words == [] then ""
    else if |words| == 1 then words[0]
    else words[0] + " " + Join(words[1..])
  }

  /** `s.split()`, scanning with the word read so far in `current`. */
  function SplitFrom(s: string, current: string): seq<string>
    decreases |s|
  {
    var done := if current == "" then [] else [current];
    if s == "" then done
    else if IsSpace(s[0]) then done + SplitFrom(s[1..], "")
    else SplitFrom(s[1..], current + [s[0]])
  }

  function Split(s: string): seq<string> {
    SplitFrom(s, "")
  }

  lemma {:induction false} SplitReadsWord(w: string, rest: string, current: string)
    requires forall i | 0 <= i < |w| :: !IsSpace(w[i])
    ensures SplitFrom(w + rest, current) == SplitFrom(rest, current + w)
    decreases |w|
  {
    if w == "" {
      assert w + rest == rest;
      assert current + w == current;
    } else {
      assert (w + rest)[1..] == w[1..] + rest;
      assert current + w == (current + [w[0]]) + w[1..];
      SplitReadsWord(w[1..], rest, current + [w[0]]);
    }
  }

  /** Splitting undoes joining, so a single-spaced text is determined by its words. */
  lemma {:induction false} SplitOfJoin(words: seq<string>)
    requires forall w | w in words :: IsWord(w)
    ensures Split(Join(words)) == words
  {
    if words == [] {
    } else if |words| == 1 {
      assert words[0] in words;
      SplitReadsWord(words[0], "", "");
      assert words[0] + "" == words[0];
      assert "" + words[0] == words[0];
    } else {
      var rest := " " + Join(words[1..]);
      assert words[0] in words;
      SplitReadsWord(words[0], rest, "");
      assert Join(words) == words[0] + rest;
      assert "" + words[0] == words[0];
      assert rest[1..] == Join(words[1..]);
      SplitOfJoin(words[1..]);
      assert SplitFrom(rest, words[0]) == [words[0]] + Split(Join(words[1..]));
    }
  }

  predicate StartsWith(s: string, prefix: string) {
    prefix <= s
  }

  predicate EndsWith(s: string, suffix: string) {
    |suffix| <= |s| && s[|s| - |suffix|..] == suffix
  }

  /** `s[:-n]` for a positive `n`. */
  function DropLast(s: string, n: nat): string {
    if n <= |s| then s[..|s| - n] else ""
  }
}
