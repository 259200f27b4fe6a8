/** The string operations the deck script relies on, with the semantics of the
    JavaScript and lodash functions it calls: `_.startsWith`, `String.prototype.replace`
    with a string pattern and a `$`-free replacement, `String.prototype.split(' ')` and
    `Array.prototype.join(' ')`.
 */
module ClassStrings {

  /** `_.startsWith(s, prefix)`: whether `s` begins with `prefix`. */
  function StartsWith(s: string, prefix: string): (b: bool)
    ensures b <==> |prefix| <= |s| && s[..|prefix|] == prefix
  {
    if prefix == [] then true
    else if s == [] || s[0] != prefix[0] then false
    else
      var b := StartsWith(s[1..], prefix[1..]);
      assert b ==> s[..|prefix|] == [s[0]] + s[1..][..|prefix| - 1];
      assert |prefix| <= |s| && s[..|prefix|] == prefix ==> s[1..][..|prefix| - 1] == prefix[1..];
      b
  }

  /** `s.replace(pattern, replacement)` for a string pattern and a replacement without
      `$` (JavaScript expands `$$`, `$&`, `` $` `` and `$'`; here the replacement is
      inserted literally): only the FIRST occurrence of `pattern` is replaced (an empty
      pattern matches at the start), and a string without an occurrence comes back
      unchanged. */
  function ReplaceFirst(s: string, pattern: string, replacement: string): string
  {
    if StartsWith(s, pattern) then replacement + s[|pattern|..]
    else if s == [] then s
    else [s[0]] + ReplaceFirst(s[1..], pattern, replacement)
  }

  /** Whether `pattern` occurs in `s` at offset `k`. */
  predicate OccursAt(s: string, pattern: string, k: nat)
  {
    k <= |s| && StartsWith(s[k..], pattern)
  }

  /** An occurrence in the tail of `s` is an occurrence in `s`, one place further on. */
  lemma OccursAtTail(s: string, pattern: string, i: nat)
    requires i < |s|
    ensures OccursAt(s[1..], pattern, i) <==> OccursAt(s, pattern, i + 1)
  {
    assert s[1..][i..] == s[i + 1..];
  }

  /** ReplaceFirst agrees with the definition of `replace` by position: when the first
      occurrence of `pattern` is at offset `k`, the result is the text before `k`, the
      replacement, then the text after that occurrence. */
  lemma {:induction false} ReplaceFirstAtFirstOccurrence(s: string, pattern: string, replacement: string, k: nat)
    requires OccursAt(s, pattern, k)
    requires forall i :: 0 <= i < k ==> !OccursAt(s, pattern, i)
    ensures k + |pattern| <= |s|
    ensures ReplaceFirst(s, pattern, replacement) == s[..k] + replacement + s[k + |pattern|..]
  {
    assert s[0..] == s;
    if k == 0 {
      assert StartsWith(s, pattern);
    } else {
      assert !OccursAt(s, pattern, 0);
      assert !StartsWith(s, pattern) && s != [];
      var tail := s[1..];
      forall i | 0 <= i < k - 1 ensures !OccursAt(tail, pattern, i) {
        OccursAtTail(s, pattern, i);
      }
      OccursAtTail(s, pattern, k - 1);
      ReplaceFirstAtFirstOccurrence(tail, pattern, replacement, k - 1);
      var r := ReplaceFirst(tail, pattern, replacement);
      assert ReplaceFirst(s, pattern, replacement) == [s[0]] + r;
      assert r == tail[..k - 1] + replacement + tail[k - 1 + |pattern|..];
      assert tail[..k - 1] == s[1..k];
      assert tail[k - 1 + |pattern|..] == s[k + |pattern|..];
      assert [s[0]] + s[1..k] == s[..k];
    }
  }

  /** A string in which `pattern` does not occur is left unchanged by `replace`. */
  lemma {:induction false} ReplaceFirstNoOccurrence(s: string, pattern: string, replacement: string)
    requires forall i :: 0 <= i <= |s| ==> !OccursAt(s, pattern, i)
    ensures ReplaceFirst(s, pattern, replacement) == s
  {
    assert s[0..] == s;
    assert !OccursAt(s, pattern, 0);
    if s != [] {
      forall i | 0 <= i <= |s| - 1 ensures !OccursAt(s[1..], pattern, i) {
        OccursAtTail(s, pattern, i);
      }
      ReplaceFirstNoOccurrence(s[1..], pattern, replacement);
    }
  }

  /** `s.split(' ')`: the pieces between single spaces. There is always at least one
      piece (`"".split(' ')` is `[""]`) and consecutive spaces give empty pieces. */
  function Split(s: string): (r: seq<string>)
    ensures |r| >= 1
    ensures forall i :: 0 <= i < |r| ==> ' ' !in r[i]
  {
    if s == [] then [[]]
    else
      var rest := Split(s[1..]);
      if s[0] == ' ' then [[]] + rest
      else [[s[0]] + rest[0]] + rest[1..]
  }

  /** `toks.join(' ')`: the tokens separated by single spaces; `[].join(' ')` is `""`. */
  function Join(toks: seq<string>): string
  {
    if |toks| == 0 then ""
    else if |toks| == 1 then toks[0]
    else toks[0] + " " + Join(toks[1..])
  }

  /** Prepending a character to the first token prepends it to the joined string. */
  lemma {:induction false} JoinConsFirst(c: char, toks: seq<string>)
    requires |toks| >= 1
    ensures Join([[c] + toks[0]] + toks[1..]) == [c] + Join(toks)
  {
    var t := [[c] + toks[0]] + toks[1..];
    assert t[0] == [c] + toks[0] && t[1..] == toks[1..];
    if |toks| > 1 {
      assert Join(t) == t[0] + " " + Join(t[1..]);
      assert Join(toks) == toks[0] + " " + Join(toks[1..]);
    }
  }

  /** Joining the space-split pieces of a string with single spaces gives the string back. */
  lemma {:induction false} JoinSplit(s: string)
    ensures Join(Split(s)) == s
  {
    if s != [] {
      var rest := Split(s[1..]);
      JoinSplit(s[1..]);
      if s[0] == ' ' {
        assert ([[]] + rest)[1..] == rest;
        assert s == [' '] + s[1..];
      } else {
        JoinConsFirst(s[0], rest);
        assert s == [s[0]] + s[1..];
      }
    }
  }

  /** Splitting text that begins with a space-free token glues that token to the first piece. */
  lemma {:induction false} SplitAfterToken(t: string, rest: string)
    requires ' ' !in t
    ensures Split(t + rest) == [t + Split(rest)[0]] + Split(rest)[1..]
  {
    if t == [] {
      assert t + rest == rest;
      assert [] + Split(rest)[0] == Split(rest)[0];
      assert [Split(rest)[0]] + Split(rest)[1..] == Split(rest);
    } else {
      assert (t + rest)[0] == t[0];
      assert (t + rest)[1..] == t[1..] + rest;
      SplitAfterToken(t[1..], rest);
      assert [t[0]] + (t[1..] + Split(rest)[0]) == t + Split(rest)[0];
    }
  }

  /** Splitting joined tokens gives the tokens back, provided there is at least one
      token and none contains a space (`[].join(' ')` splits into `[""]`). */
  lemma {:induction false} SplitJoin(toks: seq<string>)
    requires |toks| >= 1
    requires forall i :: 0 <= i < |toks| ==> ' ' !in toks[i]
    ensures Split(Join(toks)) == toks
  {
    if |toks| == 1 {
      SplitAfterToken(toks[0], "");
      assert toks[0] + "" == toks[0];
    } else {
      var j := Join(toks[1..]);
      SplitJoin(toks[1..]);
      assert (" " + j)[1..] == j;
      assert Split(" " + j) == [[]] + toks[1..];
      assert toks[0] + " " + j == toks[0] + (" " + j);
      SplitAfterToken(toks[0], " " + j);
      assert toks[0] + [] == toks[0];
    }
  }
}
