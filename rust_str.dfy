/** The parts of Rust's `str` API that the pipeline relies on, stated on
    `seq<char>`: `lines`, `split` and `split_once` on one character,
    `contains` on a pattern, `replace(c, "")`, and ASCII case mapping. */
module RustStr {

  /** Position of the first `c` in `s`. */
  function IndexOf(s: string, c: char): (i: nat)
    requires c in s
    ensures i < |s| && s[i] == c && c !in s[..i]
  {
    if s[0] == c then 0 else 1 + IndexOf(s[1..], c)
  }

  /** `s.starts_with(p)`. */
  predicate StartsWith(s: string, p: string)
  {
    |p| <= |s| && s[..|p|] == p
  }

  /** `s.contains(p)`: `p` occurs somewhere in `s` (not necessarily at the end). */
  predicate Contains(s: string, p: string)
    decreases |s|
  {
    StartsWith(s, p) || (|s| > 0 && Contains(s[1..], p))
  }

  /** A string always contains itself as a suffix. */
  lemma {:induction false} ContainsSuffix(s: string, p: string)
    ensures Contains(s + p, p)
    decreases |s|
  {
    if s == [] {
      assert s + p == p;
    } else {
      assert (s + p)[1..] == s[1..] + p;
      ContainsSuffix(s[1..], p);
    }
  }

  /** A pattern found in `s` is still found after something is appended. */
  lemma {:induction false} ContainsExtend(s: string, p: string, t: string)
    requires Contains(s, p)
    ensures Contains(s + t, p)
    decreases |s|
  {
    if StartsWith(s, p) {
      assert (s + t)[..|p|] == s[..|p|];
    } else {
      assert (s + t)[1..] == s[1..] + t;
      ContainsExtend(s[1..], p, t);
    }
  }

  /** A pattern found at position `k` is contained. */
  lemma {:induction false} ContainsAt(s: string, p: string, k: nat)
    requires k + |p| <= |s| && s[k..k + |p|] == p
    ensures Contains(s, p)
    decreases k
  {
    if k > 0 {
      assert s[1..][k - 1..k - 1 + |p|] == s[k..k + |p|];
      ContainsAt(s[1..], p, k - 1);
    }
  }

  /** A pattern longer than the text cannot occur in it. */
  lemma {:induction false} ShorterNotContained(s: string, p: string)
    requires |s| < |p|
    ensures !Contains(s, p)
    decreases |s|
  {
    if |s| > 0 {
      ShorterNotContained(s[1..], p);
    }
  }

  /** A pattern with a character the text lacks does not occur in it. */
  lemma {:induction false} MissingCharNotContained(s: string, p: string, k: nat)
    requires k < |p| && p[k] !in s
    ensures !Contains(s, p)
    decreases |s|
  {
    if |s| > 0 {
      assert forall ch <- s[1..] :: ch in s;
      MissingCharNotContained(s[1..], p, k);
    }
  }

  /** `parts` joined with the separator `c` between consecutive elements. */
  function Join(parts: seq<string>, c: char): string
  {
    if |parts| == 0 then ""
    else if |parts| == 1 then parts[0]
    else parts[0] + [c] + Join(parts[1..], c)
  }

  /** Joining one more piece adds a separator and the piece at the end. */
  lemma {:induction false} JoinAppend(parts: seq<string>, x: string, c: char)
    requires |parts| >= 1
    ensures Join(parts + [x], c) == Join(parts, c) + [c] + x
    decreases |parts|
  {
    if |parts| > 1 {
      assert (parts + [x])[1..] == parts[1..] + [x];
      JoinAppend(parts[1..], x, c);
    }
  }

  /** `s.split(c)`: the pieces between occurrences of `c`; empty pieces are
      kept, so the result is never empty (`"".split(c)` yields `[""]`). */
  function Split(s: string, c: char): (parts: seq<string>)
    ensures |parts| >= 1
    ensures forall p <- parts :: c !in p
    decreases |s|
  {
    if c !in s then [s]
    else
      var i := IndexOf(s, c);
      [s[..i]] + Split(s[i + 1..], c)
  }

  /** Splitting and joining again gives back the original string. */
  lemma {:induction false} JoinSplit(s: string, c: char)
    ensures Join(Split(s, c), c) == s
    decreases |s|
  {
    if c in s {
      var i := IndexOf(s, c);
      SplitFront(s, c);
      JoinSplit(s[i + 1..], c);
      Reassemble(s, i);
    }
  }

  /** When `c` occurs, `s.split(c)` is the text before the first `c`
      followed by the pieces of the rest. */
  lemma SplitFront(s: string, c: char)
    requires c in s
    ensures var parts := Split(s, c);
      && |parts| >= 2
      && parts[0] == s[..IndexOf(s, c)]
      && parts[1..] == Split(s[IndexOf(s, c) + 1..], c)
  {
  }

  /** A string is the text before position `i`, the character at `i`, and
      the text after it. */
  lemma Reassemble(s: string, i: nat)
    requires i < |s|
    ensures s[..i] + [s[i]] + s[i + 1..] == s
  {
  }

  /** Joining pieces free of `c` and splitting again gives back the pieces. */
  lemma {:induction false} SplitJoin(parts: seq<string>, c: char)
    requires |parts| >= 1
    requires forall p <- parts :: c !in p
    ensures Split(Join(parts, c), c) == parts
    decreases |parts|
  {
    if |parts| > 1 {
      var s := Join(parts, c);
      var head := parts[0];
      assert s == head + [c] + Join(parts[1..], c);
      assert c in s by { assert s[|head|] == c; }
      IndexAfterFree(head, c, Join(parts[1..], c));
      SplitJoin(parts[1..], c);
    }
  }

  /** The first `c` in `head + [c] + tail` is the one after `head` when `head` has none. */
  lemma IndexAfterFree(head: string, c: char, tail: string)
    requires c !in head
    ensures c in head + [c] + tail
    ensures IndexOf(head + [c] + tail, c) == |head|
    ensures (head + [c] + tail)[..|head|] == head
    ensures (head + [c] + tail)[|head| + 1..] == tail
  {
    var s := head + [c] + tail;
    assert s[|head|] == c;
  }

  /** The text after the last `c` in `s`, or all of `s` when it has none. */
  function AfterLast(s: string, c: char): (r: string)
    ensures c !in r
    ensures |r| <= |s| && s[|s| - |r|..] == r
    ensures c in s <==> |r| < |s|
    ensures |r| < |s| ==> s[|s| - |r| - 1] == c
  {
    if s == [] then []
    else
      var n := |s|;
      if s[n - 1] == c then []
      else
        var r := AfterLast(s[..n - 1], c);
        SuffixThroughLast(s, n - 1 - |r|);
        r + [s[n - 1]]
  }

  /** A suffix of `s` is the same suffix of `s` without its last character,
      followed by that character. */
  lemma SuffixThroughLast(s: string, k: nat)
    requires k < |s|
    ensures s[k..] == s[..|s| - 1][k..] + [s[|s| - 1]]
  {
  }

  /** `s.split_once(c)` when `c` occurs: the text before the first `c` and
      the text after it. */
  function SplitOnce(s: string, c: char): (kv: (string, string))
    requires c in s
    ensures c !in kv.0
    ensures kv.0 + [c] + kv.1 == s
  {
    var i := IndexOf(s, c);
    assert s == s[..i] + [c] + s[i + 1..];
    (s[..i], s[i + 1..])
  }

  /** `s.replace(c, "")`: `s` with every `c` removed. */
  function RemoveChar(s: string, c: char): (r: string)
    ensures c !in r
    ensures |r| <= |s|
    ensures c !in s ==> r == s
  {
    if s == [] then []
    else (if s[0] == c then [] else [s[0]]) + RemoveChar(s[1..], c)
  }

  /** Removing a character keeps every other character: each one occurs as
      often as before, and no `c` is left. */
  lemma {:induction false} RemoveCharKeepsOthers(s: string, c: char)
    ensures multiset(RemoveChar(s, c)) == multiset(s)[c := 0]
    decreases |s|
  {
    if s != [] {
      RemoveCharKeepsOthers(s[1..], c);
      assert s == [s[0]] + s[1..];
    }
  }

  /** Removing a character works piece by piece, so the kept characters stay
      in their order. */
  lemma {:induction false} RemoveCharAppend(a: string, b: string, c: char)
    ensures RemoveChar(a + b, c) == RemoveChar(a, c) + RemoveChar(b, c)
    decreases |a|
  {
    if a != [] {
      assert (a + b)[0] == a[0];
      assert (a + b)[1..] == a[1..] + b;
      RemoveCharAppend(a[1..], b, c);
    } else {
      assert a + b == b;
    }
  }

  /** `char::is_ascii_uppercase` / `is_ascii_lowercase`. */
  predicate IsAsciiUpper(ch: char) { 'A' <= ch <= 'Z' }
  predicate IsAsciiLower(ch: char) { 'a' <= ch <= 'z' }

  function UpperChar(ch: char): char
  {
    if IsAsciiLower(ch) then (ch as int - 32) as char else ch
  }

  function LowerChar(ch: char): char
  {
    if IsAsciiUpper(ch) then (ch as int + 32) as char else ch
  }

  /** `to_uppercase` restricted to ASCII letters. */
  function ToUpper(s: string): (r: string)
    ensures |r| == |s|
    ensures forall i :: 0 <= i < |s| ==> r[i] == UpperChar(s[i])
  {
    if s == [] then [] else [UpperChar(s[0])] + ToUpper(s[1..])
  }

  /** `to_lowercase` restricted to ASCII letters. */
  function ToLower(s: string): (r: string)
    ensures |r| == |s|
    ensures forall i :: 0 <= i < |s| ==> r[i] == LowerChar(s[i])
  {
    if s == [] then [] else [LowerChar(s[0])] + ToLower(s[1..])
  }

  /** Upper-casing ignores the case a string was written in. */
  lemma UpperOfLower(s: string)
    ensures ToUpper(ToLower(s)) == ToUpper(s)
  {
  }

  /** `'\r'` removed from the end of a line, as `lines` does before a `'\n'`. */
  function StripCr(line: string): string
  {
    if |line| > 0 && line[|line| - 1] == '\r' then line[..|line| - 1] else line
  }

  /** `s.lines()` (and `BufRead::lines` on the same bytes): the pieces ended by
      `'\n'`, each losing one `'\r'` right before its `'\n'`; the final line
      ending is optional, so no empty last line is produced, and a `'\r'` at
      the very end of an unterminated last line is kept. */
  function Lines(s: string): (ls: seq<string>)
    ensures forall l <- ls :: '\n' !in l
    ensures |ls| == 0 <==> s == []
    decreases |s|
  {
    if s == [] then []
    else if '\n' !in s then [s]
    else
      var i := IndexOf(s, '\n');
      [StripCr(s[..i])] + Lines(s[i + 1..])
  }

  /** A line ended by `"\r\n"` loses both characters: `lines` gives the text
      before them, then the lines of the rest. */
  lemma CrlfLine(head: string, tail: string)
    requires '\n' !in head
    ensures Lines(head + "\r\n" + tail) == [head] + Lines(tail)
  {
    var s := head + "\r\n" + tail;
    var h := head + ['\r'];
    assert s == h + ['\n'] + tail;
    assert '\n' !in h;
    IndexAfterFree(h, '\n', tail);
    assert StripCr(h) == head;
  }

  /** Lines that carry no `'\r'` are recovered from their `'\n'`-join, as long
      as the last one is not empty (an empty last line reads as a final line
      ending). */
  lemma {:induction false} LinesOfJoin(ls: seq<string>)
    requires |ls| >= 1 && ls[|ls| - 1] != []
    requires forall l <- ls :: '\n' !in l && '\r' !in l
    ensures Lines(Join(ls, '\n')) == ls
    decreases |ls|
  {
    var s := Join(ls, '\n');
    if |ls| == 1 {
      assert s == ls[0];
      assert '\n' !in s by { assert ls[0] in ls; }
      assert Lines(s) == [s];
    } else {
      var head, rest := ls[0], ls[1..];
      var tail := Join(rest, '\n');
      assert s == head + ['\n'] + tail;
      assert head in ls;
      IndexAfterFree(head, '\n', tail);
      assert Lines(s) == [StripCr(head)] + Lines(tail);
      assert StripCr(head) == head by {
        if |head| > 0 { assert head[|head| - 1] in head; }
      }
      assert rest[|rest| - 1] == ls[|ls| - 1];
      assert forall l <- rest :: l in ls;
      LinesOfJoin(rest);
      assert [head] + rest == ls;
    }
  }

  /** A text without `'\r'` and without a final line ending is the `'\n'`-join
      of its lines. */
  lemma {:induction false} JoinOfLines(s: string)
    requires s != [] && s[|s| - 1] != '\n'
    requires '\r' !in s
    ensures Join(Lines(s), '\n') == s
    decreases |s|
  {
    if '\n' in s {
      var i := IndexOf(s, '\n');
      var head, tail := s[..i], s[i + 1..];
      assert s == head + ['\n'] + tail;
      assert tail != [];
      assert StripCr(head) == head by {
        if |head| > 0 { assert head[|head| - 1] == s[i - 1]; }
      }
      assert '\r' !in tail by {
        forall k | 0 <= k < |tail| ensures tail[k] != '\r' { assert tail[k] == s[i + 1 + k]; }
      }
      JoinOfLines(tail);
      assert Lines(s) == [head] + Lines(tail);
    }
  }
}
