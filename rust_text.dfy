/**
 * The parts of Rust's `str` API the checker relies on: `starts_with`,
 * `contains`, `lines`, `split_whitespace`, `join` and the position where a
 * `skip_while`/`take_while` adaptor stops. Strings are sequences of Unicode
 * scalar values; Rust works on their UTF-8 bytes, which gives the same
 * answers for these operations.
 */
module RustText {

  /**
   * Index of the first element at or after `i` that fails `p`, or `|xs|`:
   * where `skip_while(p)` resumes and where `take_while(p)` stops.
   */
  function SkipWhile<T>(xs: seq<T>, p: T -> bool, i: nat): (k: nat)
    requires i <= |xs|
    ensures i <= k <= |xs|
    ensures forall j :: i <= j < k ==> p(xs[j])
    ensures k < |xs| ==> !p(xs[k])
    decreases |xs| - i
  {
    if i == |xs| || !p(xs[i]) then i else SkipWhile(xs, p, i + 1)
  }

  /** The stopping point of `SkipWhile` is the only index with its two properties. */
  lemma SkipWhileAt<T>(xs: seq<T>, p: T -> bool, i: nat, k: nat)
    requires i <= k <= |xs|
    requires forall j :: i <= j < k ==> p(xs[j])
    requires k < |xs| ==> !p(xs[k])
    ensures SkipWhile(xs, p, i) == k
  {
  }

  /** `s.starts_with(p)` */
  predicate StartsWith(s: string, p: string) {
    |p| <= |s| && s[..|p|] == p
  }

  /** `p` occurs in `s` starting at index `i`. */
  ghost predicate OccursAt(s: string, p: string, i: nat) {
    i + |p| <= |s| && s[i..i + |p|] == p
  }

  /** `s.contains(p)`, searching left to right; the empty pattern is contained in every string. */
  predicate Contains(s: string, p: string)
    decreases |s|
  {
    StartsWith(s, p) || (|s| > 0 && Contains(s[1..], p))
  }

  /** `Contains` finds exactly the strings in which the pattern occurs somewhere. */
  lemma {:induction false} ContainsIffOccurs(s: string, p: string)
    ensures Contains(s, p) <==> exists i: nat :: OccursAt(s, p, i)
    decreases |s|
  {
    if StartsWith(s, p) {
      assert OccursAt(s, p, 0);
    } else if |s| == 0 {
      forall i: nat ensures !OccursAt(s, p, i) {
      }
    } else {
      ContainsIffOccurs(s[1..], p);
      forall i: nat | OccursAt(s[1..], p, i) ensures OccursAt(s, p, i + 1) {
        assert s[i + 1..i + 1 + |p|] == s[1..][i..i + |p|];
      }
      forall i: nat | OccursAt(s, p, i) ensures i > 0 && OccursAt(s[1..], p, i - 1) {
        assert s[i..i + |p|] == s[1..][i - 1..i - 1 + |p|];
      }
    }
  }

  /** Every character of a contained pattern is a character of the text. */
  lemma ContainedCharsOccur(s: string, p: string)
    ensures Contains(s, p) ==> forall c :: c in p ==> c in s
  {
    if Contains(s, p) {
      ContainsIffOccurs(s, p);
      var i: nat :| OccursAt(s, p, i);
      forall c | c in p ensures c in s {
        var k :| 0 <= k < |p| && p[k] == c;
        assert s[i..i + |p|][k] == c;
      }
    }
  }

  /** Rust's `char::is_whitespace`: the Unicode White_Space property. */
  predicate IsWhitespace(c: char) {
    var n := c as int;
    (9 <= n <= 13) || n == 32 || n == 0x85 || n == 0xA0 || n == 0x1680
    || (0x2000 <= n <= 0x200A) || n == 0x2028 || n == 0x2029 || n == 0x202F
    || n == 0x205F || n == 0x3000
  }

  predicate NoWhitespace(s: string) {
    forall j :: 0 <= j < |s| ==> !IsWhitespace(s[j])
  }

  /** `s.split_whitespace()`: the maximal runs of non-whitespace characters, in order. */
  function SplitWhitespace(s: string): (r: seq<string>)
    ensures forall k :: 0 <= k < |r| ==> r[k] != [] && NoWhitespace(r[k])
    decreases |s|
  {
    if s == [] then []
    else if IsWhitespace(s[0]) then SplitWhitespace(s[1..])
    else
      var n := SkipWhile(s, c => !IsWhitespace(c), 0);
      [s[..n]] + SplitWhitespace(s[n..])
  }

  /** `s` with every whitespace character removed. */
  function RemoveWhitespace(s: string): string
    decreases |s|
  {
    if s == [] then []
    else (if IsWhitespace(s[0]) then [] else [s[0]]) + RemoveWhitespace(s[1..])
  }

  function Concat(ts: seq<string>): string
    decreases |ts|
  {
    if ts == [] then [] else ts[0] + Concat(ts[1..])
  }

  lemma {:induction false} RemoveWhitespaceAppend(a: string, b: string)
    ensures RemoveWhitespace(a + b) == RemoveWhitespace(a) + RemoveWhitespace(b)
    decreases |a|
  {
    if a != [] {
      assert (a + b)[0] == a[0];
      assert (a + b)[1..] == a[1..] + b;
      RemoveWhitespaceAppend(a[1..], b);
      var h := if IsWhitespace(a[0]) then [] else [a[0]];
      assert RemoveWhitespace(a + b) == h + (RemoveWhitespace(a[1..]) + RemoveWhitespace(b));
      assert RemoveWhitespace(a) == h + RemoveWhitespace(a[1..]);
    } else {
      assert a + b == b;
    }
  }

  lemma {:induction false} RemoveWhitespaceOfWord(w: string)
    requires NoWhitespace(w)
    ensures RemoveWhitespace(w) == w
    decreases |w|
  {
    if w != [] {
      RemoveWhitespaceOfWord(w[1..]);
    }
  }

  /** Splitting on whitespace loses only the whitespace: the tokens, glued together, are the text without it. */
  lemma {:induction false} SplitWhitespaceKeepsText(s: string)
    ensures Concat(SplitWhitespace(s)) == RemoveWhitespace(s)
    decreases |s|
  {
    if s == [] {
    } else if IsWhitespace(s[0]) {
      SplitWhitespaceKeepsText(s[1..]);
    } else {
      var n := SkipWhile(s, c => !IsWhitespace(c), 0);
      var w := s[..n];
      assert s == w + s[n..];
      SplitWhitespaceKeepsText(s[n..]);
      RemoveWhitespaceAppend(w, s[n..]);
      RemoveWhitespaceOfWord(w);
      assert SplitWhitespace(s) == [w] + SplitWhitespace(s[n..]);
      assert ([w] + SplitWhitespace(s[n..]))[1..] == SplitWhitespace(s[n..]);
    }
  }

  /** A word followed by nothing or by whitespace splits off as the first token. */
  lemma SplitWord(w: string, rest: string)
    requires w != [] && NoWhitespace(w)
    requires rest == [] || IsWhitespace(rest[0])
    ensures SplitWhitespace(w + rest) == [w] + SplitWhitespace(rest)
  {
    var s := w + rest;
    assert s[0] == w[0];
    SkipWhileAt(s, c => !IsWhitespace(c), 0, |w|);
    assert s[..|w|] == w;
    assert s[|w|..] == rest;
  }

  /**
   * The tokens of `split_whitespace` are cut exactly at the whitespace:
   * non-empty words without whitespace, joined by a space, split back into
   * those words.
   */
  lemma {:induction false} SplitWhitespaceOfJoin(ts: seq<string>)
    requires forall k :: 0 <= k < |ts| ==> ts[k] != [] && NoWhitespace(ts[k])
    ensures SplitWhitespace(Join(ts, " ")) == ts
    decreases |ts|
  {
    if |ts| == 1 {
      SplitWord(ts[0], []);
      assert ts[0] + [] == ts[0];
    } else if |ts| > 1 {
      var rest := Join(ts[1..], " ");
      assert Join(ts, " ") == ts[0] + (" " + rest);
      SplitWord(ts[0], " " + rest);
      assert (" " + rest)[1..] == rest;
      SplitWhitespaceOfJoin(ts[1..]);
    }
  }

  /** Drops one trailing carriage return, as `lines` does with a `\r\n` terminator. */
  function StripCr(l: string): string {
    if |l| > 0 && l[|l| - 1] == '\r' then l[..|l| - 1] else l
  }

  /**
   * `s.lines()`: the pieces between `\n` terminators, each with a `\r`
   * before its `\n` removed; a final line without terminator is kept as it
   * is, and no empty line follows a final `\n`.
   */
  function Lines(s: string): (r: seq<string>)
    ensures forall k :: 0 <= k < |r| ==> '\n' !in r[k]
    ensures s == [] <==> r == []
    decreases |s|
  {
    if s == [] then []
    else
      var n := SkipWhile(s, c => c != '\n', 0);
      if n == |s| then [s] else [StripCr(s[..n])] + Lines(s[n + 1..])
  }

  /** Each line followed by `\n`: text whose `lines()` are `ls`. */
  function Unlines(ls: seq<string>): string
    decreases |ls|
  {
    if ls == [] then [] else ls[0] + "\n" + Unlines(ls[1..])
  }

  /** Lines without `\n` and not ending in `\r` come back from `lines()` unchanged, blank lines included. */
  lemma {:induction false} LinesOfUnlines(ls: seq<string>)
    requires forall k :: 0 <= k < |ls| ==> '\n' !in ls[k]
    requires forall k :: 0 <= k < |ls| ==> ls[k] == [] || ls[k][|ls[k]| - 1] != '\r'
    ensures Lines(Unlines(ls)) == ls
    decreases |ls|
  {
    if ls != [] {
      var s := Unlines(ls);
      var l := ls[0];
      var rest := Unlines(ls[1..]);
      assert s == l + "\n" + rest;
      assert s[|l|] == '\n';
      SkipWhileAt(s, c => c != '\n', 0, |l|);
      assert s[..|l|] == l;
      assert s[|l| + 1..] == rest;
      LinesOfUnlines(ls[1..]);
    }
  }

  /** `parts.join(sep)` */
  function Join(parts: seq<string>, sep: string): string
    decreases |parts|
  {
    if parts == [] then []
    else if |parts| == 1 then parts[0]
    else parts[0] + sep + Join(parts[1..], sep)
  }
}
