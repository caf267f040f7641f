/** String helpers with the semantics of the Python `str` methods the
    collector uses, restricted to ASCII. */
module Strings {

  /** Python's `str.isspace` on ASCII: tab, newline, vertical tab, form
      feed, carriage return, the separators 0x1C-0x1F and space. */
  predicate IsSpace(c: char) {
    (9 <= c as int <= 13) || (28 <= c as int <= 32)
  }

  /** Python's `str.isalnum` on ASCII. */
  predicate IsAlnum(c: char) {
    ('a' <= c <= 'z') || ('A' <= c <= 'Z') || ('0' <= c <= '9')
  }

  function LowerChar(c: char): char {
    if 'A' <= c <= 'Z' then (c as int + 32) as char else c
  }

  /** Python's `str.lower` on ASCII. */
  function Lower(s: string): (r: string)
    ensures |r| == |s|
    ensures forall i {:trigger r[i]} :: 0 <= i < |s| ==> r[i] == LowerChar(s[i])
  {
    if s == [] then [] else [LowerChar(s[0])] + Lower(s[1..])
  }

  /** Number of leading whitespace characters. */
  function LeadingSpace(s: string): (n: nat)
    ensures n <= |s|
    ensures forall k {:trigger IsSpace(s[k])} :: 0 <= k < n ==> IsSpace(s[k])
    ensures n < |s| ==> !IsSpace(s[n])
  {
    if s == [] || !IsSpace(s[0]) then 0 else 1 + LeadingSpace(s[1..])
  }

  /** Number of trailing whitespace characters. */
  function TrailingSpace(s: string): (n: nat)
    ensures n <= |s|
    ensures forall k {:trigger IsSpace(s[k])} :: |s| - n <= k < |s| ==> IsSpace(s[k])
    ensures n < |s| ==> !IsSpace(s[|s| - 1 - n])
  {
    if s == [] || !IsSpace(s[|s| - 1]) then 0 else 1 + TrailingSpace(s[..|s| - 1])
  }

  /** Python's `str.strip()`: the infix left once the leading and the
      trailing whitespace are cut off. */
  function Strip(s: string): (r: string)
    ensures |r| <= |s|
    ensures r != [] ==> !IsSpace(r[0]) && !IsSpace(r[|r| - 1])
    ensures r == [] <==> forall k :: 0 <= k < |s| ==> IsSpace(s[k])
    ensures forall c :: c in r ==> c in s
  {
    var a := LeadingSpace(s);
    var t := s[a..];
    t[..|t| - TrailingSpace(t)]
  }

  /** Python's `s.startswith(p)`. */
  predicate StartsWith(s: string, p: string) {
    |p| <= |s| && s[..|p|] == p
  }

  /** Python's `sub in s` for strings. */
  predicate Contains(s: string, sub: string)
    decreases |s|
  {
    StartsWith(s, sub) || (s != [] && Contains(s[1..], sub))
  }

  /** Every character of a contained text occurs in the text. */
  lemma {:induction false} ContainsChar(s: string, sub: string, c: char)
    requires c in sub
    ensures Contains(s, sub) ==> c in s
    decreases |s|
  {
    if s != [] {
      ContainsChar(s[1..], sub, c);
    }
    if StartsWith(s, sub) {
      var k :| 0 <= k < |sub| && sub[k] == c;
      assert s[k] == s[..|sub|][k];
    }
  }

  /** A text whose head lacks the first character of `sub` contains `sub`
      only in its tail. */
  lemma {:induction false} ContainsAfter(a: string, b: string, sub: string)
    requires sub != [] && sub[0] !in a
    ensures Contains(a + b, sub) ==> Contains(b, sub)
    decreases |a|
  {
    if a == [] {
      assert a + b == b;
    } else {
      assert (a + b)[0] == a[0];
      assert (a + b)[1..] == a[1..] + b;
      ContainsAfter(a[1..], b, sub);
    }
  }

  /** When the first character `x` of `sub` occurs in `a + [x] + b` only at
      the marked place, and `b` does not go on as `sub` does, `sub` is not
      in the text. */
  lemma NotContainsAtOnlyHead(a: string, b: string, sub: string)
    requires |sub| >= 2 && sub[0] !in a && sub[0] !in b
    requires b == [] || b[0] != sub[1]
    ensures !Contains(a + [sub[0]] + b, sub)
  {
    var t := [sub[0]] + b;
    assert a + [sub[0]] + b == a + t;
    ContainsAfter(a, t, sub);
    assert t[1..] == b;
    ContainsChar(b, sub, sub[0]);
    if |sub| <= |t| {
      assert t[..|sub|][1] == b[0];
    }
  }

  /** A text contains itself wherever it stands. */
  lemma {:induction false} ContainsMiddle(a: string, sub: string, b: string)
    ensures Contains(a + sub + b, sub)
    decreases |a|
  {
    if a == [] {
      assert (a + sub + b)[..|sub|] == sub;
    } else {
      assert (a + sub + b)[1..] == a[1..] + sub + b;
      ContainsMiddle(a[1..], sub, b);
    }
  }

  /** Python's `s.replace(a, b)` for one-character `a` and `b`. */
  function ReplaceChar(s: string, a: char, b: char): (r: string)
    ensures |r| == |s|
    ensures forall i {:trigger r[i]} :: 0 <= i < |s| ==> r[i] == if s[i] == a then b else s[i]
  {
    if s == [] then [] else [if s[0] == a then b else s[0]] + ReplaceChar(s[1..], a, b)
  }

  /** Python's `s[:n]` for `n >= 0`. */
  function Prefix(s: string, n: nat): (r: string)
    ensures |r| <= n && |r| <= |s|
    ensures r == s[..|r|]
    ensures |s| <= n ==> r == s
    ensures |s| > n ==> |r| == n
  {
    if |s| <= n then s else s[..n]
  }

  /** Python's `s.split(sep)` for a one-character separator: every piece,
      empty ones included, so the result is never empty. */
  function SplitOn(s: string, sep: char): (r: seq<string>)
    ensures |r| >= 1
    ensures forall i :: 0 <= i < |r| ==> sep !in r[i]
    ensures sep !in s ==> r == [s]
  {
    if s == [] then [[]]
    else
      var rest := SplitOn(s[1..], sep);
      if s[0] == sep then [[]] + rest
      else
        assert sep !in s ==> [s[0]] + s[1..] == s;
        [[s[0]] + rest[0]] + rest[1..]
  }

  /** `sep.join(pieces)`. */
  function JoinWith(pieces: seq<string>, sep: char): string {
    if pieces == [] then []
    else if |pieces| == 1 then pieces[0]
    else pieces[0] + [sep] + JoinWith(pieces[1..], sep)
  }

  /** `''.join(pieces)`. */
  function Concat(pieces: seq<string>): string {
    if pieces == [] then [] else pieces[0] + Concat(pieces[1..])
  }

  /** Length of the run of non-whitespace characters that starts `s`. */
  function TokenLength(s: string): (n: nat)
    ensures n <= |s|
    ensures forall k {:trigger IsSpace(s[k])} :: 0 <= k < n ==> !IsSpace(s[k])
    ensures n < |s| ==> IsSpace(s[n])
  {
    if s == [] || IsSpace(s[0]) then 0 else 1 + TokenLength(s[1..])
  }

  /** Python's `s.split()` with no separator: the maximal runs of
      non-whitespace characters, in order; never an empty token. */
  function Tokens(s: string): (r: seq<string>)
    ensures forall i :: 0 <= i < |r| ==> r[i] != [] && forall c :: c in r[i] ==> !IsSpace(c) && c in s
    decreases |s|
  {
    if s == [] then []
    else if IsSpace(s[0]) then Tokens(s[1..])
    else
      var n := TokenLength(s);
      [s[..n]] + Tokens(s[n..])
  }

  /** Python's `<=` on strings: lexicographic order by code point. */
  predicate LexLe(a: string, b: string)
    decreases |a|
  {
    a == [] || (b != [] && (a[0] < b[0] || (a[0] == b[0] && LexLe(a[1..], b[1..]))))
  }

  lemma {:induction false} LexLeReflexive(a: string)
    ensures LexLe(a, a)
    decreases |a|
  {
    if a != [] { LexLeReflexive(a[1..]); }
  }

  lemma {:induction false} LexLeTotal(a: string, b: string)
    ensures LexLe(a, b) || LexLe(b, a)
    decreases |a|
  {
    if a != [] && b != [] && a[0] == b[0] { LexLeTotal(a[1..], b[1..]); }
  }

  lemma {:induction false} LexLeTransitive(a: string, b: string, c: string)
    requires LexLe(a, b) && LexLe(b, c)
    ensures LexLe(a, c)
    decreases |a|
  {
    if a != [] && a[0] == b[0] && b[0] == c[0] { LexLeTransitive(a[1..], b[1..], c[1..]); }
  }

  /** Python's `s.endswith(p)`. */
  predicate EndsWith(s: string, p: string) {
    |p| <= |s| && s[|s| - |p|..] == p
  }

  /** Python's `s.replace(a, rep)` for a one-character `a`. */
  function ReplaceCharWith(s: string, a: char, rep: string): (r: string)
    ensures a !in rep ==> a !in r
  {
    if s == [] then [] else (if s[0] == a then rep else [s[0]]) + ReplaceCharWith(s[1..], a, rep)
  }

  /** The placeholder `{name}` of a format template. */
  function Hole(name: string): string {
    "{" + name + "}"
  }

  /** Index of the first binding whose placeholder starts `s`, at or after
      `k`; `|bindings|` when there is none. */
  function FirstHole(s: string, bindings: seq<(string, string)>, k: nat): (i: nat)
    requires k <= |bindings|
    ensures k <= i <= |bindings|
    ensures i < |bindings| ==> StartsWith(s, Hole(bindings[i].0))
    ensures forall j :: k <= j < i ==> !StartsWith(s, Hole(bindings[j].0))
    decreases |bindings| - k
  {
    if k == |bindings| then k
    else if StartsWith(s, Hole(bindings[k].0)) then k
    else FirstHole(s, bindings, k + 1)
  }

  /** Python's `template.format(name=value, ...)` for templates whose only
      braces are placeholders of the given names: one left-to-right pass
      that replaces every `{name}` by its value and copies everything
      else, so a value is never itself rescanned. */
  function Format(s: string, bindings: seq<(string, string)>): string
    decreases |s|
  {
    if s == [] then []
    else
      var k := FirstHole(s, bindings, 0);
      if k < |bindings| then bindings[k].1 + Format(s[|bindings[k].0| + 2..], bindings)
      else [s[0]] + Format(s[1..], bindings)
  }

  /** A character other than `{` is copied. */
  lemma FormatChar(s: string, bindings: seq<(string, string)>)
    requires s != [] && s[0] != '{'
    ensures Format(s, bindings) == [s[0]] + Format(s[1..], bindings)
  {
    assert forall j :: 0 <= j < |bindings| ==> Hole(bindings[j].0)[0] == '{';
  }

  /** Text without braces is copied as it is. */
  lemma {:induction false} FormatPlain(a: string, rest: string, bindings: seq<(string, string)>)
    requires '{' !in a
    ensures Format(a + rest, bindings) == a + Format(rest, bindings)
    decreases |a|
  {
    if a != [] {
      var t, y := a[1..], Format(rest, bindings);
      FormatPlainStep(a, rest, bindings);
      FormatPlain(t, rest, bindings);
      ConcatHead(a, y);
    } else {
      assert a + rest == rest;
    }
  }

  lemma ConcatHead(a: string, y: string)
    requires a != []
    ensures [a[0]] + (a[1..] + y) == a + y
  {
    assert a == [a[0]] + a[1..];
  }

  lemma FormatPlainStep(a: string, rest: string, bindings: seq<(string, string)>)
    requires a != [] && a[0] != '{'
    ensures Format(a + rest, bindings) == [a[0]] + Format(a[1..] + rest, bindings)
  {
    var s := a + rest;
    assert s[0] == a[0] && s[1..] == a[1..] + rest;
    FormatChar(s, bindings);
  }

  /** A placeholder is replaced by the value of the first binding whose
      placeholder it starts with. */
  lemma FormatHole(name: string, rest: string, bindings: seq<(string, string)>, k: nat)
    requires k < |bindings| && bindings[k].0 == name
    requires forall j :: 0 <= j < k ==> !StartsWith(Hole(name) + rest, Hole(bindings[j].0))
    ensures Format(Hole(name) + rest, bindings) == bindings[k].1 + Format(rest, bindings)
  {
    var s := Hole(name) + rest;
    assert StartsWith(s, Hole(name));
    assert FirstHole(s, bindings, 0) == k;
    assert s[|name| + 2..] == rest;
  }

  /** Plain text, then the placeholder of binding `k`, then the rest. */
  lemma FormatPlainHole(pre: string, rest: string, bindings: seq<(string, string)>, k: nat)
    requires '{' !in pre && k < |bindings|
    requires forall j :: 0 <= j < k ==> !StartsWith(Hole(bindings[k].0) + rest, Hole(bindings[j].0))
    ensures Format(pre + Hole(bindings[k].0) + rest, bindings) == pre + bindings[k].1 + Format(rest, bindings)
  {
    var h := Hole(bindings[k].0) + rest;
    assert pre + Hole(bindings[k].0) + rest == pre + h;
    FormatPlain(pre, h, bindings);
    FormatHole(bindings[k].0, rest, bindings, k);
  }

  /** Plain text formats to itself. */
  lemma FormatPlainAll(s: string, bindings: seq<(string, string)>)
    requires '{' !in s
    ensures Format(s, bindings) == s
  {
    assert s == s + [];
    FormatPlain(s, [], bindings);
  }

  /** A placeholder does not start with that of a name of another initial. */
  lemma HoleNotOther(x: string, y: string, rest: string)
    requires x != [] && y != [] && x[0] != y[0]
    ensures !StartsWith(Hole(y) + rest, Hole(x))
  {
    assert (Hole(y) + rest)[1] == y[0] && Hole(x)[1] == x[0];
  }

  /** A template with one placeholder and no other brace. */
  lemma FormatOneHole(pre: string, x: string, post: string, v: string)
    requires '{' !in pre && '{' !in post
    ensures Format(pre + Hole(x) + post, [(x, v)]) == pre + v + post
  {
    FormatPlainHole(pre, post, [(x, v)], 0);
    FormatPlainAll(post, [(x, v)]);
  }

  /** The second placeholder of a two-placeholder template and what follows. */
  lemma FormatSecondHole(mid: string, x: string, y: string, post: string, vx: string, vy: string)
    requires '{' !in mid && '{' !in post
    requires x != [] && y != [] && x[0] != y[0]
    ensures Format(mid + Hole(y) + post, [(x, vx), (y, vy)]) == mid + vy + post
  {
    var b := [(x, vx), (y, vy)];
    HoleNotOther(x, y, post);
    FormatPlainHole(mid, post, b, 1);
    FormatPlainAll(post, b);
  }

  /** A template with two placeholders, whose names start differently, and
      no other brace. */
  lemma FormatTwoHoles(pre: string, x: string, mid: string, y: string, post: string, vx: string, vy: string)
    requires '{' !in pre && '{' !in mid && '{' !in post
    requires x != [] && y != [] && x[0] != y[0]
    ensures Format(pre + Hole(x) + mid + Hole(y) + post, [(x, vx), (y, vy)]) == pre + vx + mid + vy + post
  {
    var b := [(x, vx), (y, vy)];
    var tail := mid + Hole(y) + post;
    assert pre + Hole(x) + mid + Hole(y) + post == pre + Hole(x) + tail;
    FormatPlainHole(pre, tail, b, 0);
    FormatSecondHole(mid, x, y, post, vx, vy);
    assert pre + vx + (mid + vy + post) == pre + vx + mid + vy + post;
  }

  lemma {:induction false} ConcatSnoc(pieces: seq<string>, x: string)
    ensures Concat(pieces + [x]) == Concat(pieces) + x
  {
    if pieces == [] {
      assert [] + [x] == [x];
    } else {
      assert (pieces + [x])[1..] == pieces[1..] + [x];
      ConcatSnoc(pieces[1..], x);
    }
  }
}
