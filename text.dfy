/** The string operations of Python that the contact book relies on, on `seq<char>`:
    `str.strip`, `str.split(maxsplit=1)`, `str.lower`, the `in` substring test,
    `str.isdigit` with `int`, `" ".join` and `re.findall(r"\w+", ...)`. */
module Text {

  /** The characters Python's `str.isspace` accepts, which `strip` and `split` remove. */
  predicate IsSpace(c: char) {
    || ('\U{9}' <= c <= '\U{D}')      // tab, line feed, vertical tab, form feed, carriage return
    || ('\U{1C}' <= c <= '\U{20}')    // the four separators and the space
    || c == '\U{85}' || c == '\U{A0}' || c == '\U{1680}'
    || ('\U{2000}' <= c <= '\U{200A}')
    || c == '\U{2028}' || c == '\U{2029}' || c == '\U{202F}' || c == '\U{205F}' || c == '\U{3000}'
  }

  /** A string with no whitespace at either end, as `strip` leaves it. */
  predicate Stripped(s: string) {
    s == [] || (!IsSpace(s[0]) && !IsSpace(s[|s| - 1]))
  }

  predicate AllSpace(s: string) {
    forall i :: 0 <= i < |s| ==> IsSpace(s[i])
  }

  function TrimLeft(s: string): (r: string)
    ensures |r| <= |s| && r == s[|s| - |r|..]
    ensures AllSpace(s[..|s| - |r|])
    ensures r == [] || !IsSpace(r[0])
  {
    if s != [] && IsSpace(s[0]) then TrimLeft(s[1..]) else s
  }

  function TrimRight(s: string): (r: string)
    ensures |r| <= |s| && r == s[..|r|]
    ensures AllSpace(s[|r|..])
    ensures r == [] || !IsSpace(r[|r| - 1])
  {
    if s != [] && IsSpace(s[|s| - 1]) then
      var front := s[..|s| - 1];
      var r := TrimRight(front);
      assert s[..|r|] == front[..|r|];
      assert s[|r|..] == front[|r|..] + [s[|s| - 1]];
      r
    else s
  }

  /** Python's `s.strip()`: the whitespace at both ends removed. */
  function Strip(s: string): (r: string)
    ensures Stripped(r)
    ensures r == [] <==> AllSpace(s)
  {
    var t := TrimLeft(s);
    var r := TrimRight(t);
    TrimLeftEmpty(s);
    assert r != [] ==> !IsSpace(r[0]) by {
      if r != [] { assert r[0] == t[0]; }
    }
    assert t[0..] == t;
    r
  }

  lemma TrimLeftEmpty(s: string)
    ensures TrimLeft(s) == [] <==> AllSpace(s)
  {
    var t := TrimLeft(s);
    if t != [] { assert t[0] == s[|s| - |t|]; }
    assert s[..|s|] == s;
  }

  lemma StripKeepsStripped(s: string)
    requires Stripped(s)
    ensures Strip(s) == s
  {
  }

  /** Python's `s.split(maxsplit=1)`: the first whitespace-delimited word and, when
      anything follows it, the rest of the string after the whitespace run. */
  function SplitOnce(s: string): (parts: seq<string>)
    ensures |parts| <= 2
    ensures parts == [] <==> AllSpace(s)
    ensures |parts| >= 1 ==> parts[0] != [] && forall i :: 0 <= i < |parts[0]| ==> !IsSpace(parts[0][i])
    ensures |parts| == 2 ==> parts[1] != [] && !IsSpace(parts[1][0])
  {
    var t := TrimLeft(s);
    TrimLeftEmpty(s);
    if t == [] then []
    else
      var n := SpanNonSpace(t);
      var word := t[..n];
      assert n > 0 && word[0] == t[0];
      assert forall i :: 0 <= i < |word| ==> !IsSpace(word[i]);
      var rest := TrimLeft(t[n..]);
      var parts := if rest == [] then [word] else [word, rest];
      assert parts[0] == word;
      parts
  }

  /** The length of the longest prefix of `s` with no whitespace in it. */
  function SpanNonSpace(s: string): (n: nat)
    ensures n <= |s|
    ensures forall i :: 0 <= i < n ==> !IsSpace(s[i])
    ensures n < |s| ==> IsSpace(s[n])
  {
    if s == [] || IsSpace(s[0]) then 0 else 1 + SpanNonSpace(s[1..])
  }

  /** The case mapping of `str.lower` on ASCII and on the Russian and Ukrainian
      letters of the basic Cyrillic block. */
  function LowerChar(c: char): char {
    if 'A' <= c <= 'Z' then (c as int + 32) as char
    else if '\U{410}' <= c <= '\U{42F}' then (c as int + 0x20) as char
    else if '\U{400}' <= c <= '\U{40F}' then (c as int + 0x50) as char
    else if c == '\U{490}' then '\U{491}'
    else c
  }

  /** Python's `s.lower()`, character by character. */
  function Lower(s: string): (r: string)
    ensures |r| == |s|
    ensures forall i :: 0 <= i < |s| ==> r[i] == LowerChar(s[i])
  {
    if s == [] then [] else [LowerChar(s[0])] + Lower(s[1..])
  }

  /** A lowered string is its own lower case: `k.lower() == k` for every stored key. */
  lemma LowerIdempotent(s: string)
    ensures Lower(Lower(s)) == Lower(s)
  {
    assert forall i :: 0 <= i < |s| ==> LowerChar(LowerChar(s[i])) == LowerChar(s[i]);
  }

  lemma LowerConcat(a: string, b: string)
    ensures Lower(a + b) == Lower(a) + Lower(b)
  {
    assert forall i :: 0 <= i < |a + b| ==> Lower(a + b)[i] == (Lower(a) + Lower(b))[i];
  }

  /** Lowering changes no character into or out of whitespace, so it keeps a
      stripped string stripped. */
  lemma LowerKeepsStripped(s: string)
    requires Stripped(s)
    ensures Stripped(Lower(s))
  {
  }

  /** Python's substring test `needle in hay`; the empty string is in every string. */
  predicate Contains(hay: string, needle: string) {
    exists i | 0 <= i <= |hay| :: OccursAt(hay, needle, i)
  }

  /** `needle` stands in `hay` from index `i` on. */
  predicate OccursAt(hay: string, needle: string, i: int) {
    0 <= i <= |hay| - |needle| && hay[i..i + |needle|] == needle
  }

  lemma ContainsSelf(s: string)
    ensures Contains(s, s)
  {
    assert OccursAt(s, s, 0);
  }

  /** A substring of `a` is a substring of `a + b` and of `b + a`. */
  lemma ContainsInConcat(a: string, b: string, w: string)
    requires Contains(a, w)
    ensures Contains(a + b, w) && Contains(b + a, w)
  {
    var i :| 0 <= i <= |a| && OccursAt(a, w, i);
    assert OccursAt(a + b, w, i) by { assert (a + b)[i..i + |w|] == a[i..i + |w|]; }
    assert OccursAt(b + a, w, |b| + i) by { assert (b + a)[|b| + i..|b| + i + |w|] == a[i..i + |w|]; }
  }

  /** A character that `\w` matches: ASCII letters and digits, the underscore, and
      the letters of the basic Cyrillic block. */
  predicate IsWordChar(c: char) {
    || ('a' <= c <= 'z') || ('A' <= c <= 'Z') || ('0' <= c <= '9') || c == '_'
    || ('\U{400}' <= c <= '\U{481}') || ('\U{48A}' <= c <= '\U{4FF}')
  }

  /** The length of the run of word characters that starts `s`. */
  function WordRun(s: string): (n: nat)
    ensures n <= |s|
    ensures forall i :: 0 <= i < n ==> IsWordChar(s[i])
    ensures n < |s| ==> !IsWordChar(s[n])
  {
    if s == [] || !IsWordChar(s[0]) then 0 else 1 + WordRun(s[1..])
  }

  /** Python's `re.findall(r"\w+", s)`: the maximal runs of word characters, left to right. */
  function WordTokens(s: string): (ts: seq<string>)
    ensures forall t :: t in ts ==> t != [] && Contains(s, t)
    ensures forall t :: t in ts ==> forall i :: 0 <= i < |t| ==> IsWordChar(t[i])
    decreases |s|
  {
    if s == [] then []
    else if !IsWordChar(s[0]) then
      var ts := WordTokens(s[1..]);
      SuffixTokens(s, 1, ts);
      ts
    else
      var n := WordRun(s);
      var ts := WordTokens(s[n..]);
      assert Contains(s, s[..n]) by { assert OccursAt(s, s[..n], 0); }
      SuffixTokens(s, n, ts);
      [s[..n]] + ts
  }

  /** What is a substring of a suffix of `s` is a substring of `s`. */
  lemma SuffixTokens(s: string, k: nat, ts: seq<string>)
    requires k <= |s|
    requires forall t :: t in ts ==> Contains(s[k..], t)
    ensures forall t :: t in ts ==> Contains(s, t)
  {
    assert s[..k] + s[k..] == s;
    forall t | t in ts ensures Contains(s, t) { ContainsInConcat(s[k..], s[..k], t); }
  }

  lemma {:induction false} WordRunStopsAt(a: string, c: char, b: string)
    requires !IsWordChar(c)
    ensures WordRun(a + [c] + b) == WordRun(a)
    decreases |a|
  {
    if a != [] && IsWordChar(a[0]) {
      assert (a + [c] + b)[1..] == a[1..] + [c] + b;
      WordRunStopsAt(a[1..], c, b);
    }
  }

  /** A non-word character between two strings separates their words:
      `findall(a + c + b) == findall(a) + findall(b)`. */
  lemma {:induction false} WordTokensSplit(a: string, c: char, b: string)
    requires !IsWordChar(c)
    ensures WordTokens(a + [c] + b) == WordTokens(a) + WordTokens(b)
    decreases |a|
  {
    var s := a + [c] + b;
    if a == [] {
      assert s[1..] == b;
    } else if !IsWordChar(a[0]) {
      assert s[1..] == a[1..] + [c] + b;
      WordTokensSplit(a[1..], c, b);
    } else {
      WordRunStopsAt(a, c, b);
      var n := WordRun(a);
      assert s[..n] == a[..n];
      assert s[n..] == a[n..] + [c] + b;
      WordTokensSplit(a[n..], c, b);
    }
  }

  predicate IsDigitChar(c: char) {
    '0' <= c <= '9'
  }

  /** Python's `s.isdigit()` on ASCII: non-empty and made of decimal digits only. */
  predicate IsDigits(s: string) {
    |s| > 0 && forall i :: 0 <= i < |s| ==> IsDigitChar(s[i])
  }

  /** Python's `int(s)` on a string of decimal digits (leading zeros allowed). */
  function DecimalValue(s: string): (v: nat)
    requires forall i :: 0 <= i < |s| ==> IsDigitChar(s[i])
  {
    if s == [] then 0
    else
      assert IsDigitChar(s[|s| - 1]);
      10 * DecimalValue(s[..|s| - 1]) + (s[|s| - 1] as int - '0' as int)
  }

  /** Python's `" ".join(ws)`. */
  function JoinWithSpace(ws: seq<string>): (r: string)
    ensures forall w :: w in ws ==> Contains(r, w)
  {
    if ws == [] then []
    else if |ws| == 1 then
      ContainsSelf(ws[0]);
      ws[0]
    else
      var rest := JoinWithSpace(ws[1..]);
      var r := ws[0] + " " + rest;
      assert Contains(r, ws[0]) by {
        ContainsSelf(ws[0]);
        ContainsInConcat(ws[0], " " + rest, ws[0]);
        assert ws[0] + (" " + rest) == r;
      }
      assert forall w :: w in ws[1..] ==> Contains(r, w) by {
        forall w | w in ws[1..] ensures Contains(r, w) {
          ContainsInConcat(rest, ws[0] + " ", w);
        }
      }
      assert ws == [ws[0]] + ws[1..];
      r
  }
}
