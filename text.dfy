/** Text helpers used across the monitor: Python's notion of whitespace,
    `strip`, `normalize_whitespace`, `truncate`, lower-casing and
    substring tests. */
module Text {
  import opened Common

  /** Python's `str.isspace` characters; also what `\s` matches in a `str`
      regular expression and what a bare `str.strip()` removes. */
  const Whitespace: set<char> := {
    ' ', '\t', '\n', '\U{0B}', '\U{0C}', '\r', '\U{1C}', '\U{1D}', '\U{1E}', '\U{1F}',
    '\U{85}', '\U{A0}', '\U{1680}', '\U{2000}', '\U{2001}', '\U{2002}', '\U{2003}',
    '\U{2004}', '\U{2005}', '\U{2006}', '\U{2007}', '\U{2008}', '\U{2009}', '\U{200A}',
    '\U{2028}', '\U{2029}', '\U{202F}', '\U{205F}', '\U{3000}'}

  /** The characters at which `str.splitlines` ends a line. */
  const LineBreaks: set<char> := {
    '\n', '\U{0B}', '\U{0C}', '\r', '\U{1C}', '\U{1D}', '\U{1E}', '\U{85}', '\U{2028}', '\U{2029}'}

  predicate IsSpace(c: char) {
    c in Whitespace
  }

  predicate IsDigit(c: char) {
    '0' <= c <= '9'
  }

  function DigitValue(c: char): (d: nat)
    requires IsDigit(c)
    ensures d < 10
  {
    c as int - '0' as int
  }

  function DigitChar(d: nat): (c: char)
    requires d < 10
    ensures IsDigit(c) && DigitValue(c) == d
  {
    ('0' as int + d) as char
  }

  // ---------------------------------------------------------------------
  // strip / lstrip, for an arbitrary set of stripped characters

  /** The first index at or after `i` whose character is not in `drop`. */
  function SkipForward(s: string, drop: set<char>, i: nat): (a: nat)
    requires i <= |s|
    ensures i <= a <= |s|
    ensures forall k :: i <= k < a ==> s[k] in drop
    ensures a == |s| || s[a] !in drop
    decreases |s| - i
  {
    if i < |s| && s[i] in drop then SkipForward(s, drop, i + 1) else i
  }

  /** The last end index at or before `j` (and not before `lo`) whose
      preceding character is not in `drop`. */
  function SkipBackward(s: string, drop: set<char>, lo: nat, j: nat): (b: nat)
    requires lo <= j <= |s|
    ensures lo <= b <= j
    ensures forall k :: b <= k < j ==> s[k] in drop
    ensures b == lo || s[b - 1] !in drop
    decreases j - lo
  {
    if lo < j && s[j - 1] in drop then SkipBackward(s, drop, lo, j - 1) else j
  }

  /** Where the slice kept by `StripBy` starts and ends. */
  function StripStart(s: string, drop: set<char>): (a: nat)
    ensures a <= |s|
  {
    SkipForward(s, drop, 0)
  }

  function StripEnd(s: string, drop: set<char>): (b: nat)
    ensures StripStart(s, drop) <= b <= |s|
  {
    SkipBackward(s, drop, StripStart(s, drop), |s|)
  }

  /** `s.strip(chars)` with `drop` the set of stripped characters: the
      longest middle slice of `s` that neither starts nor ends with a
      stripped character. */
  function StripBy(s: string, drop: set<char>): (r: string)
    ensures r == s[StripStart(s, drop)..StripEnd(s, drop)]
    ensures r == [] || (r[0] !in drop && r[|r| - 1] !in drop)
    ensures forall i :: 0 <= i < StripStart(s, drop) ==> s[i] in drop
    ensures forall i :: StripEnd(s, drop) <= i < |s| ==> s[i] in drop
    ensures (s == [] || (s[0] !in drop && s[|s| - 1] !in drop)) ==> r == s
  {
    s[StripStart(s, drop)..StripEnd(s, drop)]
  }

  /** `s.lstrip()` */
  function TrimStart(s: string): (r: string)
    ensures r == s[StripStart(s, Whitespace)..]
    ensures r == [] || !IsSpace(r[0])
    ensures forall i :: 0 <= i < StripStart(s, Whitespace) ==> IsSpace(s[i])
    ensures s != [] && IsSpace(s[0]) ==> |r| < |s|
  {
    s[StripStart(s, Whitespace)..]
  }

  /** `s.strip()` */
  function Strip(s: string): (r: string)
    ensures r == s[StripStart(s, Whitespace)..StripEnd(s, Whitespace)]
    ensures r == [] || (!IsSpace(r[0]) && !IsSpace(r[|r| - 1]))
    ensures forall i :: 0 <= i < StripStart(s, Whitespace) ==> IsSpace(s[i])
    ensures forall i :: StripEnd(s, Whitespace) <= i < |s| ==> IsSpace(s[i])
    ensures (s == [] || (!IsSpace(s[0]) && !IsSpace(s[|s| - 1]))) ==> r == s
  {
    StripBy(s, Whitespace)
  }

  /** `SkipForward` stops at the first character not in `drop`. */
  lemma SkipForwardAt(s: string, drop: set<char>, i: nat, a: nat)
    requires i <= a <= |s|
    requires forall k :: i <= k < a ==> s[k] in drop
    requires a == |s| || s[a] !in drop
    ensures SkipForward(s, drop, i) == a
  {
  }

  /** `SkipBackward` stops after the last character not in `drop`. */
  lemma SkipBackwardAt(s: string, drop: set<char>, lo: nat, j: nat, b: nat)
    requires lo <= b <= j <= |s|
    requires forall k :: b <= k < j ==> s[k] in drop
    requires b == lo || s[b - 1] !in drop
    ensures SkipBackward(s, drop, lo, j) == b
  {
  }

  /** The slice `StripBy` keeps is the only one bounded by characters in
      `drop` on the outside and by characters outside `drop` at its ends. */
  lemma StripByAt(s: string, drop: set<char>, a: nat, b: nat)
    requires a <= b <= |s|
    requires forall k :: 0 <= k < a ==> s[k] in drop
    requires forall k :: b <= k < |s| ==> s[k] in drop
    requires a < b ==> s[a] !in drop && s[b - 1] !in drop
    ensures StripBy(s, drop) == s[a..b]
  {
    if a < b {
      SkipForwardAt(s, drop, 0, a);
      SkipBackwardAt(s, drop, a, |s|, a + b - a);
    } else {
      SkipForwardAt(s, drop, 0, |s|);
      SkipBackwardAt(s, drop, |s|, |s|, |s|);
    }
  }

  /** Characters in `drop` around a text never change what `StripBy`
      keeps of it. */
  lemma StripByPadded(pre: string, value: string, post: string, drop: set<char>)
    requires forall k :: 0 <= k < |pre| ==> pre[k] in drop
    requires forall k :: 0 <= k < |post| ==> post[k] in drop
    ensures StripBy(pre + value + post, drop) == StripBy(value, drop)
  {
    var s := pre + value + post;
    var a0, b0 := StripStart(value, drop), StripEnd(value, drop);
    var a, b := |pre| + a0, |pre| + b0;
    PaddedAt(pre, value, post);
    assert forall k :: 0 <= k < a ==> s[k] in drop by {
      forall k | 0 <= k < a ensures s[k] in drop {
        if k >= |pre| {
          assert s[k] == value[k - |pre|];
        }
      }
    }
    assert forall k :: b <= k < |s| ==> s[k] in drop by {
      forall k | b <= k < |s| ensures s[k] in drop {
        if k < |pre| + |value| {
          assert s[k] == value[k - |pre|];
        }
      }
    }
    if a0 < b0 {
      assert s[a] == value[a0] && s[b - 1] == value[b0 - 1];
      StripByAt(s, drop, a, b);
      PaddedSlice(pre, value, post, a0, b0);
    } else {
      StripByAt(s, drop, a, b);
    }
  }

  lemma PaddedAt(pre: string, value: string, post: string)
    ensures forall k :: 0 <= k < |pre| ==> (pre + value + post)[k] == pre[k]
    ensures forall k :: |pre| <= k < |pre| + |value| ==> (pre + value + post)[k] == value[k - |pre|]
    ensures forall k :: |pre| + |value| <= k < |pre| + |value| + |post| ==>
              (pre + value + post)[k] == post[k - |pre| - |value|]
  {
  }

  lemma PaddedSlice(pre: string, value: string, post: string, a: nat, b: nat)
    requires a <= b <= |value|
    ensures (pre + value + post)[|pre| + a..|pre| + b] == value[a..b]
  {
    var s := pre + value + post;
    assert s[|pre|..|pre| + |value|] == value;
    assert s[|pre| + a..|pre| + b] == s[|pre|..|pre| + |value|][a..b];
  }

  /** Whitespace around a text never changes its `strip()`. */
  lemma StripPadded(pre: string, value: string, post: string)
    requires forall k :: 0 <= k < |pre| ==> IsSpace(pre[k])
    requires forall k :: 0 <= k < |post| ==> IsSpace(post[k])
    ensures Strip(pre + value + post) == Strip(value)
  {
    StripByPadded(pre, value, post, Whitespace);
  }

  // ---------------------------------------------------------------------
  // normalize_whitespace: re.sub(r"\s+", " ", text).strip()

  /** Every maximal run of whitespace in `s` replaced by one plain space. */
  function Collapse(s: string): string
    decreases |s|
  {
    if s == [] then []
    else if IsSpace(s[0]) then " " + Collapse(TrimStart(s))
    else [s[0]] + Collapse(s[1..])
  }

  function NormalizeWhitespace(text: string): string {
    Strip(Collapse(text))
  }

  /** Whitespace occurs only as single plain spaces. */
  predicate Collapsed(t: string) {
    && (forall i :: 0 <= i < |t| && IsSpace(t[i]) ==> t[i] == ' ')
    && (forall i :: 0 <= i < |t| - 1 && IsSpace(t[i]) ==> !IsSpace(t[i + 1]))
  }

  /** The shape of every result of `NormalizeWhitespace`. */
  predicate IsNormalized(t: string) {
    Collapsed(t) && (t == [] || (!IsSpace(t[0]) && !IsSpace(t[|t| - 1])))
  }

  lemma {:induction false} CollapseShape(s: string)
    ensures Collapsed(Collapse(s))
    ensures |Collapse(s)| == 0 <==> |s| == 0
    ensures s != [] ==> Collapse(s)[0] == if IsSpace(s[0]) then ' ' else s[0]
    decreases |s|
  {
    if s == [] {
    } else if IsSpace(s[0]) {
      var t := TrimStart(s);
      CollapseShape(t);
      var c := Collapse(t);
      assert Collapse(s) == " " + c;
      assert c != [] ==> !IsSpace(c[0]);
    } else {
      CollapseShape(s[1..]);
      assert Collapse(s) == [s[0]] + Collapse(s[1..]);
    }
  }

  lemma CollapsedSlice(t: string, a: nat, b: nat)
    requires Collapsed(t) && a <= b <= |t|
    ensures Collapsed(t[a..b])
  {
    var u := t[a..b];
    assert forall i :: 0 <= i < |u| ==> u[i] == t[a + i];
  }

  /** Normalising always yields the normal shape: no leading or trailing
      whitespace and whitespace only as single plain spaces. */
  lemma NormalizeIsNormalized(text: string)
    ensures IsNormalized(NormalizeWhitespace(text))
  {
    var c := Collapse(text);
    CollapseShape(text);
    CollapsedSlice(c, StripStart(c, Whitespace), StripEnd(c, Whitespace));
  }

  lemma {:induction false} CollapseFixesCollapsed(t: string)
    requires Collapsed(t)
    ensures Collapse(t) == t
    decreases |t|
  {
    if t == [] {
    } else if IsSpace(t[0]) {
      assert t[0] == ' ';
      assert TrimStart(t) == t[1..] by {
        assert |t| > 1 ==> !IsSpace(t[1]);
        assert StripStart(t, Whitespace) == SkipForward(t, Whitespace, 1);
      }
      CollapsedSlice(t, 1, |t|);
      CollapseFixesCollapsed(t[1..]);
    } else {
      CollapsedSlice(t, 1, |t|);
      CollapseFixesCollapsed(t[1..]);
    }
  }

  /** Text already in normal shape is left alone. */
  lemma NormalizeFixesNormalized(t: string)
    requires IsNormalized(t)
    ensures NormalizeWhitespace(t) == t
  {
    CollapseFixesCollapsed(t);
  }

  /** Normalising twice is normalising once. */
  lemma NormalizeIdempotent(text: string)
    ensures NormalizeWhitespace(NormalizeWhitespace(text)) == NormalizeWhitespace(text)
  {
    NormalizeIsNormalized(text);
    NormalizeFixesNormalized(NormalizeWhitespace(text));
  }

  // ---------------------------------------------------------------------
  // The visible (non-whitespace) characters survive normalisation

  function Visible(s: string): string {
    if s == [] then []
    else if IsSpace(s[0]) then Visible(s[1..])
    else [s[0]] + Visible(s[1..])
  }

  lemma {:induction false} VisibleAppend(a: string, b: string)
    ensures Visible(a + b) == Visible(a) + Visible(b)
    decreases |a|
  {
    if a != [] {
      AppendTail(a, b);
      VisibleAppend(a[1..], b);
    } else {
      AppendEmpty(b);
    }
  }

  lemma {:induction false} VisibleOfSpaces(s: string)
    requires forall i :: 0 <= i < |s| ==> IsSpace(s[i])
    ensures Visible(s) == []
    decreases |s|
  {
    if s != [] {
      VisibleOfSpaces(s[1..]);
    }
  }

  lemma VisibleStrip(s: string)
    ensures Visible(Strip(s)) == Visible(s)
  {
    VisibleMiddle(s, StripStart(s, Whitespace), StripEnd(s, Whitespace));
  }

  /** Cutting whitespace off both ends of a string keeps its visible part. */
  lemma VisibleMiddle(s: string, a: nat, b: nat)
    requires a <= b <= |s|
    requires forall i :: 0 <= i < a ==> IsSpace(s[i])
    requires forall i :: b <= i < |s| ==> IsSpace(s[i])
    ensures Visible(s[a..b]) == Visible(s)
  {
    VisibleDropTail(s, b);
    VisibleDropHead(s, a, b);
  }

  lemma VisibleDropTail(s: string, b: nat)
    requires b <= |s|
    requires forall i :: b <= i < |s| ==> IsSpace(s[i])
    ensures Visible(s[..b]) == Visible(s)
  {
    VisibleSplit(s, b);
    SliceFromEnd(s, b);
    SpacesAreInvisible(s, b, |s|);
    AppendNothing(Visible(s[..b]));
  }

  lemma VisibleDropHead(s: string, a: nat, b: nat)
    requires a <= b <= |s|
    requires forall i :: 0 <= i < a ==> IsSpace(s[i])
    ensures Visible(s[a..b]) == Visible(s[..b])
  {
    VisibleSplit(s[..b], a);
    SliceOfPrefix(s, a, b);
    SpacesAreInvisible(s, 0, a);
    AppendEmpty(Visible(s[a..b]));
  }

  lemma VisibleSplit(s: string, a: nat)
    requires a <= |s|
    ensures Visible(s) == Visible(s[..a]) + Visible(s[a..])
  {
    TakeDrop(s, a);
    VisibleAppend(s[..a], s[a..]);
  }

  lemma SpacesAreInvisible(s: string, i: nat, j: nat)
    requires i <= j <= |s|
    requires forall k :: i <= k < j ==> IsSpace(s[k])
    ensures Visible(s[i..j]) == []
  {
    var part := s[i..j];
    forall k | 0 <= k < |part| ensures IsSpace(part[k]) {
      assert part[k] == s[i + k];
    }
    VisibleOfSpaces(part);
  }

  lemma {:induction false} VisibleCollapse(s: string)
    ensures Visible(Collapse(s)) == Visible(s)
    decreases |s|
  {
    if s == [] {
    } else if IsSpace(s[0]) {
      var t := TrimStart(s);
      var a := StripStart(s, Whitespace);
      VisibleCollapse(t);
      VisibleSplit(s, a);
      SpacesAreInvisible(s, 0, a);
      SliceFromStart(s, a);
      VisibleAppend(" ", Collapse(t));
    } else {
      VisibleCollapse(s[1..]);
      VisibleAppend([s[0]], Collapse(s[1..]));
    }
  }

  // Sequence identities, each proved where no string function can
  // distract the solver.

  lemma TakeDrop<T>(s: seq<T>, a: nat)
    requires a <= |s|
    ensures s[..a] + s[a..] == s
  {
  }

  lemma AppendTail<T>(a: seq<T>, b: seq<T>)
    requires a != []
    ensures (a + b)[0] == a[0] && (a + b)[1..] == a[1..] + b
  {
  }

  lemma AppendEmpty<T>(b: seq<T>)
    ensures [] + b == b
  {
  }

  lemma SliceFromEnd<T>(s: seq<T>, b: nat)
    requires b <= |s|
    ensures s[b..] == s[b..|s|]
  {
  }

  lemma SliceOfPrefix<T>(s: seq<T>, a: nat, b: nat)
    requires a <= b <= |s|
    ensures s[..b][..a] == s[0..a] && s[..b][a..] == s[a..b]
  {
  }

  lemma AppendNothing<T>(a: seq<T>)
    ensures a + [] == a
  {
  }

  lemma SliceFromStart<T>(s: seq<T>, a: nat)
    requires a <= |s|
    ensures s[..a] == s[0..a]
  {
  }

  /** Normalising never loses, adds or reorders a visible character. */
  lemma NormalizeKeepsVisible(text: string)
    ensures Visible(NormalizeWhitespace(text)) == Visible(text)
  {
    VisibleCollapse(text);
    VisibleStrip(Collapse(text));
  }

  // ---------------------------------------------------------------------
  // truncate(text, max_len)

  /** The ellipsis `truncate` appends to a shortened text. */
  const Ellipsis: char := '\U{2026}'

  /** `truncate`: normalise, keep the text when it fits, otherwise cut it so
      that, ellipsis included, it is `max_len` long (one character when
      `max_len` is 0). */
  function Truncate(text: string, maxLen: nat): (r: string)
    ensures |r| <= Max(maxLen, 1)
    ensures |NormalizeWhitespace(text)| <= maxLen ==> r == NormalizeWhitespace(text)
    ensures |NormalizeWhitespace(text)| > maxLen ==>
      && |r| == Max(maxLen, 1)
      && r[|r| - 1] == Ellipsis
      && r[..|r| - 1] == NormalizeWhitespace(text)[..|r| - 1]
  {
    var n := NormalizeWhitespace(text);
    if |n| <= maxLen then n
    else n[..Max(0, maxLen - 1)] + [Ellipsis]
  }

  // ---------------------------------------------------------------------
  // lower-casing and substring tests

  /** `str.lower` on one character, for every character whose lower case
      is an ASCII letter: A-Z and the Kelvin sign U+212A (whose lower case
      is `k`). Every other character is kept; its Python lower case is
      either itself or contains no ASCII letter that can start a match
      (U+0130 lowers to `i` followed by U+0307). */
  function LowerChar(c: char): char {
    if 'A' <= c <= 'Z' then (c as int + 32) as char
    else if c == '\U{212A}' then 'k'
    else c
  }

  /** `s.lower()`: no ASCII capital is left; each capital becomes its
      small letter, the Kelvin sign becomes `k`, and every other character
      is kept where it was. */
  function Lower(s: string): (r: string)
    ensures |r| == |s|
    ensures forall i :: 0 <= i < |r| ==> !('A' <= r[i] <= 'Z')
    ensures forall i :: 0 <= i < |s| && 'A' <= s[i] <= 'Z' ==> r[i] as int == s[i] as int + 32
    ensures forall i :: 0 <= i < |s| && s[i] == '\U{212A}' ==> r[i] == 'k'
    ensures forall i :: 0 <= i < |s| && !('A' <= s[i] <= 'Z') && s[i] != '\U{212A}' ==> r[i] == s[i]
  {
    seq(|s|, i requires 0 <= i < |s| => LowerChar(s[i]))
  }

  predicate OccursAt(s: string, sub: string, i: int) {
    0 <= i && i + |sub| <= |s| && s[i..i + |sub|] == sub
  }

  /** Python's `sub in s`. */
  predicate Contains(s: string, sub: string) {
    exists i | 0 <= i <= |s| - |sub| :: OccursAt(s, sub, i)
  }

  /** Python's `s.startswith(prefix)`. */
  predicate StartsWith(s: string, prefix: string) {
    |prefix| <= |s| && s[..|prefix|] == prefix
  }

  // ---------------------------------------------------------------------
  // str(int)

  predicate AllDigits(s: string) {
    forall k :: 0 <= k < |s| ==> IsDigit(s[k])
  }

  /** The number a string of decimal digits denotes, most significant
      digit first (leading zeros allowed, as `int()` allows them). */
  function DigitsValue(s: string): nat
    requires AllDigits(s)
    decreases |s|
  {
    if s == [] then 0 else DigitsValue(s[..|s| - 1]) * 10 + DigitValue(s[|s| - 1])
  }

  lemma ShortDigitsValue(s: string)
    requires AllDigits(s)
    ensures |s| == 1 ==> DigitsValue(s) == DigitValue(s[0])
    ensures |s| == 2 ==> DigitsValue(s) == DigitValue(s[0]) * 10 + DigitValue(s[1])
  {
    if |s| == 1 {
      assert s[..0] == [];
    } else if |s| == 2 {
      assert s[..1][..0] == [] && s[..1] == [s[0]];
    }
  }

  /** The decimal digits of `n`, without leading zeros. */
  function NatToString(n: nat): (r: string)
    ensures r != [] && AllDigits(r)
    ensures DigitsValue(r) == n
    ensures |r| > 1 ==> r[0] != '0'
    decreases n
  {
    if n < 10 then [DigitChar(n)]
    else
      var r := NatToString(n / 10) + [DigitChar(n % 10)];
      assert r[..|r| - 1] == NatToString(n / 10);
      r
  }

  /** Python's `str(i)` for an integer: a `-` before the digits of a
      negative number, then the digits of its magnitude. */
  function IntToString(i: int): (r: string)
    ensures r != []
    ensures i >= 0 ==> AllDigits(r) && DigitsValue(r) == i
    ensures i < 0 ==> r[0] == '-' && |r| >= 2 && AllDigits(r[1..]) && DigitsValue(r[1..]) == -i
  {
    if i < 0 then
      var r := "-" + NatToString(-i);
      assert r[1..] == NatToString(-i);
      r
    else NatToString(i)
  }
}
