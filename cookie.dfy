/** The text clean-up `read_cookie_file` applies to the cookie file's
    contents: strip whitespace, then every double quote and then every
    single quote at either end, drop an optional `Cookie:` header name, and
    join the stripped lines. */
module Cookie {
  import opened Common
  import opened Text

  datatype CookieError =
    | EmptyFile     // nothing left after stripping whitespace and quotes
    | ParsedEmpty   // nothing left after joining the lines

  /** The header name a pasted cookie may start with, compared in lower case. */
  const Header: string := "cookie:"

  const DoubleQuote: set<char> := {'"'}
  const SingleQuote: set<char> := {'\''}

  predicate NoBreaks(s: string) {
    forall k :: 0 <= k < |s| ==> s[k] !in LineBreaks
  }

  /** The first index at or after `i` that holds a line break, or `|s|`. */
  function NextBreak(s: string, i: nat): (j: nat)
    requires i <= |s|
    ensures i <= j <= |s|
    ensures forall k :: i <= k < j ==> s[k] !in LineBreaks
    ensures j < |s| ==> s[j] in LineBreaks
    decreases |s| - i
  {
    if i == |s| || s[i] in LineBreaks then i else NextBreak(s, i + 1)
  }

  /** The pieces of `s` between line breaks. Unlike `str.splitlines` this
      also yields the empty piece between `\r` and `\n` and after a final
      break; every such piece strips to nothing and so adds nothing to
      `JoinStripped`. */
  function Lines(s: string): (r: seq<string>)
    ensures r != []
    ensures forall i :: 0 <= i < |r| ==> NoBreaks(r[i])
    ensures NoBreaks(s) ==> r == [s]
    decreases |s|
  {
    var j := NextBreak(s, 0);
    if j == |s| then [s] else [s[..j]] + Lines(s[j + 1..])
  }

  /** `s` without the elements in `drop`. */
  function Removed<T>(s: seq<T>, drop: set<T>): seq<T> {
    if s == [] then []
    else if s[0] in drop then Removed(s[1..], drop)
    else [s[0]] + Removed(s[1..], drop)
  }

  /** How many elements of `s` are in `drop`. */
  function CountIn<T>(s: seq<T>, drop: set<T>): nat {
    if s == [] then 0
    else (if s[0] in drop then 1 else 0) + CountIn(s[1..], drop)
  }

  function Concat(lines: seq<string>): string {
    if lines == [] then [] else lines[0] + Concat(lines[1..])
  }

  lemma {:induction false} RemovedAppend<T>(a: seq<T>, b: seq<T>, drop: set<T>)
    ensures Removed(a + b, drop) == Removed(a, drop) + Removed(b, drop)
    ensures CountIn(a + b, drop) == CountIn(a, drop) + CountIn(b, drop)
  {
    RemovedAppendSeq(a, b, drop);
    CountInAppend(a, b, drop);
  }

  lemma {:induction false} RemovedAppendSeq<T>(a: seq<T>, b: seq<T>, drop: set<T>)
    ensures Removed(a + b, drop) == Removed(a, drop) + Removed(b, drop)
  {
    if a != [] {
      AppendTail(a, b);
      RemovedAppendSeq(a[1..], b, drop);
      var head := if a[0] in drop then [] else [a[0]];
      calc {
        Removed(a + b, drop);
        head + Removed(a[1..] + b, drop);
        head + (Removed(a[1..], drop) + Removed(b, drop));
        (head + Removed(a[1..], drop)) + Removed(b, drop);
      }
    } else {
      AppendEmpty(b);
    }
  }

  lemma {:induction false} CountInAppend<T>(a: seq<T>, b: seq<T>, drop: set<T>)
    ensures CountIn(a + b, drop) == CountIn(a, drop) + CountIn(b, drop)
  {
    if a != [] {
      AppendTail(a, b);
      CountInAppend(a[1..], b, drop);
    } else {
      AppendEmpty(b);
    }
  }

  lemma {:induction false} RemovedNone<T>(s: seq<T>, drop: set<T>)
    requires forall k :: 0 <= k < |s| ==> s[k] !in drop
    ensures Removed(s, drop) == s && CountIn(s, drop) == 0
  {
    if s != [] {
      RemovedNone(s[1..], drop);
    }
  }

  /** Removing the elements of a sequence whose first one in `drop` is at `j`. */
  lemma RemovedAround<T>(s: seq<T>, drop: set<T>, j: nat)
    requires j < |s| && s[j] in drop
    requires forall k :: 0 <= k < j ==> s[k] !in drop
    ensures Removed(s, drop) == s[..j] + Removed(s[j + 1..], drop)
    ensures CountIn(s, drop) == CountIn(s[j + 1..], drop) + 1
  {
    var rest := s[j + 1..];
    TakeDrop(s, j);
    assert s[j..] == [s[j]] + rest;
    RemovedAppend(s[..j], [s[j]] + rest, drop);
    AppendTail([s[j]], rest);
    RemovedNone(s[..j], drop);
  }

  /** The pieces are what lies between the breaks: one more piece than
      there are breaks, and together they are `s` without its breaks. */
  lemma {:induction false} LinesSplitAtBreaks(s: string)
    ensures |Lines(s)| == CountIn(s, LineBreaks) + 1
    ensures Concat(Lines(s)) == Removed(s, LineBreaks)
    decreases |s|
  {
    var j := NextBreak(s, 0);
    if j < |s| {
      var rest := s[j + 1..];
      LinesSplitAtBreaks(rest);
      RemovedAround(s, LineBreaks, j);
      assert Lines(s) == [s[..j]] + Lines(rest);
      assert Concat(Lines(s)) == s[..j] + Concat(Lines(rest)) by {
        assert Lines(s)[1..] == Lines(rest);
      }
    } else {
      assert Lines(s) == [s];
      assert Concat(Lines(s)) == s + Concat([]);
      RemovedNone(s, LineBreaks);
    }
  }

  /** `"".join(line.strip() for line in lines if line.strip())`; a line
      that strips to nothing contributes nothing with or without the
      filter. The result has no whitespace at either end, and no line
      break when the lines have none. */
  function JoinStripped(lines: seq<string>): (r: string)
    ensures r == [] || (!IsSpace(r[0]) && !IsSpace(r[|r| - 1]))
    ensures (forall i :: 0 <= i < |lines| ==> NoBreaks(lines[i])) ==> NoBreaks(r)
  {
    if lines == [] then []
    else
      StripKeepsNoBreaks(lines[0]);
      TailIndex(lines);
      Strip(lines[0]) + JoinStripped(lines[1..])
  }

  lemma StripKeepsNoBreaks(line: string)
    ensures NoBreaks(line) ==> NoBreaks(Strip(line))
  {
    var head := Strip(line);
    if NoBreaks(line) {
      forall k | 0 <= k < |head| ensures head[k] !in LineBreaks {
        assert head[k] == line[StripStart(line, Whitespace) + k];
      }
    }
  }

  lemma TailIndex<T>(s: seq<T>)
    requires s != []
    ensures forall i :: 1 <= i < |s| ==> s[1..][i - 1] == s[i]
  {
  }

  /** The join is empty exactly when every line strips to nothing, so
      `read_cookie_file` reports an empty parse exactly then. */
  lemma {:induction false} JoinStrippedEmpty(lines: seq<string>)
    ensures JoinStripped(lines) == [] <==> forall i :: 0 <= i < |lines| ==> Strip(lines[i]) == []
  {
    if lines != [] {
      JoinStrippedEmpty(lines[1..]);
      TailIndex(lines);
    }
  }

  /** Joining distributes over concatenating the list of lines. */
  lemma {:induction false} JoinStrippedAppend(a: seq<string>, b: seq<string>)
    ensures JoinStripped(a + b) == JoinStripped(a) + JoinStripped(b)
  {
    if a != [] {
      AppendTail(a, b);
      JoinStrippedAppend(a[1..], b);
    } else {
      AppendEmpty(b);
    }
  }

  function JoinLines(s: string): (r: string)
    ensures r == [] || (!IsSpace(r[0]) && !IsSpace(r[|r| - 1]))
    ensures NoBreaks(r)
  {
    JoinStripped(Lines(s))
  }

  /** The string part of `read_cookie_file`: `EmptyFile` when only
      whitespace and quotes are left, `ParsedEmpty` when the lines join to
      nothing; otherwise a single line with no whitespace at either end. */
  function NormalizeCookie(raw: string): (r: Result<string, CookieError>)
    ensures r.Ok? ==> r.value != [] && NoBreaks(r.value)
    ensures r.Ok? ==> !IsSpace(r.value[0]) && !IsSpace(r.value[|r.value| - 1])
    ensures Unquoted(raw) == [] ==> r == Err(EmptyFile)
  {
    var s := Unquoted(raw);
    if s == [] then Err(EmptyFile)
    else
      var joined := JoinLines(WithoutHeader(s));
      if joined == [] then Err(ParsedEmpty) else Ok(joined)
  }

  /** `raw.strip().strip('"').strip("'")` */
  function Unquoted(raw: string): string {
    StripBy(StripBy(Strip(raw), DoubleQuote), SingleQuote)
  }

  /** Drop a leading `Cookie:` (any letter case) and the whitespace after
      it. The seven characters that lower-case to the header hold no colon
      but the last, so `split(":", 1)[1]` starts right after them. */
  function WithoutHeader(s: string): string {
    if StartsWith(Lower(s), Header) then Strip(s[|Header|..]) else s
  }

  // ---------------------------------------------------------------------
  // properties

  lemma {:induction false} VisibleLines(s: string)
    ensures Visible(s) == VisibleAll(Lines(s))
    decreases |s|
  {
    var j := NextBreak(s, 0);
    if j < |s| {
      var rest := s[j + 1..];
      VisibleAroundBreak(s, j);
      VisibleLines(rest);
      LinesAtBreak(s, j);
    }
  }

  /** Splitting at the first break: the break itself is invisible. */
  lemma VisibleAroundBreak(s: string, j: nat)
    requires j < |s| && s[j] in LineBreaks
    ensures Visible(s) == Visible(s[..j]) + Visible(s[j + 1..])
  {
    assert s == s[..j] + ([s[j]] + s[j + 1..]);
    VisibleAppend(s[..j], [s[j]] + s[j + 1..]);
    VisibleAppend([s[j]], s[j + 1..]);
    assert Visible([s[j]]) == [] by {
      assert IsSpace(s[j]);
      assert [s[j]][1..] == [];
    }
  }

  lemma LinesAtBreak(s: string, j: nat)
    requires j == NextBreak(s, 0) && j < |s|
    ensures VisibleAll(Lines(s)) == Visible(s[..j]) + VisibleAll(Lines(s[j + 1..]))
  {
    var r := Lines(s);
    assert r == [s[..j]] + Lines(s[j + 1..]);
    assert r[1..] == Lines(s[j + 1..]);
  }

  /** The visible characters of each line, in order. */
  function VisibleAll(lines: seq<string>): string {
    if lines == [] then [] else Visible(lines[0]) + VisibleAll(lines[1..])
  }

  lemma {:induction false} VisibleJoinStripped(lines: seq<string>)
    ensures Visible(JoinStripped(lines)) == VisibleAll(lines)
  {
    if lines != [] {
      VisibleAppend(Strip(lines[0]), JoinStripped(lines[1..]));
      VisibleStrip(lines[0]);
      VisibleJoinStripped(lines[1..]);
    }
  }

  /** Joining the lines removes whitespace only: every other character of
      the text survives, in order. */
  lemma JoinLinesKeepsVisible(s: string)
    ensures Visible(JoinLines(s)) == Visible(s)
  {
    VisibleLines(s);
    VisibleJoinStripped(Lines(s));
  }

  /** A cookie value as a browser shows it: one non-empty line with no
      whitespace and no quote at either end, not itself starting with the
      header name. Spaces inside, as after `;`, are allowed. */
  predicate Plain(c: string) {
    && c != [] && NoBreaks(c)
    && !IsSpace(c[0]) && !IsSpace(c[|c| - 1])
    && c[0] != '"' && c[|c| - 1] != '"'
    && c[0] != '\'' && c[|c| - 1] != '\''
    && !StartsWith(Lower(c), Header)
  }

  lemma PlainJoins(c: string)
    requires c != [] && NoBreaks(c) && !IsSpace(c[0]) && !IsSpace(c[|c| - 1])
    ensures JoinLines(c) == c
  {
    assert Lines(c) == [c];
    assert JoinStripped([c]) == Strip(c) + JoinStripped([]);
  }

  /** A plain cookie is read back unchanged. */
  lemma PlainCookieUnchanged(c: string)
    requires Plain(c)
    ensures NormalizeCookie(c) == Ok(c)
  {
    assert Strip(c) == c;
    assert Unquoted(c) == c;
    PlainJoins(c);
  }

  lemma HeaderPrefix(c: string)
    ensures StartsWith(Lower("Cookie: " + c), Header)
  {
    var raw := "Cookie: " + c;
    var low := Lower(raw);
    forall i | 0 <= i < |Header| ensures low[i] == Header[i] {
      assert raw[i] == "Cookie: "[i];
    }
    assert low[..|Header|] == Header;
  }

  lemma UnquotedWithHeader(c: string)
    requires Plain(c)
    ensures Unquoted("Cookie: " + c) == "Cookie: " + c
  {
    var raw := "Cookie: " + c;
    assert raw[0] == 'C' && raw[|raw| - 1] == c[|c| - 1];
    assert Strip(raw) == raw;
    assert StripBy(raw, DoubleQuote) == raw;
  }

  /** A cookie of two pairs, with a space after the separator. */
  lemma TypicalCookieUnchanged()
    ensures NormalizeCookie("a=1; b=2") == Ok("a=1; b=2")
  {
    var c := "a=1; b=2";
    assert Lower(c)[0] == 'a';
    PlainCookieUnchanged(c);
  }

  lemma AfterHeader(c: string)
    ensures ("Cookie: " + c)[|Header|..] == " " + c
  {
    var raw := "Cookie: " + c;
    var rest := raw[|Header|..];
    assert |rest| == |c| + 1;
    assert rest[0] == raw[7] == ' ';
    forall k | 0 <= k < |c| ensures rest[k + 1] == c[k] {
      assert rest[k + 1] == raw[8 + k];
    }
  }

  lemma StripLeadingSpace(c: string)
    requires c != [] && !IsSpace(c[0]) && !IsSpace(c[|c| - 1])
    ensures Strip(" " + c) == c
  {
    var s := " " + c;
    assert SkipForward(s, Whitespace, 1) == 1;
    assert StripStart(s, Whitespace) == 1;
    assert s[1..] == c;
  }

  /** A plain cookie pasted after a `Cookie: ` header name is read back
      without the header. */
  lemma HeaderIsDropped(c: string)
    requires Plain(c)
    ensures NormalizeCookie("Cookie: " + c) == Ok(c)
  {
    UnquotedWithHeader(c);
    HeaderPrefix(c);
    AfterHeader(c);
    StripLeadingSpace(c);
    assert WithoutHeader("Cookie: " + c) == c;
    PlainJoins(c);
  }
}
