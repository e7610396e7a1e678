/**
 * String primitives the change classifier relies on, written out as
 * JavaScript defines them: `String.prototype.split` with the separator
 * "\n", and `String.prototype.trim`.
 */
module Text {

  /** ECMA-262 WhiteSpace and LineTerminator code points: the set `trim` strips. */
  predicate IsWhiteSpace(c: char) {
    // WhiteSpace: TAB, VT, FF, ZWNBSP and the space separators (category Zs)
    || c == '\t' || c == '\U{B}' || c == '\U{C}' || c == '\U{FEFF}'
    || c == ' ' || c == '\U{A0}' || c == '\U{1680}'
    || ('\U{2000}' <= c <= '\U{200A}')
    || c == '\U{202F}' || c == '\U{205F}' || c == '\U{3000}'
    // LineTerminator: LF, CR, LINE SEPARATOR, PARAGRAPH SEPARATOR
    || c == '\n' || c == '\r' || c == '\U{2028}' || c == '\U{2029}'
  }

  predicate AllWhiteSpace(s: string) {
    forall i :: 0 <= i < |s| ==> IsWhiteSpace(s[i])
  }

  /** Removes the leading white space (`TrimStartSpec` states what is dropped and what is kept). */
  function TrimStart(s: string): (r: string)
    ensures |r| <= |s|
  {
    if |s| > 0 && IsWhiteSpace(s[0]) then TrimStart(s[1..]) else s
  }

  /** Removes the trailing white space (`TrimEndSpec` states what is dropped and what is kept). */
  function TrimEnd(s: string): (r: string)
    ensures |r| <= |s|
  {
    if |s| > 0 && IsWhiteSpace(s[|s| - 1]) then TrimEnd(s[..|s| - 1]) else s
  }

  /** `TrimStart` keeps a suffix starting with a non-white character, and what it drops is white. */
  lemma {:induction false} TrimStartSpec(s: string)
    ensures TrimStart(s) == s[|s| - |TrimStart(s)|..]
    ensures AllWhiteSpace(s[..|s| - |TrimStart(s)|])
    ensures TrimStart(s) == [] || !IsWhiteSpace(TrimStart(s)[0])
  {
    if |s| > 0 && IsWhiteSpace(s[0]) {
      var r := TrimStart(s[1..]);
      TrimStartSpec(s[1..]);
      assert s[..|s| - |r|] == [s[0]] + s[1..][..|s| - 1 - |r|];
    }
  }

  /** `TrimEnd` keeps a prefix ending with a non-white character, and what it drops is white. */
  lemma {:induction false} TrimEndSpec(s: string)
    ensures TrimEnd(s) == s[..|TrimEnd(s)|]
    ensures AllWhiteSpace(s[|TrimEnd(s)|..])
    ensures TrimEnd(s) == [] || !IsWhiteSpace(TrimEnd(s)[|TrimEnd(s)| - 1])
  {
    if |s| > 0 && IsWhiteSpace(s[|s| - 1]) {
      var r := TrimEnd(s[..|s| - 1]);
      TrimEndSpec(s[..|s| - 1]);
      assert s[|r|..] == s[..|s| - 1][|r|..] + [s[|s| - 1]];
    }
  }

  /** Number of characters `trim` drops at the front of `s`. */
  function LeadingWhiteSpace(s: string): (n: nat)
    ensures n <= |s|
  {
    |s| - |TrimStart(s)|
  }

  /** JavaScript's `s.trim()`: the result neither starts nor ends with white space (see `TrimDecomposes` for the rest). */
  function Trim(s: string): (r: string)
    ensures |r| <= |s|
    ensures r == [] || (!IsWhiteSpace(r[0]) && !IsWhiteSpace(r[|r| - 1]))
  {
    var t := TrimStart(s);
    TrimStartSpec(s);
    TrimEndSpec(t);
    var r := TrimEnd(t);
    assert r != [] ==> r[0] == t[0];
    r
  }

  /**
   * `Trim(s)` is the infix of `s` that starts right after the leading white
   * space, and the parts of `s` on either side of it are white.
   */
  lemma TrimDecomposes(s: string)
    ensures LeadingWhiteSpace(s) + |Trim(s)| <= |s|
    ensures Trim(s) == s[LeadingWhiteSpace(s)..LeadingWhiteSpace(s) + |Trim(s)|]
    ensures AllWhiteSpace(s[..LeadingWhiteSpace(s)])
    ensures AllWhiteSpace(s[LeadingWhiteSpace(s) + |Trim(s)|..])
  {
    var t, r := TrimStart(s), Trim(s);
    TrimStartSpec(s);
    TrimEndSpec(t);
    assert s[LeadingWhiteSpace(s) + |r|..] == t[|r|..];
  }

  lemma {:induction false} TrimStartOf(x: string, t: string)
    requires AllWhiteSpace(x)
    requires t == [] || !IsWhiteSpace(t[0])
    ensures TrimStart(x + t) == t
  {
    if x == [] {
      assert x + t == t;
    } else {
      assert (x + t)[1..] == x[1..] + t;
      TrimStartOf(x[1..], t);
    }
  }

  lemma {:induction false} TrimEndOf(m: string, y: string)
    requires AllWhiteSpace(y)
    requires m == [] || !IsWhiteSpace(m[|m| - 1])
    ensures TrimEnd(m + y) == m
  {
    if y == [] {
      assert m + y == m;
    } else {
      assert (m + y)[..|m + y| - 1] == m + y[..|y| - 1];
      TrimEndOf(m, y[..|y| - 1]);
    }
  }

  /**
   * `Trim` is determined by the decomposition it promises: whatever white
   * space surrounds a core that neither starts nor ends with white space,
   * trimming yields exactly that core.
   */
  lemma TrimUnique(x: string, m: string, y: string)
    requires AllWhiteSpace(x) && AllWhiteSpace(y)
    requires m == [] || (!IsWhiteSpace(m[0]) && !IsWhiteSpace(m[|m| - 1]))
    ensures Trim(x + m + y) == m
  {
    if m == [] {
      assert x + m + y == (x + y) + [];
      TrimStartOf(x + y, []);
    } else {
      assert x + m + y == x + (m + y);
      TrimStartOf(x, m + y);
      TrimEndOf(m, y);
    }
  }

  /** Trimming twice is trimming once. */
  lemma TrimIdempotent(s: string)
    ensures Trim(Trim(s)) == Trim(s)
  {
    var r := Trim(s);
    assert [] + r + [] == r;
    TrimUnique([], r, []);
  }

  /** Appending a white-space character (a carriage return, say) does not change the trimmed line. */
  lemma TrimAppendWhiteSpace(p: string, w: char)
    requires IsWhiteSpace(w)
    ensures Trim(p + [w]) == Trim(p)
  {
    var i, r := LeadingWhiteSpace(p), Trim(p);
    TrimDecomposes(p);
    var x, y := p[..i], p[i + |r|..];
    assert p == x + r + y;
    assert p + [w] == x + r + (y + [w]);
    assert AllWhiteSpace(y + [w]) by {
      forall k | 0 <= k < |y + [w]| ensures IsWhiteSpace((y + [w])[k]) {
        if k < |y| { assert (y + [w])[k] == y[k]; }
      }
    }
    TrimUnique(x, r, y + [w]);
  }

  /** Number of '\n' characters in `s`. */
  function NewlineCount(s: string): nat {
    if s == [] then 0 else (if s[0] == '\n' then 1 else 0) + NewlineCount(s[1..])
  }

  /**
   * JavaScript's `s.split("\n")`: the maximal '\n'-free pieces between the
   * separators, empty ones included, so there is always one piece more
   * than there are separators.
   */
  function Split(s: string): (pieces: seq<string>)
    ensures |pieces| == NewlineCount(s) + 1
    ensures forall i :: 0 <= i < |pieces| ==> '\n' !in pieces[i]
  {
    if s == [] then
      [[]]
    else if s[0] == '\n' then
      [[]] + Split(s[1..])
    else
      var rest := Split(s[1..]);
      assert '\n' !in [s[0]] + rest[0];
      [[s[0]] + rest[0]] + rest[1..]
  }

  /** The inverse of `Split`: the pieces with '\n' between consecutive ones (JavaScript's `pieces.join("\n")`). */
  function Join(pieces: seq<string>): string {
    if |pieces| == 0 then []
    else if |pieces| == 1 then pieces[0]
    else pieces[0] + "\n" + Join(pieces[1..])
  }

  lemma {:induction false} JoinSplit(s: string)
    ensures Join(Split(s)) == s
  {
    if s == [] {
    } else if s[0] == '\n' {
      JoinSplit(s[1..]);
      assert [[]] + Split(s[1..]) == [[]] + Split(s[1..]);
      assert s == [] + "\n" + s[1..];
    } else {
      var rest := Split(s[1..]);
      JoinSplit(s[1..]);
      if |rest| == 1 {
        assert s == [s[0]] + rest[0];
      } else {
        assert Join(rest) == rest[0] + "\n" + Join(rest[1..]);
        assert ([[s[0]] + rest[0]] + rest[1..])[1..] == rest[1..];
        assert s == [s[0]] + s[1..];
      }
    }
  }

  /** Splitting `p + t` where `p` holds no separator extends the first piece of `t` by `p`. */
  lemma {:induction false} SplitPrefix(p: string, t: string)
    requires '\n' !in p
    ensures Split(p + t) == [p + Split(t)[0]] + Split(t)[1..]
  {
    if p == [] {
      assert p + t == t && p + Split(t)[0] == Split(t)[0];
      assert [Split(t)[0]] + Split(t)[1..] == Split(t);
    } else {
      assert (p + t)[0] == p[0] && (p + t)[1..] == p[1..] + t;
      SplitPrefix(p[1..], t);
      assert [p[0]] + (p[1..] + Split(t)[0]) == p + Split(t)[0];
    }
  }

  lemma {:induction false} SplitJoin(pieces: seq<string>)
    requires |pieces| >= 1
    requires forall i :: 0 <= i < |pieces| ==> '\n' !in pieces[i]
    ensures Split(Join(pieces)) == pieces
  {
    if |pieces| == 1 {
      assert pieces[0] + [] == pieces[0];
      SplitPrefix(pieces[0], []);
    } else {
      var t := Join(pieces[1..]);
      SplitJoin(pieces[1..]);
      assert pieces[0] + "\n" + t == pieces[0] + ("\n" + t);
      SplitPrefix(pieces[0], "\n" + t);
      assert ("\n" + t)[1..] == t;
      assert Split("\n" + t) == [[]] + pieces[1..];
      assert pieces[0] + [] == pieces[0];
    }
  }

  /** A text of two lines splits into those two lines. */
  lemma SplitTwoLines(first: string, second: string)
    requires '\n' !in first && '\n' !in second
    ensures Split(first + "\n" + second) == [first, second]
  {
    SplitJoin([first, second]);
    assert Join([first, second]) == first + "\n" + second by {
      assert [first, second][1..] == [second];
    }
  }

  /** A text without surrounding white space is its own trim. */
  lemma TrimNoSurroundingWhiteSpace(m: string)
    requires m == [] || (!IsWhiteSpace(m[0]) && !IsWhiteSpace(m[|m| - 1]))
    ensures Trim(m) == m
  {
    assert [] + m + [] == m;
    TrimUnique([], m, []);
  }

  /** The text with every "\n" line break written as "\r\n". */
  function ToCrlf(s: string): string {
    if s == [] then []
    else (if s[0] == '\n' then "\r\n" else [s[0]]) + ToCrlf(s[1..])
  }

  /** The lines with a '\r' added to every line but the last. */
  function WithCr(lines: seq<string>): seq<string> {
    if |lines| <= 1 then lines else [lines[0] + "\r"] + WithCr(lines[1..])
  }

  /** The line ending line `i` of `count` lines gets from a CRLF conversion. */
  function LineEnd(i: nat, count: nat): string {
    if i + 1 < count then "\r" else ""
  }

  lemma {:induction false} WithCrAt(lines: seq<string>, i: nat)
    requires i < |lines|
    ensures |WithCr(lines)| == |lines|
    ensures WithCr(lines)[i] == lines[i] + LineEnd(i, |lines|)
  {
    if |lines| <= 1 {
      assert lines[i] + [] == lines[i];
    } else if i > 0 {
      WithCrAt(lines[1..], i - 1);
    } else {
      WithCrAt(lines[1..], 0);
    }
  }

  /** Prefixing a character to the first line commutes with adding the '\r's. */
  lemma WithCrPrefix(c: char, lines: seq<string>)
    requires |lines| >= 1
    ensures WithCr([[c] + lines[0]] + lines[1..]) == [[c] + WithCr(lines)[0]] + WithCr(lines)[1..]
  {
    var joined := [[c] + lines[0]] + lines[1..];
    assert joined[1..] == lines[1..];
    if |lines| > 1 {
      assert [c] + (lines[0] + "\r") == ([c] + lines[0]) + "\r";
    }
  }

  /** Splitting after a CRLF: the '\r' is a line of its own, the rest splits as before. */
  lemma SplitCrlfPrefix(t: string)
    ensures Split("\r\n" + t) == ["\r"] + Split(t)
  {
    assert "\r\n" + t == "\r" + ("\n" + t);
    SplitPrefix("\r", "\n" + t);
    assert ("\n" + t)[1..] == t;
    assert Split("\n" + t) == [[]] + Split(t);
    assert "\r" + [] == "\r";
  }

  /**
   * A CRLF conversion keeps the number of lines and adds a trailing '\r' to
   * every line but the last.
   */
  lemma {:induction false} SplitToCrlf(s: string)
    ensures Split(ToCrlf(s)) == WithCr(Split(s))
  {
    if s != [] {
      var t := ToCrlf(s[1..]);
      var a := Split(s[1..]);
      SplitToCrlf(s[1..]);
      if s[0] == '\n' {
        assert ToCrlf(s) == "\r\n" + t;
        SplitCrlfPrefix(t);
        assert Split(s) == [[]] + a;
        assert ([[]] + a)[1..] == a;
        assert [] + "\r" == "\r";
      } else {
        assert ToCrlf(s) == [s[0]] + t;
        SplitPrefix([s[0]], t);
        SplitPrefix([s[0]], s[1..]);
        assert [s[0]] + s[1..] == s;
        WithCrPrefix(s[0], a);
      }
    }
  }
}
