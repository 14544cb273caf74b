/** Whitespace as JavaScript's `\s` and `String.prototype.trim` see it, on
    strings taken as sequences of characters. */
module Text {

  /** The characters matched by `\s` (and removed by `trim`): the ASCII
      blanks, no-break space, the Unicode space separators, the line and
      paragraph separators and the byte-order mark. */
  predicate IsWhitespace(c: char) {
    || c == ' ' || c == '\t' || c == '\n' || c == '\U{B}' || c == '\U{C}' || c == '\r'
    || c == '\U{A0}' || c == '\U{1680}' || ('\U{2000}' <= c <= '\U{200A}')
    || c == '\U{2028}' || c == '\U{2029}' || c == '\U{202F}' || c == '\U{205F}'
    || c == '\U{3000}' || c == '\U{FEFF}'
  }

  predicate AllWhitespace(s: string) {
    forall i :: 0 <= i < |s| ==> IsWhitespace(s[i])
  }

  /** Neither end of `s` is whitespace. */
  predicate IsTrimmed(s: string) {
    s == [] || (!IsWhitespace(s[0]) && !IsWhitespace(s[|s| - 1]))
  }

  /** `String.prototype.trimStart`: the suffix left after the leading whitespace. */
  function TrimStart(s: string): (r: string)
    ensures |r| <= |s| && r == s[|s| - |r|..]
    ensures AllWhitespace(s[..|s| - |r|])
    ensures r == [] || !IsWhitespace(r[0])
    ensures s != [] && IsWhitespace(s[0]) ==> |r| < |s|
    decreases |s|
  {
    if s != [] && IsWhitespace(s[0]) then TrimStart(s[1..]) else s
  }

  /** `String.prototype.trimEnd`: the prefix left before the trailing whitespace. */
  function TrimEnd(s: string): (r: string)
    ensures |r| <= |s| && r == s[..|r|]
    ensures AllWhitespace(s[|r|..])
    ensures r == [] || !IsWhitespace(r[|r| - 1])
    decreases |s|
  {
    if s != [] && IsWhitespace(s[|s| - 1]) then
      var init := s[..|s| - 1];
      var r := TrimEnd(init);
      assert s[|r|..] == init[|r|..] + [s[|s| - 1]];
      assert r == s[..|r|];
      r
    else s
  }

  /** `String.prototype.trim`: `s` with the whitespace at both ends removed. */
  function Trim(s: string): (r: string)
    ensures IsTrimmed(r)
    ensures exists a, b ::
              && 0 <= a <= b <= |s| && r == s[a..b]
              && AllWhitespace(s[..a]) && AllWhitespace(s[b..])
  {
    var t := TrimStart(s);
    var r := TrimEnd(t);
    assert r != [] ==> r[0] == t[0];
    StripBothEnds(s, t, r);
    r
  }

  /** Whitespace stripped from the front and then from the back leaves a
      slice of the original with whitespace on either side. */
  lemma StripBothEnds(s: string, t: string, r: string)
    requires |t| <= |s| && t == s[|s| - |t|..] && AllWhitespace(s[..|s| - |t|])
    requires |r| <= |t| && r == t[..|r|] && AllWhitespace(t[|r|..])
    ensures exists a, b ::
              && 0 <= a <= b <= |s| && r == s[a..b]
              && AllWhitespace(s[..a]) && AllWhitespace(s[b..])
  {
    var a := |s| - |t|;
    var b := a + |r|;
    assert r == s[a..b];
    assert s[b..] == t[|r|..];
  }

  /** `s` holds no whitespace at all. */
  predicate NoWhitespace(s: string) {
    forall i :: 0 <= i < |s| ==> !IsWhitespace(s[i])
  }

  lemma NoWhitespaceConcat(a: string, b: string)
    requires NoWhitespace(a) && NoWhitespace(b)
    ensures NoWhitespace(a + b)
  {
    forall i | |a| <= i < |a + b|
      ensures (a + b)[i] == b[i - |a|]
    {
    }
  }

  /** The characters of `s` that are not whitespace, in order: what a
      reader sees of the text, whatever its spacing. */
  function Visible(s: string): (r: string)
    ensures NoWhitespace(r)
    ensures forall c :: c in r <==> c in s && !IsWhitespace(c)
    ensures NoWhitespace(s) ==> r == s
    decreases |s|
  {
    if s == [] then []
    else
      assert forall c :: c in s <==> c == s[0] || c in s[1..];
      (if IsWhitespace(s[0]) then [] else [s[0]]) + Visible(s[1..])
  }

  lemma {:induction false} VisibleAppend(a: string, b: string)
    ensures Visible(a + b) == Visible(a) + Visible(b)
    decreases |a|
  {
    if a == [] {
      assert a + b == b;
    } else {
      assert (a + b)[0] == a[0] && (a + b)[1..] == a[1..] + b;
      VisibleAppend(a[1..], b);
    }
  }

  lemma {:induction false} VisibleOfWhitespace(w: string)
    requires AllWhitespace(w)
    ensures Visible(w) == []
    decreases |w|
  {
    if w != [] {
      VisibleOfWhitespace(w[1..]);
    }
  }

  /** Leading whitespace followed by text that does not start with
      whitespace trims to exactly that text. */
  lemma {:induction false} TrimStartRun(w: string, y: string)
    requires AllWhitespace(w)
    requires y == [] || !IsWhitespace(y[0])
    ensures TrimStart(w + y) == y
    decreases |w|
  {
    if w == [] {
      assert w + y == y;
    } else {
      assert (w + y)[0] == w[0] && (w + y)[1..] == w[1..] + y;
      TrimStartRun(w[1..], y);
    }
  }

  /** Text that does not end in whitespace followed by trailing whitespace
      trims back to exactly that text. */
  lemma {:induction false} TrimEndRun(y: string, w: string)
    requires AllWhitespace(w)
    requires y == [] || !IsWhitespace(y[|y| - 1])
    ensures TrimEnd(y + w) == y
    decreases |w|
  {
    if w == [] {
      assert y + w == y;
    } else {
      var s := y + w;
      assert s[|s| - 1] == w[|w| - 1];
      assert s[..|s| - 1] == y + w[..|w| - 1];
      TrimEndRun(y, w[..|w| - 1]);
    }
  }

  /** Dropping leading whitespace keeps the visible characters. */
  lemma VisibleDropLeading(s: string, k: nat)
    requires k <= |s| && AllWhitespace(s[..k])
    ensures Visible(s[k..]) == Visible(s)
  {
    assert s == s[..k] + s[k..];
    VisibleAppend(s[..k], s[k..]);
    VisibleOfWhitespace(s[..k]);
  }

  /** Dropping trailing whitespace keeps the visible characters. */
  lemma VisibleDropTrailing(s: string, k: nat)
    requires k <= |s| && AllWhitespace(s[k..])
    ensures Visible(s[..k]) == Visible(s)
  {
    assert s == s[..k] + s[k..];
    VisibleAppend(s[..k], s[k..]);
    VisibleOfWhitespace(s[k..]);
  }

  lemma VisibleTrimStart(s: string)
    ensures Visible(TrimStart(s)) == Visible(s)
  {
    VisibleDropLeading(s, |s| - |TrimStart(s)|);
  }

  lemma VisibleTrimEnd(s: string)
    ensures Visible(TrimEnd(s)) == Visible(s)
  {
    VisibleDropTrailing(s, |TrimEnd(s)|);
  }

  /** Trimming removes only whitespace: every visible character survives, in order. */
  lemma VisibleTrim(s: string)
    ensures Visible(Trim(s)) == Visible(s)
  {
    VisibleTrimStart(s);
    VisibleTrimEnd(TrimStart(s));
  }

  /** Trimming a string that already has no whitespace at its ends changes nothing. */
  lemma TrimTrimmed(s: string)
    requires IsTrimmed(s)
    ensures Trim(s) == s
  {
  }
}
