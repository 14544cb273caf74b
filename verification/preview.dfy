/** What a note card shows: the plain-text preview of the note's HTML
    content, cut to a length that depends on the title, and the first two
    tags followed by a `+N` badge for the rest. */
module Preview {
  import opened Wrappers
  import opened Text
  import Seqs

  /** Every whitespace character is a plain space and none is followed by another. */
  predicate Collapsed(s: string) {
    && (forall i :: 0 <= i < |s| && IsWhitespace(s[i]) ==> s[i] == ' ')
    && (forall i :: 0 <= i < |s| - 1 ==> !(IsWhitespace(s[i]) && IsWhitespace(s[i + 1])))
  }

  /** `s.replace(/<[^>]*>/g, ' ')`: every `<` that has a `>` after it starts
      a tag running to the first such `>`, and the tag becomes one space. A
      `<` with no `>` after it is kept, and so is the rest of the text. */
  function RemoveTags(s: string): (r: string)
    ensures |r| <= |s|
    ensures '<' !in s ==> r == s
    ensures '>' !in s ==> r == s
    ensures forall i, j :: 0 <= i < j < |r| && r[i] == '<' ==> r[j] != '>'
    decreases |s|
  {
    if s == [] then []
    else if s[0] == '<' && '>' in s[1..] then
      var close := Seqs.IndexOf(s[1..], '>') + 1;
      [' '] + RemoveTags(s[close + 1..])
    else
      var rest := RemoveTags(s[1..]);
      assert s[0] == '<' ==> '>' !in rest;
      [s[0]] + rest
  }

  /** `s.replace(/pat/g, rep)` for a literal pattern: occurrences are found
      left to right without overlapping, and replaced text is not rescanned. */
  function ReplaceAll(s: string, pat: string, rep: string): (r: string)
    requires pat != []
    ensures pat[0] !in s ==> r == s
    ensures |rep| <= |pat| ==> |r| <= |s|
    decreases |s|
  {
    if |s| < |pat| then s
    else if s[..|pat|] == pat then
      assert s == s[..|pat|] + s[|pat|..];
      rep + ReplaceAll(s[|pat|..], pat, rep)
    else
      [s[0]] + ReplaceAll(s[1..], pat, rep)
  }

  /** The six entity replacements, in the order the card applies them. */
  function DecodeEntities(s: string): (r: string)
    ensures '&' !in s ==> r == s
  {
    var s1 := ReplaceAll(s, "&nbsp;", " ");
    var s2 := ReplaceAll(s1, "&amp;", "&");
    var s3 := ReplaceAll(s2, "&lt;", "<");
    var s4 := ReplaceAll(s3, "&gt;", ">");
    var s5 := ReplaceAll(s4, "&quot;", "\"");
    ReplaceAll(s5, "&#39;", "'")
  }

  /** `s.replace(/\s+/g, ' ')`: each run of whitespace becomes one space. */
  function Collapse(s: string): (r: string)
    ensures Collapsed(r)
    ensures r == [] <==> s == []
    ensures r != [] ==> (IsWhitespace(r[0]) <==> IsWhitespace(s[0]))
    ensures Collapsed(s) ==> r == s
    decreases |s|
  {
    if s == [] then []
    else if IsWhitespace(s[0]) then
      var t := TrimStart(s);
      var c := Collapse(t);
      CollapseSpaceStep(s, t, c);
      [' '] + c
    else
      var c := Collapse(s[1..]);
      CollapseWordStep(s, c);
      [s[0]] + c
  }

  /** The step for a leading whitespace run `s[..|s| - |t|]`: one space,
      then the collapsed rest `c`. */
  lemma CollapseSpaceStep(s: string, t: string, c: string)
    requires s != [] && IsWhitespace(s[0])
    requires |t| < |s| && t == s[|s| - |t|..] && AllWhitespace(s[..|s| - |t|])
    requires t == [] || !IsWhitespace(t[0])
    requires Collapsed(c) && (c == [] <==> t == [])
    requires c != [] ==> (IsWhitespace(c[0]) <==> IsWhitespace(t[0]))
    requires Collapsed(t) ==> c == t
    ensures Collapsed([' '] + c)
    ensures Collapsed(s) ==> [' '] + c == s
  {
    ConsCollapsed(' ', c);
    if Collapsed(s) {
      var k := |s| - |t|;
      WhitespacePrefix(s, k);
      assert |s| > 1 ==> !IsWhitespace(s[1]);
      assert k == 1;
      CollapsedSlice(s, 1, |s|);
    }
  }

  lemma WhitespacePrefix(s: string, k: nat)
    requires k <= |s| && AllWhitespace(s[..k])
    ensures forall j :: 0 <= j < k ==> IsWhitespace(s[j])
  {
    forall j | 0 <= j < k
      ensures IsWhitespace(s[j])
    {
      assert s[..k][j] == s[j];
    }
  }

  /** The step for a leading visible character: kept, then the collapsed rest `c`. */
  lemma CollapseWordStep(s: string, c: string)
    requires s != [] && !IsWhitespace(s[0])
    requires Collapsed(c)
    requires Collapsed(s[1..]) ==> c == s[1..]
    ensures Collapsed([s[0]] + c)
    ensures Collapsed(s) ==> [s[0]] + c == s
  {
    ConsCollapsed(s[0], c);
    if Collapsed(s) {
      CollapsedSlice(s, 1, |s|);
    }
  }

  /** Putting a character in front of collapsed text keeps it collapsed,
      provided a space is not put before another whitespace character. */
  lemma ConsCollapsed(c: char, r: string)
    requires Collapsed(r)
    requires IsWhitespace(c) ==> c == ' ' && (r == [] || !IsWhitespace(r[0]))
    ensures Collapsed([c] + r)
  {
    var s := [c] + r;
    forall i | 0 < i < |s|
      ensures s[i] == r[i - 1]
    {
    }
  }

  lemma CollapseVisibleHead(c: char, t: string)
    requires !IsWhitespace(c)
    ensures Collapse([c] + t) == [c] + Collapse(t)
  {
    assert ([c] + t)[0] == c && ([c] + t)[1..] == t;
  }

  lemma CollapseWhitespaceHead(s: string)
    requires s != [] && IsWhitespace(s[0])
    ensures Collapse(s) == [' '] + Collapse(TrimStart(s))
  {
  }

  /** A run of non-whitespace characters passes through collapsing unchanged. */
  lemma {:induction false} CollapseKeepsWord(x: string, y: string)
    requires NoWhitespace(x)
    ensures Collapse(x + y) == x + Collapse(y)
    decreases |x|
  {
    if x == [] {
      assert x + y == y;
    } else {
      var c, x' := x[0], x[1..];
      assert !IsWhitespace(c);
      assert NoWhitespace(x');
      assert x + y == [c] + (x' + y);
      CollapseVisibleHead(c, x' + y);
      CollapseKeepsWord(x', y);
      assert [c] + (x' + Collapse(y)) == ([c] + x') + Collapse(y);
      assert x == [c] + x';
    }
  }

  /** A whole run of whitespace, however long and of whatever kind, becomes one plain space. */
  lemma CollapseRun(w: string, y: string)
    requires w != [] && AllWhitespace(w)
    requires y == [] || !IsWhitespace(y[0])
    ensures Collapse(w + y) == " " + Collapse(y)
  {
    assert (w + y)[0] == w[0];
    CollapseWhitespaceHead(w + y);
    TrimStartRun(w, y);
  }

  /** Collapsing drops and adds only whitespace: the visible characters survive in order. */
  lemma {:induction false} VisibleCollapse(s: string)
    ensures Visible(Collapse(s)) == Visible(s)
    decreases |s|
  {
    if s != [] {
      if IsWhitespace(s[0]) {
        var t := TrimStart(s);
        CollapseWhitespaceHead(s);
        VisibleCollapse(t);
        VisibleTrimStart(s);
        VisibleAppend([' '], Collapse(t));
      } else {
        assert s == [s[0]] + s[1..];
        CollapseVisibleHead(s[0], s[1..]);
        VisibleCollapse(s[1..]);
        VisibleAppend([s[0]], Collapse(s[1..]));
        VisibleAppend([s[0]], s[1..]);
      }
    }
  }

  /** A slice of a collapsed string is collapsed. */
  lemma CollapsedSlice(s: string, a: nat, b: nat)
    requires a <= b <= |s|
    requires Collapsed(s)
    ensures Collapsed(s[a..b])
  {
    var t := s[a..b];
    forall i | 0 <= i < |t| - 1
      ensures !(IsWhitespace(t[i]) && IsWhitespace(t[i + 1]))
    {
      assert t[i] == s[a + i] && t[i + 1] == s[a + i + 1];
    }
  }

  /** Trimming a collapsed string leaves it collapsed. */
  lemma TrimKeepsCollapsed(s: string)
    requires Collapsed(s)
    ensures Collapsed(Trim(s))
  {
    var a, b :| 0 <= a <= b <= |s| && Trim(s) == s[a..b];
    CollapsedSlice(s, a, b);
  }

  /** `stripHtml`: the plain text of a note's HTML content. */
  function StripHtml(html: string): (r: string)
    ensures html == [] ==> r == []
    ensures IsTrimmed(r)
    ensures Collapsed(r)
    ensures Visible(r) == Visible(DecodeEntities(RemoveTags(html)))
  {
    if html == [] then []
    else
      var d := DecodeEntities(RemoveTags(html));
      var c := Collapse(d);
      TrimKeepsCollapsed(c);
      VisibleCollapse(d);
      VisibleTrim(c);
      Trim(c)
  }

  /** Text with no markup, no entities and tidy spacing is its own plain text. */
  lemma PlainTextUnchanged(s: string)
    requires '<' !in s && '&' !in s
    requires Collapsed(s) && IsTrimmed(s)
    ensures StripHtml(s) == s
  {
    if s != [] {
      TrimTrimmed(s);
    }
  }

  /** Text before the first `<` passes through tag removal unchanged. */
  lemma {:induction false} RemoveTagsKeepsText(x: string, y: string)
    requires '<' !in x
    ensures RemoveTags(x + y) == x + RemoveTags(y)
    decreases |x|
  {
    if x != [] {
      var c, x' := x[0], x[1..];
      Seqs.ConcatAssoc([c], x', y);
      assert x == [c] + x';
      RemoveTagsKeepsChar(c, x' + y);
      RemoveTagsKeepsText(x', y);
      Seqs.ConcatAssoc([c], x', RemoveTags(y));
    } else {
      assert x + y == y;
    }
  }

  /** A character other than `<` is copied. */
  lemma RemoveTagsKeepsChar(c: char, t: string)
    requires c != '<'
    ensures RemoveTags([c] + t) == [c] + RemoveTags(t)
  {
    assert ([c] + t)[0] == c && ([c] + t)[1..] == t;
  }

  /** A closed tag becomes exactly one space, whatever it contains. */
  lemma RemoveTagsReplacesTag(x: string, y: string)
    requires '>' !in x
    ensures RemoveTags("<" + x + ">" + y) == " " + RemoveTags(y)
  {
    var s := "<" + x + ">" + y;
    assert s[1..] == x + ">" + y;
    assert s[1..][|x|] == '>';
    assert Seqs.IndexOf(s[1..], '>') == |x|;
    assert s[|x| + 2..] == y;
  }

  /** Text that cannot start the pattern passes through a replacement unchanged. */
  lemma {:induction false} ReplaceAllSkips(x: string, y: string, pat: string, rep: string)
    requires pat != [] && pat[0] !in x
    ensures ReplaceAll(x + y, pat, rep) == x + ReplaceAll(y, pat, rep)
    decreases |x|
  {
    if x != [] {
      var s := x + y;
      assert s[0] == x[0] && s[1..] == x[1..] + y;
      assert |s| >= |pat| ==> s[..|pat|] != pat by {
        if |s| >= |pat| { assert s[..|pat|][0] == x[0]; }
      }
      ReplaceAllSkips(x[1..], y, pat, rep);
      assert x == [x[0]] + x[1..];
    } else {
      assert x + y == y;
    }
  }

  /** An occurrence at the front is replaced and scanning resumes after it. */
  lemma ReplaceAllHits(y: string, pat: string, rep: string)
    requires pat != []
    ensures ReplaceAll(pat + y, pat, rep) == rep + ReplaceAll(y, pat, rep)
  {
    var s := pat + y;
    assert s[..|pat|] == pat && s[|pat|..] == y;
  }

  /** A first character that does not begin an occurrence is kept. */
  lemma ReplaceAllMisses(c: char, y: string, pat: string, rep: string)
    requires pat != []
    requires |y| + 1 < |pat| || ([c] + y)[..|pat|] != pat
    ensures ReplaceAll([c] + y, pat, rep) == [c] + ReplaceAll(y, pat, rep)
  {
    var s := [c] + y;
    assert s[0] == c && s[1..] == y;
  }

  /** A decoding pass for pattern `p` leaves an entity `e` that differs from
      `p` in its second character, with `&`-free text around it, alone. */
  lemma PassSkipsEntity(x: string, e: string, y: string, p: string, rep: string)
    requires |p| >= 2 && |e| >= 2 && p[0] == '&' && e[0] == '&' && e[1] != p[1]
    requires '&' !in x && '&' !in e[1..] && '&' !in y
    ensures ReplaceAll(x + e + y, p, rep) == x + e + y
  {
    var t := e[1..] + y;
    assert x + e + y == x + ([e[0]] + t);
    ReplaceAllSkips(x, [e[0]] + t, p, rep);
    assert |t| + 1 >= |p| ==> ([e[0]] + t)[..|p|][1] != p[1];
    ReplaceAllMisses(e[0], t, p, rep);
    assert '&' !in t;
  }

  /** The pass for entity `e` turns its one occurrence into `c`. */
  lemma PassDecodesEntity(x: string, e: string, y: string, c: char)
    requires e != [] && e[0] !in x && e[0] !in y
    ensures ReplaceAll(x + e + y, e, [c]) == x + [c] + y
  {
    assert x + e + y == x + (e + y);
    ReplaceAllSkips(x, e + y, e, [c]);
    ReplaceAllHits(y, e, [c]);
  }

  /** A `&` produced by decoding `&amp;` starts no later entity when no `;` follows it. */
  lemma PassSkipsAmpersand(x: string, y: string, p: string, rep: string)
    requires |p| >= 2 && p[0] == '&' && p[|p| - 1] == ';'
    requires '&' !in x && '&' !in y && ';' !in y
    ensures ReplaceAll(x + "&" + y, p, rep) == x + "&" + y
  {
    assert x + "&" + y == x + (['&'] + y);
    ReplaceAllSkips(x, ['&'] + y, p, rep);
    assert |y| + 1 >= |p| ==> (['&'] + y)[..|p|][|p| - 1] == y[|p| - 2] != ';';
    ReplaceAllMisses('&', y, p, rep);
  }

  /** `&nbsp;` between `&`-free text decodes to a space. */
  lemma DecodesNbsp(x: string, y: string)
    requires '&' !in x && '&' !in y
    ensures DecodeEntities(x + "&nbsp;" + y) == x + " " + y
  {
    PassDecodesEntity(x, "&nbsp;", y, ' ');
    assert '&' !in x + " " + y;
  }

  /** `&amp;` decodes to `&`; with no `;` after it, that `&` is not decoded again. */
  lemma DecodesAmp(x: string, y: string)
    requires '&' !in x && '&' !in y && ';' !in y
    ensures DecodeEntities(x + "&amp;" + y) == x + "&" + y
  {
    PassSkipsEntity(x, "&amp;", y, "&nbsp;", " ");
    PassDecodesEntity(x, "&amp;", y, '&');
    PassSkipsAmpersand(x, y, "&lt;", "<");
    PassSkipsAmpersand(x, y, "&gt;", ">");
    PassSkipsAmpersand(x, y, "&quot;", "\"");
    PassSkipsAmpersand(x, y, "&#39;", "'");
  }

  /** `&lt;` between `&`-free text decodes to `<`. */
  lemma DecodesLt(x: string, y: string)
    requires '&' !in x && '&' !in y
    ensures DecodeEntities(x + "&lt;" + y) == x + "<" + y
  {
    PassSkipsEntity(x, "&lt;", y, "&nbsp;", " ");
    PassSkipsEntity(x, "&lt;", y, "&amp;", "&");
    PassDecodesEntity(x, "&lt;", y, '<');
    assert '&' !in x + "<" + y;
  }

  /** `&gt;` between `&`-free text decodes to `>`. */
  lemma DecodesGt(x: string, y: string)
    requires '&' !in x && '&' !in y
    ensures DecodeEntities(x + "&gt;" + y) == x + ">" + y
  {
    PassSkipsEntity(x, "&gt;", y, "&nbsp;", " ");
    PassSkipsEntity(x, "&gt;", y, "&amp;", "&");
    PassSkipsEntity(x, "&gt;", y, "&lt;", "<");
    PassDecodesEntity(x, "&gt;", y, '>');
    assert '&' !in x + ">" + y;
  }

  /** `&quot;` between `&`-free text decodes to a double quote. */
  lemma DecodesQuot(x: string, y: string)
    requires '&' !in x && '&' !in y
    ensures DecodeEntities(x + "&quot;" + y) == x + "\"" + y
  {
    PassSkipsEntity(x, "&quot;", y, "&nbsp;", " ");
    PassSkipsEntity(x, "&quot;", y, "&amp;", "&");
    PassSkipsEntity(x, "&quot;", y, "&lt;", "<");
    PassSkipsEntity(x, "&quot;", y, "&gt;", ">");
    PassDecodesEntity(x, "&quot;", y, '"');
    assert '&' !in x + "\"" + y;
  }

  /** `&#39;` between `&`-free text decodes to an apostrophe. */
  lemma DecodesApos(x: string, y: string)
    requires '&' !in x && '&' !in y
    ensures DecodeEntities(x + "&#39;" + y) == x + "'" + y
  {
    PassSkipsEntity(x, "&#39;", y, "&nbsp;", " ");
    PassSkipsEntity(x, "&#39;", y, "&amp;", "&");
    PassSkipsEntity(x, "&#39;", y, "&lt;", "<");
    PassSkipsEntity(x, "&#39;", y, "&gt;", ">");
    PassSkipsEntity(x, "&#39;", y, "&quot;", "\"");
    PassDecodesEntity(x, "&#39;", y, '\'');
  }

  /** Texts that agree once `&nbsp;` and `&amp;` are decoded decode alike. */
  lemma SameAfterAmpersands(s: string, t: string)
    requires ReplaceAll(ReplaceAll(s, "&nbsp;", " "), "&amp;", "&")
          == ReplaceAll(ReplaceAll(t, "&nbsp;", " "), "&amp;", "&")
    ensures DecodeEntities(s) == DecodeEntities(t)
  {
  }

  lemma DoubleEscapeRegroup(x: string, y: string)
    ensures x + "&amp;lt;" + y == x + "&amp;" + ("lt;" + y)
    ensures x + "&" + ("lt;" + y) == x + "&lt;" + y
  {
    assert "&amp;lt;" == "&amp;" + "lt;";
    assert "&lt;" == "&" + "lt;";
  }

  /** Double escaping is undone: `&amp;` is decoded before `&lt;`, so the
      `&` it yields starts an entity that the next pass decodes. */
  lemma DecodesDoubleEscapedLt(x: string, y: string)
    requires '&' !in x && '&' !in y
    ensures DecodeEntities(x + "&amp;lt;" + y) == x + "<" + y
  {
    var s := x + "&amp;lt;" + y;
    var t := x + "&lt;" + y;
    assert ReplaceAll(ReplaceAll(s, "&nbsp;", " "), "&amp;", "&") == t by {
      DoubleEscapeRegroup(x, y);
      PassSkipsEntity(x, "&amp;", "lt;" + y, "&nbsp;", " ");
      PassDecodesEntity(x, "&amp;", "lt;" + y, '&');
    }
    assert ReplaceAll(ReplaceAll(t, "&nbsp;", " "), "&amp;", "&") == t by {
      PassSkipsEntity(x, "&lt;", y, "&nbsp;", " ");
      PassSkipsEntity(x, "&lt;", y, "&amp;", "&");
    }
    SameAfterAmpersands(s, t);
    DecodesLt(x, y);
  }

  /** Text with no markup and no entities keeps every visible character:
      `stripHtml` only collapses and trims its whitespace. */
  lemma StripHtmlPlainText(s: string)
    requires '<' !in s && '&' !in s
    ensures StripHtml(s) == Trim(Collapse(s))
    ensures Visible(StripHtml(s)) == Visible(s)
  {
  }

  /** A decoding pass for pattern `p` steps over an entity `e` that differs
      from `p` in its second character, after `&`-free text, and carries on
      with the rest. */
  lemma PassStepsOverEntity(x: string, e: string, rest: string, p: string, rep: string)
    requires |p| >= 2 && |e| >= 2 && p[0] == '&' && e[0] == '&' && e[1] != p[1]
    requires '&' !in x && '&' !in e[1..]
    ensures ReplaceAll(x + e + rest, p, rep) == x + e + ReplaceAll(rest, p, rep)
  {
    var t := e[1..];
    Regroup(x, e, t, rest);
    ReplaceAllSkips(x, [e[0]] + (t + rest), p, rep);
    assert |t + rest| + 1 >= |p| ==> ([e[0]] + (t + rest))[..|p|][1] != p[1];
    ReplaceAllMisses(e[0], t + rest, p, rep);
    ReplaceAllSkips(t, rest, p, rep);
    Regroup(x, e, t, ReplaceAll(rest, p, rep));
  }

  /** An entity split into its `&` and the rest, regrouped with the text around it. */
  lemma Regroup(x: string, e: string, t: string, d: string)
    requires e != [] && t == e[1..]
    ensures x + ([e[0]] + (t + d)) == x + e + d
  {
    assert e == [e[0]] + t;
  }

  /** The pass for entity `e` decodes an occurrence after `&`-free text and
      carries on with the rest. */
  lemma PassDecodesEntityThen(x: string, e: string, rest: string, c: char)
    requires e != [] && e[0] !in x
    ensures ReplaceAll(x + e + rest, e, [c]) == x + [c] + ReplaceAll(rest, e, [c])
  {
    Seqs.ConcatAssoc(x, e, rest);
    ReplaceAllSkips(x, e + rest, e, [c]);
    ReplaceAllHits(rest, e, [c]);
    Seqs.ConcatAssoc(x, [c], ReplaceAll(rest, e, [c]));
  }

  /** The first two passes leave `x&lt;t&gt;y` alone. */
  lemma EscapedMarkupPassSkips(x: string, t: string, y: string, p: string, rep: string)
    requires p == "&nbsp;" || p == "&amp;"
    requires '&' !in x && '&' !in t && '&' !in y
    ensures ReplaceAll(x + "&lt;" + (t + "&gt;" + y), p, rep) == x + "&lt;" + (t + "&gt;" + y)
  {
    PassStepsOverEntity(x, "&lt;", t + "&gt;" + y, p, rep);
    PassSkipsEntity(t, "&gt;", y, p, rep);
  }

  /** The `&lt;` pass turns `x&lt;t&gt;y` into `x<t&gt;y`. */
  lemma EscapedMarkupPassLt(x: string, t: string, y: string)
    requires '&' !in x && '&' !in t && '&' !in y
    ensures ReplaceAll(x + "&lt;" + (t + "&gt;" + y), "&lt;", "<") == (x + "<" + t) + "&gt;" + y
  {
    PassDecodesEntityThen(x, "&lt;", t + "&gt;" + y, '<');
    PassSkipsEntity(t, "&gt;", y, "&lt;", "<");
    Seqs.ConcatAssoc(x + "<", t + "&gt;", y);
    Seqs.ConcatAssoc(x + "<", t, "&gt;");
  }

  /** Escaped markup is decoded to the markup it spells. */
  lemma DecodesEscapedMarkup(x: string, t: string, y: string)
    requires '&' !in x && '&' !in t && '&' !in y
    ensures DecodeEntities(x + "&lt;" + t + "&gt;" + y) == x + "<" + t + ">" + y
  {
    var u := t + "&gt;" + y;
    var s0 := x + "&lt;" + u;
    assert x + "&lt;" + t + "&gt;" + y == s0;
    EscapedMarkupPassSkips(x, t, y, "&nbsp;", " ");
    var s1 := ReplaceAll(s0, "&nbsp;", " ");
    EscapedMarkupPassSkips(x, t, y, "&amp;", "&");
    var s2 := ReplaceAll(s1, "&amp;", "&");
    EscapedMarkupPassLt(x, t, y);
    var s3 := ReplaceAll(s2, "&lt;", "<");
    var v := x + "<" + t;
    assert s3 == v + "&gt;" + y;
    PassDecodesEntity(v, "&gt;", y, '>');
    var s4 := ReplaceAll(s3, "&gt;", ">");
    assert s4 == x + "<" + t + ">" + y;
    assert '&' !in s4;
  }

  /** Text with no whitespace at all is already tidy. */
  lemma SolidTextTidy(s: string)
    requires NoWhitespace(s)
    ensures Trim(Collapse(s)) == s
  {
    TidyTextFixed(s);
  }

  /** Collapsing and trimming leave tidy text alone. */
  lemma TidyTextFixed(s: string)
    requires Collapsed(s) && IsTrimmed(s)
    ensures Trim(Collapse(s)) == s
  {
    TrimTrimmed(s);
  }

  /** `stripHtml` is its three stages in sequence. */
  lemma StripHtmlStages(html: string, untagged: string, decoded: string, plain: string)
    requires html != []
    requires RemoveTags(html) == untagged
    requires DecodeEntities(untagged) == decoded
    requires Trim(Collapse(decoded)) == plain
    ensures StripHtml(html) == plain
  {
  }

  /** Tags are removed before entities are decoded, so escaped markup with
      no whitespace survives as literal markup. */
  lemma EscapedMarkupKept(x: string, t: string, y: string)
    requires '&' !in x && '&' !in t && '&' !in y
    requires '<' !in x && '<' !in t && '<' !in y
    requires NoWhitespace(x) && NoWhitespace(t) && NoWhitespace(y)
    ensures StripHtml(x + "&lt;" + t + "&gt;" + y) == x + "<" + t + ">" + y
  {
    var html := x + "&lt;" + t + "&gt;" + y;
    var plain := x + "<" + t + ">" + y;
    assert '<' !in html;
    DecodesEscapedMarkup(x, t, y);
    NoWhitespaceConcat(x, "<");
    NoWhitespaceConcat(x + "<", t);
    NoWhitespaceConcat(x + "<" + t, ">");
    NoWhitespaceConcat(x + "<" + t + ">", y);
    SolidTextTidy(plain);
    StripHtmlStages(html, html, plain, plain);
  }

  /** The worked case: `&lt;b&gt;` shows as the literal text `<b>`. */
  lemma EscapedTagKept()
    ensures StripHtml("&lt;b&gt;") == "<b>"
  {
    assert "" + "&lt;" + "b" + "&gt;" + "" == "&lt;b&gt;";
    assert "" + "<" + "b" + ">" + "" == "<b>";
    EscapedMarkupKept("", "b", "");
  }

  /** `&amp;` is decoded first, so a double-escaped `&lt;` still becomes `<`. */
  lemma AmpersandDecodedFirst()
    ensures StripHtml("&amp;lt;") == "<"
  {
    assert "" + "&amp;lt;" + "" == "&amp;lt;";
    assert "" + "<" + "" == "<";
    DecodesDoubleEscapedLt("", "");
    assert '<' !in "&amp;lt;";
    SolidTextTidy("<");
    StripHtmlStages("&amp;lt;", "&amp;lt;", "<", "<");
  }

  lemma ClosingTagUntagged()
    ensures RemoveTags("</p>") == " "
  {
    assert "<" + "/p" + ">" + "" == "</p>";
    RemoveTagsReplacesTag("/p", "");
  }

  lemma ParagraphUntagged(w: string)
    requires '<' !in w
    ensures RemoveTags("<p>" + w + "</p>") == " " + w + " "
  {
    assert "<p>" + w + "</p>" == "<" + "p" + ">" + (w + "</p>");
    RemoveTagsReplacesTag("p", w + "</p>");
    RemoveTagsKeepsText(w, "</p>");
    ClosingTagUntagged();
  }

  lemma PaddedWordCollapsed(w: string)
    requires w != [] && NoWhitespace(w)
    ensures Collapsed(" " + w + " ")
  {
    var s := " " + w + " ";
    forall i | 0 < i < |s| - 1
      ensures !IsWhitespace(s[i])
    {
      assert s[i] == w[i - 1];
    }
  }

  lemma PaddedWordTrimmed(w: string)
    requires w != [] && NoWhitespace(w)
    ensures Trim(" " + w + " ") == w
  {
    assert " " + w + " " == " " + (w + " ");
    TrimStartRun(" ", w + " ");
    TrimEndRun(w, " ");
  }

  /** A paragraph holding one word yields that word: the tags become
      spaces, which the final trim removes. */
  lemma TagsBecomeSpaces(w: string)
    requires w != [] && NoWhitespace(w)
    requires '<' !in w && '&' !in w
    ensures StripHtml("<p>" + w + "</p>") == w
  {
    var padded := " " + w + " ";
    ParagraphUntagged(w);
    assert '&' !in padded;
    PaddedWordCollapsed(w);
    assert Collapse(padded) == padded;
    PaddedWordTrimmed(w);
    StripHtmlStages("<p>" + w + "</p>", padded, padded, w);
  }

  /** Two words with one space between them: the only whitespace is that space. */
  lemma SpacedWords(x: string, y: string)
    requires x != [] && y != [] && NoWhitespace(x) && NoWhitespace(y)
    ensures Collapsed(x + " " + y) && IsTrimmed(x + " " + y)
  {
    var s := x + " " + y;
    forall i | 0 <= i < |s| && i != |x|
      ensures !IsWhitespace(s[i])
    {
      if i < |x| { assert s[i] == x[i]; } else { assert s[i] == y[i - |x| - 1]; }
    }
  }

  /** Two words with one space between them are already tidy. */
  lemma SpacedWordsTidy(x: string, y: string)
    requires x != [] && y != [] && NoWhitespace(x) && NoWhitespace(y)
    ensures Trim(Collapse(x + " " + y)) == x + " " + y
  {
    SpacedWords(x, y);
    TidyTextFixed(x + " " + y);
  }

  /** A tag between two runs of text becomes one space between them. */
  lemma WordsUntagged(x: string, t: string, y: string)
    requires '<' !in x && '<' !in y && '>' !in t
    ensures RemoveTags(x + ("<" + t + ">" + y)) == x + (" " + y)
  {
    RemoveTagsKeepsText(x, "<" + t + ">" + y);
    RemoveTagsReplacesTag(t, y);
  }

  /** A tag between two words leaves exactly one space between them,
      whatever the tag holds. */
  lemma TagSeparatesWords(x: string, t: string, y: string)
    requires x != [] && y != [] && NoWhitespace(x) && NoWhitespace(y)
    requires '<' !in x && '<' !in y && '&' !in x && '&' !in y
    requires '>' !in t
    ensures StripHtml(x + "<" + t + ">" + y) == x + " " + y
  {
    var html := x + "<" + t + ">" + y;
    var plain := x + " " + y;
    assert html == x + ("<" + t + ">" + y);
    assert plain == x + (" " + y);
    WordsUntagged(x, t, y);
    assert '&' !in plain;
    SpacedWordsTidy(x, y);
    StripHtmlStages(html, plain, plain, plain);
  }

  /** A word has no whitespace to collapse. */
  lemma WordCollapsed(y: string)
    requires NoWhitespace(y)
    ensures Collapse(y) == y
  {
    assert Collapsed(y);
  }

  /** A whitespace run before a word collapses to one plain space. */
  lemma RunBeforeWordCollapsed(w: string, y: string)
    requires NoWhitespace(y)
    requires w != [] && AllWhitespace(w)
    ensures Collapse(w + y) == " " + y
  {
    assert y == [] || !IsWhitespace(y[0]);
    CollapseRun(w, y);
    WordCollapsed(y);
  }

  /** Any whitespace run between two words collapses to one plain space. */
  lemma GapCollapsed(x: string, w: string, y: string)
    requires NoWhitespace(x) && NoWhitespace(y)
    requires w != [] && AllWhitespace(w)
    ensures Collapse(x + w + y) == x + " " + y
  {
    Seqs.ConcatAssoc(x, w, y);
    CollapseKeepsWord(x, w + y);
    RunBeforeWordCollapsed(w, y);
    Seqs.ConcatAssoc(x, " ", y);
  }

  /** Whitespace of any kind and length between two words leaves exactly
      one space between them. */
  lemma WhitespaceSeparatesWords(x: string, w: string, y: string)
    requires x != [] && y != [] && NoWhitespace(x) && NoWhitespace(y)
    requires '<' !in x && '<' !in y && '&' !in x && '&' !in y
    requires w != [] && AllWhitespace(w)
    ensures StripHtml(x + w + y) == x + " " + y
  {
    var s := x + w + y;
    var plain := x + " " + y;
    assert '<' !in w && '&' !in w;
    assert '<' !in s && '&' !in s;
    GapCollapsed(x, w, y);
    SpacedWordsTidy(x, y);
    StripHtmlStages(s, s, s, plain);
  }

  /** The preview length: shorter when the title is long. */
  function PreviewLimit(title: string): (n: nat)
    ensures |title| > 30 ==> n == 80
    ensures |title| <= 30 ==> n == 120
  {
    if |title| > 30 then 80 else 120
  }

  /** The card's preview text: the plain text, cut to the limit and marked
      with `...` when it is longer. */
  function PreviewText(title: string, content: string): (r: string)
    ensures var plain := StripHtml(content);
            var limit := PreviewLimit(title);
            && |r| <= limit + 3
            && (|plain| <= limit ==> r == plain)
            && (|plain| > limit ==> |r| == limit + 3 && r[..limit] == plain[..limit] && r[limit..] == "...")
  {
    var plain := StripHtml(content);
    var limit := PreviewLimit(title);
    if |plain| > limit then plain[..limit] + "..." else plain
  }

  /** The tag chips shown on the card: at most the first two tags. */
  function VisibleTags(tags: seq<string>): (r: seq<string>)
    ensures |r| == if |tags| < 2 then |tags| else 2
    ensures r == tags[..|r|]
  {
    if |tags| < 2 then tags else tags[..2]
  }

  /** The `+N` badge: present exactly when some tags are not shown, counting them. */
  function MoreBadge(tags: seq<string>): (r: Option<nat>)
    ensures r.Some? <==> |tags| > 2
    ensures r.Some? ==> |VisibleTags(tags)| + r.value == |tags|
  {
    if |tags| > 2 then Some(|tags| - 2) else None
  }
}
