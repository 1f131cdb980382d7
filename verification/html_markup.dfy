/** The conversion of HTML formatting into yWriter's raw markup that the
    HTML readers apply to a whole document before parsing it
    (src/pywriter/html/html_file.py, lines 66-95): everything is put on one
    line, runs of spaces collapse, the italic and bold tags become `[i]`,
    `[/i]`, `[b]` and `[/b]`, and a closing mark directly followed by an
    opening one of the same kind is dropped. */
module HtmlMarkup {
  import opened Wrappers
  import opened Strings

  // ---------------------------------------------------------------------
  // What a replacement can and cannot bring in

  /** The first `k` characters after a replacement are either the text's own
      first `k` characters, or they hold the start of an inserted `repl`. */
  lemma {:induction false} ReplacePrefix(s: string, pat: string, repl: string, k: nat)
    requires |pat| > 0 && |repl| > 0 && k <= |Replace(s, pat, repl)|
    ensures (k <= |s| && Replace(s, pat, repl)[..k] == s[..k]) || repl[0] in Replace(s, pat, repl)[..k]
    decreases |s|
  {
    var out := Replace(s, pat, repl);
    if |s| < |pat| {
    } else if s[..|pat|] == pat {
      if k > 0 {
        assert out[..k][0] == repl[0];
      }
    } else if k > 0 {
      var rest := Replace(s[1..], pat, repl);
      assert out == [s[0]] + rest;
      assert out[..k] == [s[0]] + rest[..k - 1];
      ReplacePrefix(s[1..], pat, repl, k - 1);
      if k - 1 <= |s[1..]| && rest[..k - 1] == s[1..][..k - 1] {
        assert s[..k] == [s[0]] + s[1..][..k - 1];
      } else {
        assert repl[0] in rest[..k - 1];
      }
    }
  }

  /** `pat` occurs nowhere in a text shorter than it. */
  lemma ShortLacks(s: string, pat: string)
    requires |s| < |pat|
    ensures !Contains(s, pat)
  {
    forall i | 0 <= i <= |s| ensures !OccursAt(s, pat, i) { }
  }

  /** At or after `|a|`, the occurrences in `a + b` are those in `b`. */
  lemma OccursAfter(a: string, b: string, q: string, i: int)
    requires |a| <= i
    ensures OccursAt(a + b, q, i) <==> OccursAt(b, q, i - |a|)
  {
    if i + |q| <= |a + b| {
      assert (a + b)[i..i + |q|] == b[i - |a|..i - |a| + |q|];
    }
  }

  /** An occurrence at the front of the text after a first character that
      was kept, and that cannot reach into a replacement, was there before. */
  lemma FrontOccurrence(s: string, pat: string, repl: string, q: string)
    requires |pat| > 0 && |repl| > 0 && |q| > 0 && |s| > 0 && repl[0] !in q
    ensures OccursAt([s[0]] + Replace(s[1..], pat, repl), q, 0) ==> OccursAt(s, q, 0)
  {
    var rest := Replace(s[1..], pat, repl);
    if OccursAt([s[0]] + rest, q, 0) {
      ReplacePrefix(s[1..], pat, repl, |q| - 1);
      assert q == [s[0]] + rest[..|q| - 1];
      assert repl[0] !in rest[..|q| - 1] by {
        assert forall x | x in rest[..|q| - 1] :: x in q;
      }
      assert s[..|q|] == [s[0]] + s[1..][..|q| - 1];
    }
  }

  /** A pattern that cannot overlap its replacement is gone afterwards. */
  lemma {:induction false} ReplaceRemoves(s: string, pat: string, repl: string)
    requires |pat| > 0 && |repl| > 0 && pat[0] !in repl && repl[0] !in pat
    ensures !Contains(Replace(s, pat, repl), pat)
    decreases |s|
  {
    var out := Replace(s, pat, repl);
    if |s| < |pat| {
      ShortLacks(s, pat);
    } else if s[..|pat|] == pat {
      var rest := Replace(s[|pat|..], pat, repl);
      ReplaceRemoves(s[|pat|..], pat, repl);
      forall i | 0 <= i <= |out| ensures !OccursAt(out, pat, i) {
        if i < |repl| {
          assert out[i] == repl[i];
        } else {
          OccursAfter(repl, rest, pat, i);
        }
      }
    } else {
      var rest := Replace(s[1..], pat, repl);
      ReplaceRemoves(s[1..], pat, repl);
      forall i | 0 <= i <= |out| ensures !OccursAt(out, pat, i) {
        if i == 0 {
          FrontOccurrence(s, pat, repl, pat);
        } else {
          OccursAfter([s[0]], rest, pat, i);
        }
      }
    }
  }

  /** The part of a text after its first `n` characters lacks what the text lacks. */
  lemma LacksSuffix(s: string, n: nat, q: string)
    requires n <= |s| && !Contains(s, q)
    ensures !Contains(s[n..], q)
  {
    forall i | 0 <= i <= |s[n..]| ensures !OccursAt(s[n..], q, i) {
      if OccursAt(s[n..], q, i) {
        assert s[n..][i..i + |q|] == s[n + i..n + i + |q|];
        assert OccursAt(s, q, n + i);
      }
    }
  }

  /** A replacement that cannot overlap `q` does not bring `q` in. */
  lemma {:induction false} ReplaceKeepsOut(s: string, pat: string, repl: string, q: string)
    requires |pat| > 0 && |repl| > 0 && |q| > 0
    requires q[0] !in repl && repl[0] !in q && !Contains(s, q)
    ensures !Contains(Replace(s, pat, repl), q)
    decreases |s|
  {
    var out := Replace(s, pat, repl);
    if |s| < |pat| {
    } else if s[..|pat|] == pat {
      var rest := Replace(s[|pat|..], pat, repl);
      LacksSuffix(s, |pat|, q);
      ReplaceKeepsOut(s[|pat|..], pat, repl, q);
      forall i | 0 <= i <= |out| ensures !OccursAt(out, q, i) {
        if i < |repl| {
          assert out[i] == repl[i];
        } else {
          OccursAfter(repl, rest, q, i);
        }
      }
    } else {
      var rest := Replace(s[1..], pat, repl);
      LacksSuffix(s, 1, q);
      ReplaceKeepsOut(s[1..], pat, repl, q);
      forall i | 0 <= i <= |out| ensures !OccursAt(out, q, i) {
        if i == 0 {
          FrontOccurrence(s, pat, repl, q);
        } else {
          OccursAfter([s[0]], rest, q, i);
        }
      }
    }
  }

  /** A text in which the pattern's first character never occurs is left alone. */
  lemma {:induction false} ReplaceNoLead(s: string, pat: string, repl: string)
    requires |pat| > 0 && pat[0] !in s
    ensures Replace(s, pat, repl) == s
    decreases |s|
  {
    if |s| >= |pat| {
      ReplaceNoLead(s[1..], pat, repl);
    }
  }

  /** A front part without the pattern's first character passes through. */
  lemma {:induction false} ReplaceAfter(a: string, b: string, pat: string, repl: string)
    requires |pat| > 0 && pat[0] !in a
    ensures Replace(a + b, pat, repl) == a + Replace(b, pat, repl)
    decreases |a|
  {
    if |a| > 0 {
      var s := a + b;
      assert s[0] == a[0];
      assert s[1..] == a[1..] + b;
      ReplaceAfter(a[1..], b, pat, repl);
      assert a == [a[0]] + a[1..];
    } else {
      assert a + b == b;
    }
  }

  /** The pattern at the very front is replaced. */
  lemma ReplaceFront(pat: string, b: string, repl: string)
    requires |pat| > 0
    ensures Replace(pat + b, pat, repl) == repl + Replace(b, pat, repl)
  {
    var s := pat + b;
    assert s[..|pat|] == pat;
    assert s[|pat|..] == b;
  }

  // ---------------------------------------------------------------------
  // One line, single spaces

  /** Line 67-69: line feeds, carriage returns and tabs become spaces. */
  function OneLine(text: string): (r: string)
    ensures '\n' !in r && '\r' !in r && '\t' !in r
    ensures forall c | c != ' ' && c !in text :: c !in r
  {
    var a := Replace(text, "\n", " ");
    var b := Replace(a, "\r", " ");
    var r := Replace(b, "\t", " ");
    ReplaceRemovesChar(text, '\n', " ");
    ReplaceRemovesChar(a, '\r', " ");
    ReplaceRemovesChar(b, '\t', " ");
    ReplaceKeepsAbsent(a, "\r", " ", '\n');
    ReplaceKeepsAbsent(b, "\t", " ", '\n');
    ReplaceKeepsAbsent(b, "\t", " ", '\r');
    forall c | c != ' ' && c !in text ensures c !in r {
      ReplaceKeepsAbsent(text, "\n", " ", c);
      ReplaceKeepsAbsent(a, "\r", " ", c);
      ReplaceKeepsAbsent(b, "\t", " ", c);
    }
    r
  }

  /** Stripping brings in no character. */
  lemma StripKeepsAbsent(s: string, c: char)
    requires c !in s
    ensures c !in Strip(s)
  {
    var l := LStrip(s);
    assert forall k | 0 <= k < |l| :: l[k] == s[|s| - |l| + k];
    var r := RStrip(l);
    assert forall k | 0 <= k < |r| :: r[k] == l[k];
  }

  /** One round of the collapse loop brings in no character. */
  lemma CollapseStepKeepsAbsent(s: string, c: char)
    requires c !in s && Contains(s, "  ")
    ensures c !in Strip(Replace(s, "  ", " "))
  {
    var i :| 0 <= i <= |s| && OccursAt(s, "  ", i);
    assert s[i] == s[i..i + 2][0] == ' ';
    ReplaceKeepsAbsent(s, "  ", " ", c);
    StripKeepsAbsent(Replace(s, "  ", " "), c);
  }

  /** Lines 70-71: as long as two spaces follow each other, each pair
      becomes one space and the ends are stripped. */
  function Collapse(s: string): (r: string)
    ensures !Contains(r, "  ")
    ensures |r| <= |s|
    ensures forall c | c !in s :: c !in r
    decreases |s|
  {
    if Contains(s, "  ") then
      var t := Strip(Replace(s, "  ", " "));
      ReplaceShrinks(s, "  ", " ");
      var r := Collapse(t);
      forall c | c !in s ensures c !in t {
        CollapseStepKeepsAbsent(s, c);
      }
      r
    else s
  }

  /** A text without double spaces is left as it is, so collapsing twice is
      collapsing once. */
  lemma CollapseIdempotent(s: string)
    ensures Collapse(Collapse(s)) == Collapse(s)
  {
  }

  /** Collapsing keeps a text that has no double space. */
  lemma CollapseKeeps(s: string)
    requires !Contains(s, "  ")
    ensures Collapse(s) == s
  {
  }

  // ---------------------------------------------------------------------
  // Tags to markup

  /** A list of literal replacements, applied in order. */
  function ReplaceAll(s: string, pairs: seq<(string, string)>): (r: string)
    requires forall k | 0 <= k < |pairs| :: |pairs[k].0| > 0
    decreases |pairs|
  {
    if |pairs| == 0 then s
    else
      var last := pairs[|pairs| - 1];
      Replace(ReplaceAll(s, pairs[..|pairs| - 1]), last.0, last.1)
  }

  /** Replacements of HTML tags by markup: every tag starts with `<` and
      holds no `[`, every mark starts with `[` and holds no `<`. */
  predicate TagsToMarks(pairs: seq<(string, string)>) {
    forall k | 0 <= k < |pairs| ::
      && |pairs[k].0| > 0 && pairs[k].0[0] == '<' && '[' !in pairs[k].0
      && |pairs[k].1| > 0 && pairs[k].1[0] == '[' && '<' !in pairs[k].1
  }

  /** After tag-to-mark replacements, none of their tags is left. */
  lemma {:induction false} ReplaceAllRemoves(s: string, pairs: seq<(string, string)>)
    requires TagsToMarks(pairs)
    ensures forall k | 0 <= k < |pairs| :: !Contains(ReplaceAll(s, pairs), pairs[k].0)
    decreases |pairs|
  {
    if |pairs| > 0 {
      var init := pairs[..|pairs| - 1];
      var last := pairs[|pairs| - 1];
      var before := ReplaceAll(s, init);
      ReplaceAllRemoves(s, init);
      ReplaceRemoves(before, last.0, last.1);
      forall k | 0 <= k < |init| ensures !Contains(ReplaceAll(s, pairs), pairs[k].0) {
        assert init[k] == pairs[k];
        ReplaceKeepsOut(before, last.0, last.1, pairs[k].0);
      }
    }
  }

  /** Replacements whose marks lack a character do not bring it in. */
  lemma {:induction false} ReplaceAllKeepsAbsent(s: string, pairs: seq<(string, string)>, c: char)
    requires forall k | 0 <= k < |pairs| :: |pairs[k].0| > 0 && c !in pairs[k].1
    requires c !in s
    ensures c !in ReplaceAll(s, pairs)
    decreases |pairs|
  {
    if |pairs| > 0 {
      var last := pairs[|pairs| - 1];
      ReplaceAllKeepsAbsent(s, pairs[..|pairs| - 1], c);
      ReplaceKeepsAbsent(ReplaceAll(s, pairs[..|pairs| - 1]), last.0, last.1, c);
    }
  }

  /** Lines 74-85: the literal italic and bold tags, in the order the
      original replaces them. */
  const LiteralTags: seq<(string, string)> := [
    ("<i>", "[i]"), ("<I>", "[i]"), ("</i>", "[/i]"), ("</I>", "[/i]"),
    ("</em>", "[/i]"), ("</EM>", "[/i]"),
    ("<b>", "[b]"), ("<B>", "[b]"), ("</b>", "[/b]"), ("</B>", "[/b]"),
    ("</strong>", "[/b]"), ("</STRONG>", "[/b]")]

  /** After lines 74-85 none of the twelve literal tags is left. */
  function Literal(s: string): (r: string)
    ensures forall k | 0 <= k < |LiteralTags| :: !Contains(r, LiteralTags[k].0)
    ensures forall c | c !in s && c !in "[]/ib" :: c !in r
  {
    assert TagsToMarks(LiteralTags);
    ReplaceAllRemoves(s, LiteralTags);
    forall c | c !in s && c !in "[]/ib" ensures c !in ReplaceAll(s, LiteralTags) {
      ReplaceAllKeepsAbsent(s, LiteralTags, c);
    }
    ReplaceAll(s, LiteralTags)
  }

  /** A tag in the simple form `<…>`: one `<`, at the front, and one `>`, at the end. */
  predicate SimpleTag(t: string) {
    && |t| >= 2 && t[0] == '<' && t[|t| - 1] == '>'
    && (forall k | 1 <= k < |t| :: t[k] != '<')
    && (forall k | 0 <= k < |t| - 1 :: t[k] != '>')
  }

  /** Where one simple tag stands, another simple tag is found only if it is the same. */
  lemma SimpleTagsApart(t: string, u: string, b: string)
    requires SimpleTag(t) && SimpleTag(u) && t != u
    ensures |u| > |t + b| || (t + b)[..|u|] != u
  {
    var s := t + b;
    if |u| <= |s| {
      if |u| == |t| {
        assert s[..|u|] == t;
      } else if |u| < |t| {
        assert s[..|u|][|u| - 1] == t[|u| - 1] != '>' == u[|u| - 1];
      } else {
        assert s[..|u|][|t| - 1] == t[|t| - 1] == '>' != u[|t| - 1];
      }
    }
  }

  /** One replacement applied to a text with a single simple tag in it. */
  lemma ReplaceAtTag(a: string, t: string, b: string, u: string, m: string)
    requires '<' !in a && '<' !in b && SimpleTag(t) && SimpleTag(u)
    ensures Replace(a + t + b, u, m) == if u == t then a + m + b else a + t + b
  {
    assert a + t + b == a + (t + b);
    ReplaceAfter(a, t + b, u, m);
    if u == t {
      ReplaceFront(t, b, m);
      ReplaceNoLead(b, u, m);
      assert a + (m + b) == a + m + b;
    } else {
      SimpleTagsApart(t, u, b);
      var s := t + b;
      if |s| >= |u| {
        assert s[1..] == t[1..] + b;
        assert '<' !in t[1..];
        ReplaceNoLead(s[1..], u, m);
        assert [s[0]] + s[1..] == s;
      }
    }
  }

  /** Replacements of simple tags by marks without `<`. */
  predicate SimpleTagsToMarks(pairs: seq<(string, string)>) {
    forall k | 0 <= k < |pairs| :: SimpleTag(pairs[k].0) && '<' !in pairs[k].1
  }

  /** Replacements whose tags all start with `<` leave a text without `<` alone. */
  lemma {:induction false} ReplaceAllNoTag(s: string, pairs: seq<(string, string)>)
    requires SimpleTagsToMarks(pairs) && '<' !in s
    ensures ReplaceAll(s, pairs) == s
    decreases |pairs|
  {
    if |pairs| > 0 {
      ReplaceAllNoTag(s, pairs[..|pairs| - 1]);
      ReplaceNoLead(s, pairs[|pairs| - 1].0, pairs[|pairs| - 1].1);
    }
  }

  /** Replacements of other tags leave a text with a single simple tag alone. */
  lemma {:induction false} ReplaceAllOtherTags(a: string, t: string, b: string, pairs: seq<(string, string)>)
    requires SimpleTagsToMarks(pairs) && '<' !in a && '<' !in b && SimpleTag(t)
    requires forall k | 0 <= k < |pairs| :: pairs[k].0 != t
    ensures ReplaceAll(a + t + b, pairs) == a + t + b
    decreases |pairs|
  {
    if |pairs| > 0 {
      ReplaceAllOtherTags(a, t, b, pairs[..|pairs| - 1]);
      ReplaceAtTag(a, t, b, pairs[|pairs| - 1].0, pairs[|pairs| - 1].1);
    }
  }

  /** Replacing in two runs is replacing once with both lists. */
  lemma {:induction false} ReplaceAllConcat(s: string, xs: seq<(string, string)>, ys: seq<(string, string)>)
    requires forall k | 0 <= k < |xs| :: |xs[k].0| > 0
    requires forall k | 0 <= k < |ys| :: |ys[k].0| > 0
    ensures ReplaceAll(s, xs + ys) == ReplaceAll(ReplaceAll(s, xs), ys)
    decreases |ys|
  {
    if |ys| == 0 {
      assert xs + ys == xs;
    } else {
      assert (xs + ys)[..|xs + ys| - 1] == xs + ys[..|ys| - 1];
      ReplaceAllConcat(s, xs, ys[..|ys| - 1]);
    }
  }

  /** A single simple tag becomes the mark of the first pair that names it. */
  lemma ReplaceAllTag(a: string, b: string, pairs: seq<(string, string)>, k: nat)
    requires SimpleTagsToMarks(pairs) && '<' !in a && '<' !in b && k < |pairs|
    requires forall j | 0 <= j < k :: pairs[j].0 != pairs[k].0
    ensures ReplaceAll(a + pairs[k].0 + b, pairs) == a + pairs[k].1 + b
  {
    var t, m := pairs[k].0, pairs[k].1;
    var before, after := pairs[..k], pairs[k + 1..];
    assert pairs == before + [pairs[k]] + after;
    ReplaceAllConcat(a + t + b, before + [pairs[k]], after);
    ReplaceAllConcat(a + t + b, before, [pairs[k]]);
    ReplaceAllOtherTags(a, t, b, before);
    assert ReplaceAll(a + t + b, [pairs[k]]) == Replace(ReplaceAll(a + t + b, []), t, m);
    ReplaceAtTag(a, t, b, t, m);
    ReplaceAllNoTag(a + m + b, after);
  }

  /** Each of the twelve tags is a simple tag, and each appears once. */
  lemma LiteralTagsSimple()
    ensures SimpleTagsToMarks(LiteralTags)
    ensures forall j, k | 0 <= j < k < |LiteralTags| :: LiteralTags[j].0 != LiteralTags[k].0
  {
  }

  /** Lines 74-85, tag by tag: in a text whose only tag is one of the twelve,
      that tag becomes its mark and nothing else changes. */
  lemma LiteralTag(a: string, b: string, k: nat)
    requires '<' !in a && '<' !in b && k < |LiteralTags|
    ensures Literal(a + LiteralTags[k].0 + b) == a + LiteralTags[k].1 + b
  {
    LiteralTagsSimple();
    ReplaceAllTag(a, b, LiteralTags, k);
  }

  /** For instance, an opening bold tag becomes `[b]`. */
  lemma LiteralBold(a: string, b: string)
    requires '<' !in a && '<' !in b
    ensures Literal(a + "<b>" + b) == a + "[b]" + b
  {
    LiteralTag(a, b, 6);
  }

  /** And a closing upper-case emphasis tag becomes `[/i]`. */
  lemma LiteralEmClose(a: string, b: string)
    requires '<' !in a && '<' !in b
    ensures Literal(a + "</EM>" + b) == a + "[/i]" + b
  {
    LiteralTag(a, b, 5);
  }

  /** The first `>` at or after `i`, as long as no line feed comes first:
      where `.*?>` ends in Python's `re`, whose `.` is anything but a line
      feed. */
  function TagEnd(s: string, i: nat): (r: Option<nat>)
    ensures r.Some? ==> i <= r.value < |s| && s[r.value] == '>'
    ensures r.Some? ==> forall k | i <= k < r.value :: s[k] != '>' && s[k] != '\n'
    decreases |s| - i
  {
    if i >= |s| then None
    else if s[i] == '>' then Some(i)
    else if s[i] == '\n' then None
    else TagEnd(s, i + 1)
  }

  /** `re.sub(lead + '.*?>', repl, s)`: left to right, every `lead` that
      has a `>` after it on the same line, up to that `>`, becomes `repl`. */
  function SubOpenTag(s: string, lead: string, repl: string): (r: string)
    requires |lead| > 0
    ensures forall c | c !in s && c !in repl :: c !in r
    decreases |s|
  {
    if |s| < |lead| then s
    else if s[..|lead|] == lead && TagEnd(s, |lead|).Some? then
      repl + SubOpenTag(s[TagEnd(s, |lead|).value + 1..], lead, repl)
    else [s[0]] + SubOpenTag(s[1..], lead, repl)
  }

  /** Lines 86-89: opening emphasis and strong tags, with any attributes,
      become `[i]` and `[b]`. */
  function Emphasis(s: string): (r: string)
    ensures forall c | c !in s && c !in "[]ib" :: c !in r
  {
    SubOpenTag(SubOpenTag(SubOpenTag(SubOpenTag(s, "<em", "[i]"), "<EM", "[i]"), "<strong", "[b]"), "<STRONG", "[b]")
  }

  /** `TagEnd` finds the first `>` of a line-feed-free stretch. */
  lemma {:induction false} TagEndAt(s: string, i: nat, j: nat)
    requires i <= j < |s| && s[j] == '>'
    requires forall k | i <= k < j :: s[k] != '>' && s[k] != '\n'
    ensures TagEnd(s, i) == Some(j)
    decreases j - i
  {
    if i < j {
      TagEndAt(s, i + 1, j);
    }
  }

  /** A text without the lead's first character is left alone. */
  lemma {:induction false} SubOpenTagNoLead(s: string, lead: string, repl: string)
    requires |lead| > 0 && lead[0] !in s
    ensures SubOpenTag(s, lead, repl) == s
    decreases |s|
  {
    if |s| >= |lead| {
      assert s[..|lead|][0] == s[0];
      SubOpenTagNoLead(s[1..], lead, repl);
      assert [s[0]] + s[1..] == s;
    }
  }

  /** A front part without the lead's first character passes through. */
  lemma {:induction false} SubOpenTagAfter(a: string, b: string, lead: string, repl: string)
    requires |lead| > 0 && lead[0] !in a
    ensures SubOpenTag(a + b, lead, repl) == a + SubOpenTag(b, lead, repl)
    decreases |a|
  {
    var s := a + b;
    if |a| == 0 {
      assert s == b;
    } else if |s| < |lead| {
      assert |b| < |lead|;
    } else {
      assert s[..|lead|][0] == a[0];
      assert s[1..] == a[1..] + b;
      SubOpenTagAfter(a[1..], b, lead, repl);
      assert [a[0]] + a[1..] == a;
    }
  }

  /** A tag that opens with the lead, up to its `>`, becomes `repl`. */
  lemma SubOpenTagFront(lead: string, attrs: string, b: string, repl: string)
    requires |lead| > 0 && '>' !in attrs && '\n' !in attrs
    ensures SubOpenTag(lead + attrs + ">" + b, lead, repl) == repl + SubOpenTag(b, lead, repl)
  {
    var s := lead + attrs + ">" + b;
    var j := |lead| + |attrs|;
    assert s[..|lead|] == lead;
    assert s[j] == '>';
    forall k | |lead| <= k < j ensures s[k] != '>' && s[k] != '\n' {
      assert s[k] == attrs[k - |lead|];
    }
    TagEndAt(s, |lead|, j);
    assert s[j + 1..] == b;
  }

  /** A text that does not open with the lead and has no other lead
      character is left alone. */
  lemma SubOpenTagMiss(s: string, lead: string, repl: string)
    requires |lead| > 0 && |s| > 0 && lead[0] !in s[1..]
    requires |s| < |lead| || s[..|lead|] != lead
    ensures SubOpenTag(s, lead, repl) == s
  {
    if |s| >= |lead| {
      SubOpenTagNoLead(s[1..], lead, repl);
      assert [s[0]] + s[1..] == s;
    }
  }

  /** Lines 86-87: in a text whose only tag is an opening emphasis tag,
      that tag, attributes and all, becomes `[i]`. */
  lemma EmphasisItalic(a: string, attrs: string, b: string)
    requires '<' !in a && '<' !in b && '>' !in attrs && '\n' !in attrs
    ensures Emphasis(a + "<em" + attrs + ">" + b) == a + "[i]" + b
  {
    var tag := "<em" + attrs + ">";
    assert a + "<em" + attrs + ">" + b == a + (tag + b);
    SubOpenTagAfter(a, tag + b, "<em", "[i]");
    assert tag + b == "<em" + attrs + ">" + b;
    SubOpenTagFront("<em", attrs, b, "[i]");
    SubOpenTagNoLead(b, "<em", "[i]");
    var r := a + "[i]" + b;
    assert a + ("[i]" + b) == r;
    assert '<' !in r;
    SubOpenTagNoLead(r, "<EM", "[i]");
    SubOpenTagNoLead(r, "<strong", "[b]");
    SubOpenTagNoLead(r, "<STRONG", "[b]");
  }

  /** Lines 88-89: likewise an opening strong tag becomes `[b]`. */
  lemma EmphasisBold(a: string, attrs: string, b: string)
    requires '<' !in a && '<' !in b && '<' !in attrs && '>' !in attrs && '\n' !in attrs
    ensures Emphasis(a + "<strong" + attrs + ">" + b) == a + "[b]" + b
  {
    var tag := "<strong" + attrs + ">";
    var t := tag + b;
    assert a + "<strong" + attrs + ">" + b == a + t;
    assert t[1..] == "strong" + attrs + ">" + b;
    assert '<' !in t[1..];
    assert t[..3] == "<st";
    SubOpenTagAfter(a, t, "<em", "[i]");
    SubOpenTagMiss(t, "<em", "[i]");
    SubOpenTagAfter(a, t, "<EM", "[i]");
    SubOpenTagMiss(t, "<EM", "[i]");
    SubOpenTagAfter(a, t, "<strong", "[b]");
    assert t == "<strong" + attrs + ">" + b;
    SubOpenTagFront("<strong", attrs, b, "[b]");
    SubOpenTagNoLead(b, "<strong", "[b]");
    var r := a + "[b]" + b;
    assert a + ("[b]" + b) == r;
    assert '<' !in r;
    SubOpenTagNoLead(r, "<STRONG", "[b]");
  }

  /** Lines 92-94: a closing mark directly followed by an opening mark of
      the same kind is dropped (the bold pair twice). */
  function Orphans(s: string): (r: string)
    ensures forall c | c !in s :: c !in r
  {
    var a := Replace(s, "[/b][b]", "");
    var b := Replace(a, "[/i][i]", "");
    forall c | c !in s ensures c !in Replace(b, "[/b][b]", "") {
      ReplaceKeepsAbsent(s, "[/b][b]", "", c);
      ReplaceKeepsAbsent(a, "[/i][i]", "", c);
      ReplaceKeepsAbsent(b, "[/b][b]", "", c);
    }
    Replace(b, "[/b][b]", "")
  }

  /** A bold run broken by a closing and reopening mark is joined again. */
  lemma OrphansJoinBold(a: string, b: string)
    requires '[' !in a && '[' !in b
    ensures Orphans(a + "[/b][b]" + b) == a + b
  {
    var bold := "[/b][b]";
    assert a + bold + b == a + (bold + b);
    ReplaceAfter(a, bold + b, bold, "");
    ReplaceFront(bold, b, "");
    ReplaceNoLead(b, bold, "");
    assert "" + b == b;
    assert Replace(a + bold + b, bold, "") == a + b;
    assert '[' !in a + b;
    ReplaceNoLead(a + b, "[/i][i]", "");
    ReplaceNoLead(a + b, bold, "");
  }

  /** So is an italic run. */
  lemma OrphansJoinItalic(a: string, b: string)
    requires '[' !in a && '[' !in b
    ensures Orphans(a + "[/i][i]" + b) == a + b
  {
    var bold := "[/b][b]";
    var italic := "[/i][i]";
    var s := a + italic + b;
    assert !Contains(s, bold) by {
      forall i | 0 <= i <= |s| ensures !OccursAt(s, bold, i) {
        if i + 7 <= |s| {
          assert s[i..i + 7][0] == s[i] && s[i..i + 7][2] == s[i + 2];
        }
      }
    }
    ReplaceAbsent(s, bold, "");
    assert s == a + (italic + b);
    ReplaceAfter(a, italic + b, italic, "");
    ReplaceFront(italic, b, "");
    ReplaceNoLead(b, italic, "");
    assert "" + b == b;
    assert Replace(s, italic, "") == a + b;
    assert '[' !in a + b;
    ReplaceNoLead(a + b, bold, "");
  }

  /** The whole conversion of lines 66-95, applied to a text from which
      the font and span tags have been removed. */
  function ConvertToYw(text: string): (r: string)
    ensures '\n' !in r && '\r' !in r && '\t' !in r
  {
    var one := OneLine(text);
    var r := Orphans(Emphasis(Literal(Collapse(one))));
    assert forall c | c in "\n\r\t" :: c !in "[]/ib";
    r
  }
}
