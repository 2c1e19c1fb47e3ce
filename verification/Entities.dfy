/** Escaping and unescaping as chains of global string replacements.

    escHtml and the XML serialiser write some characters as predefined entities (section 4.6
    of XML 1.0), one replacement pass per character; unescapeXml undoes them in six passes,
    each of which sees the output of the one before.  `Text(s, E)` is s with the characters
    of E written as entities; every pass turns such a text into another one. */
module Entities {

  /** JavaScript's s.replace(/pat/g, rep) for a literal pattern: leftmost matches, in one pass. */
  function ReplaceAll(s: string, pat: string, rep: string): string
    requires pat != ""
    decreases |s|
  {
    if s == "" then ""
    else if pat <= s then rep + ReplaceAll(s[|pat|..], pat, rep)
    else [s[0]] + ReplaceAll(s[1..], pat, rep)
  }

  function EscHtml(s: string): string {
    var a := ReplaceAll(s, "&", "&amp;");
    var b := ReplaceAll(a, "<", "&lt;");
    var c := ReplaceAll(b, ">", "&gt;");
    ReplaceAll(c, "\"", "&quot;")
  }

  // How ElementTree writes the text of an element.
  function XmlText(s: string): string {
    var a := ReplaceAll(s, "&", "&amp;");
    var b := ReplaceAll(a, "<", "&lt;");
    ReplaceAll(b, ">", "&gt;")
  }

  function UnescapeXml(s: string): string {
    var a := ReplaceAll(s, "&lt;", "<");
    var b := ReplaceAll(a, "&gt;", ">");
    var c := ReplaceAll(b, "&quot;", "\"");
    var d := ReplaceAll(c, "&apos;", "'");
    var e := ReplaceAll(d, "&#39;", "'");
    ReplaceAll(e, "&amp;", "&")
  }

  function Entity(c: char): string {
    match c
    case '<' => "&lt;"
    case '>' => "&gt;"
    case '"' => "&quot;"
    case _ => "&amp;"
  }

  predicate Escapable(c: char) {
    c in "&<>\""
  }

  function Token(c: char, E: set<char>): string {
    if c in E && Escapable(c) then Entity(c) else [c]
  }

  function Text(s: string, E: set<char>): string {
    if s == "" then "" else Token(s[0], E) + Text(s[1..], E)
  }

  lemma {:induction false} NothingEscaped(s: string)
    ensures Text(s, {}) == s
  {
    if s == "" {
    } else {
      NothingEscaped(s[1..]);
    }
  }

  // ---- One pass over one token ----

  /** A pass copies a token in which its pattern cannot begin. */
  lemma {:induction false} CopyToken(t: string, rest: string, pat: string, rep: string)
    requires pat != "" && pat[0] !in t
    ensures ReplaceAll(t + rest, pat, rep) == t + ReplaceAll(rest, pat, rep)
    decreases |t|
  {
    if t == "" {
      assert t + rest == rest;
    } else {
      assert (t + rest)[0] == t[0] && (t + rest)[1..] == t[1..] + rest;
      CopyToken(t[1..], rest, pat, rep);
      assert [t[0]] + (t[1..] + ReplaceAll(rest, pat, rep)) == t + ReplaceAll(rest, pat, rep);
    }
  }

  /** A pass copies an entity that differs from its pattern before either ends. */
  lemma {:induction false} CopyEntity(t: string, rest: string, pat: string, rep: string, d: nat)
    requires 0 < d < |t| && d < |pat| && t[d] != pat[d] && pat[0] !in t[1..]
    ensures ReplaceAll(t + rest, pat, rep) == t + ReplaceAll(rest, pat, rep)
  {
    assert (t + rest)[d] == t[d];
    assert (t + rest)[0] == t[0] && (t + rest)[1..] == t[1..] + rest;
    CopyToken(t[1..], rest, pat, rep);
    assert [t[0]] + (t[1..] + ReplaceAll(rest, pat, rep)) == t + ReplaceAll(rest, pat, rep);
  }

  lemma {:induction false} ReplaceToken(rest: string, pat: string, rep: string)
    requires pat != ""
    ensures ReplaceAll(pat + rest, pat, rep) == rep + ReplaceAll(rest, pat, rep)
  {
  }

  // ---- Passes ----

  lemma {:induction false} EscapeToken(c: char, rest: string, E: set<char>, x: char)
    requires Escapable(x) && x !in E && (x == '&' ==> E == {})
    ensures ReplaceAll(Token(c, E) + rest, [x], Entity(x)) == Token(c, E + {x}) + ReplaceAll(rest, [x], Entity(x))
  {
    if c == x {
      ReplaceToken(rest, [x], Entity(x));
    } else {
      CopyToken(Token(c, E), rest, [x], Entity(x));
    }
  }

  /** A pass that escapes x, after which no entity may be looked into: & has to come first. */
  lemma {:induction false} EscapePass(s: string, E: set<char>, x: char)
    requires Escapable(x) && x !in E && (x == '&' ==> E == {})
    ensures ReplaceAll(Text(s, E), [x], Entity(x)) == Text(s, E + {x})
    decreases |s|
  {
    if s == "" {
    } else {
      EscapePass(s[1..], E, x);
      EscapeToken(s[0], Text(s[1..], E), E, x);
    }
  }

  // Where the patterns of unescapeXml and an entity first differ.
  function Differ(t: string, pat: string): nat {
    if |t| > 1 && |pat| > 1 && t[1] != pat[1] then 1 else 2
  }

  predicate KnownPattern(pat: string) {
    pat in {"&lt;", "&gt;", "&quot;", "&apos;", "&#39;", "&amp;"}
  }

  lemma {:induction false} EntitiesDiffer(c: char, pat: string)
    requires Escapable(c) && KnownPattern(pat) && Entity(c) != pat
    ensures var t, d := Entity(c), Differ(Entity(c), pat);
            0 < d < |t| && d < |pat| && t[d] != pat[d] && pat[0] == '&' && '&' !in t[1..]
  {
  }

  /** A pass for an entity copies every token but that entity. */
  lemma {:induction false} OtherToken(c: char, rest: string, E: set<char>, pat: string, rep: string)
    requires KnownPattern(pat) && '&' in E && Token(c, E) != pat
    ensures ReplaceAll(Token(c, E) + rest, pat, rep) == Token(c, E) + ReplaceAll(rest, pat, rep)
  {
    if c in E && Escapable(c) {
      EntitiesDiffer(c, pat);
      CopyEntity(Entity(c), rest, pat, rep, Differ(Entity(c), pat));
    } else {
      assert pat[0] == '&';
      CopyToken([c], rest, pat, rep);
    }
  }

  lemma {:induction false} UnescapeToken(c: char, rest: string, E: set<char>, x: char)
    requires Escapable(x) && x in E && '&' in E
    ensures ReplaceAll(Token(c, E) + rest, Entity(x), [x]) == Token(c, E - {x}) + ReplaceAll(rest, Entity(x), [x])
  {
    if c == x {
      ReplaceToken(rest, Entity(x), [x]);
    } else {
      OtherToken(c, rest, E, Entity(x), [x]);
    }
  }

  /** A pass that unescapes x.  While & itself is still escaped, every & begins an entity. */
  lemma {:induction false} UnescapePass(s: string, E: set<char>, x: char)
    requires Escapable(x) && x in E && '&' in E
    ensures ReplaceAll(Text(s, E), Entity(x), [x]) == Text(s, E - {x})
    decreases |s|
  {
    if s == "" {
    } else {
      UnescapePass(s[1..], E, x);
      UnescapeToken(s[0], Text(s[1..], E), E, x);
    }
  }

  /** A pass for an entity that the escaper never writes. */
  lemma {:induction false} IdlePass(s: string, E: set<char>, pat: string, rep: string)
    requires (pat == "&apos;" || pat == "&#39;" || (pat == "&quot;" && '"' !in E)) && '&' in E
    ensures ReplaceAll(Text(s, E), pat, rep) == Text(s, E)
    decreases |s|
  {
    if s == "" {
    } else {
      IdlePass(s[1..], E, pat, rep);
      OtherToken(s[0], Text(s[1..], E), E, pat, rep);
    }
  }

  lemma {:induction false} XmlTextIsText(s: string)
    ensures XmlText(s) == Text(s, {'&', '<', '>'})
  {
    NothingEscaped(s);
    EscapePass(s, {}, '&');
    assert {} + {'&'} == {'&'};
    EscapePass(s, {'&'}, '<');
    assert {'&'} + {'<'} == {'&', '<'};
    EscapePass(s, {'&', '<'}, '>');
    assert {'&', '<'} + {'>'} == {'&', '<', '>'};
  }

  lemma {:induction false} EscHtmlIsText(s: string)
    ensures EscHtml(s) == Text(s, {'&', '<', '>', '"'})
  {
    XmlTextIsText(s);
    EscapePass(s, {'&', '<', '>'}, '"');
    assert {'&', '<', '>'} + {'"'} == {'&', '<', '>', '"'};
  }

  lemma FewerEscaped()
    ensures {'&', '<', '>', '"'} - {'<'} == {'&', '>', '"'} && {'&', '<', '>'} - {'<'} == {'&', '>'}
    ensures {'&', '>', '"'} - {'>'} == {'&', '"'} && {'&', '>'} - {'>'} == {'&'}
    ensures {'&', '"'} - {'"'} == {'&'} && {'&'} - {'&'} == {}
  {
  }

  lemma {:induction false} LastPasses(s: string, text: string)
    requires text == Text(s, {'&'})
    ensures ReplaceAll(ReplaceAll(ReplaceAll(text, "&apos;", "'"), "&#39;", "'"), "&amp;", "&") == s
  {
    IdlePass(s, {'&'}, "&apos;", "'");
    IdlePass(s, {'&'}, "&#39;", "'");
    UnescapePass(s, {'&'}, '&');
    FewerEscaped();
    NothingEscaped(s);
  }

  /** unescapeXml undoes escHtml on every string. */
  lemma {:induction false} UnescapeEscHtml(s: string)
    ensures UnescapeXml(EscHtml(s)) == s
  {
    EscHtmlIsText(s);
    FewerEscaped();
    UnescapePass(s, {'&', '<', '>', '"'}, '<');
    UnescapePass(s, {'&', '>', '"'}, '>');
    UnescapePass(s, {'&', '"'}, '"');
    LastPasses(s, Text(s, {'&'}));
  }

  /** unescapeXml undoes the XML serialiser on every string. */
  lemma {:induction false} UnescapeXmlText(s: string)
    ensures UnescapeXml(XmlText(s)) == s
  {
    XmlTextIsText(s);
    FewerEscaped();
    UnescapePass(s, {'&', '<', '>'}, '<');
    UnescapePass(s, {'&', '>'}, '>');
    IdlePass(s, {'&'}, "&quot;", "\"");
    LastPasses(s, Text(s, {'&'}));
  }

  // ---- What escaping guarantees by itself ----

  predicate EntityAt(s: string, i: nat) {
    i < |s| && ("&lt;" <= s[i..] || "&gt;" <= s[i..] || "&quot;" <= s[i..] || "&amp;" <= s[i..])
  }

  predicate Inert(s: string) {
    forall i :: 0 <= i < |s| ==> s[i] !in "<>\"" && (s[i] == '&' ==> EntityAt(s, i))
  }

  lemma {:induction false} TokenIsInert(c: char, rest: string, i: nat)
    requires i < |Token(c, {'&', '<', '>', '"'})|
    ensures var t := Token(c, {'&', '<', '>', '"'});
            t[i] !in "<>\"" && (t[i] == '&' ==> EntityAt(t + rest, i))
  {
  }

  lemma {:induction false} TextIsInert(s: string)
    ensures Inert(Text(s, {'&', '<', '>', '"'}))
  {
    if s == "" {
    } else {
      var t, rest := Token(s[0], {'&', '<', '>', '"'}), Text(s[1..], {'&', '<', '>', '"'});
      TextIsInert(s[1..]);
      forall i | 0 <= i < |t + rest|
        ensures (t + rest)[i] !in "<>\"" && ((t + rest)[i] == '&' ==> EntityAt(t + rest, i))
      {
        if i < |t| {
          TokenIsInert(s[0], rest, i);
        } else {
          assert (t + rest)[i..] == rest[i - |t|..];
        }
      }
    }
  }

  /** escHtml leaves no markup character, and every & it leaves begins a known entity. */
  lemma {:induction false} EscHtmlIsInert(s: string)
    ensures Inert(EscHtml(s))
  {
    EscHtmlIsText(s);
    TextIsInert(s);
  }
}
