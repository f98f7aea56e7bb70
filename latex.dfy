/**
 * Latex: `str_for_latex` from src/gmprocess/io/report.py, the escaper applied
 * to every piece of user text placed in the summary report.
 *
 * The source is a fixed chain of nine replace-all rewrites. `EscapeAll` is an
 * independent, character-by-character definition; the chain is proved equal
 * to it, which is the statement that no replacement text is rewritten by a
 * later rule.
 */
module Latex {
  import opened Text

  /** The nine characters the escaper rewrites. */
  predicate IsSpecial(c: char) {
    c == '_' || c == '$' || c == '&' || c == '%' || c == '#' || c == '}' || c == '{' ||
    c == '~' || c == '^'
  }

  /** What one character becomes. */
  function Escape(c: char): string {
    if c == '~' then "\\textasciitilde "
    else if c == '^' then "\\textasciicircum "
    else if IsSpecial(c) then ['\\', c]
    else [c]
  }

  /** Reference definition: escape each character on its own. */
  function EscapeAll(s: string): string {
    if s == [] then "" else Escape(s[0]) + EscapeAll(s[1..])
  }

  /** `str_for_latex`, rule for rule and in the source's order. */
  function StrForLatex(s: string): string {
    var s1 := ReplaceAll(s, "_", "\\_");
    var s2 := ReplaceAll(s1, "$", "\\$");
    var s3 := ReplaceAll(s2, "&", "\\&");
    var s4 := ReplaceAll(s3, "%", "\\%");
    var s5 := ReplaceAll(s4, "#", "\\#");
    var s6 := ReplaceAll(s5, "}", "\\}");
    var s7 := ReplaceAll(s6, "{", "\\{");
    var s8 := ReplaceAll(s7, "~", "\\textasciitilde ");
    ReplaceAll(s8, "^", "\\textasciicircum ")
  }

  /** Undoes the escaping (a partner used to state what is lost). */
  function Unescape(s: string): string
    decreases |s|
  {
    if s == [] then ""
    else if |s| >= 16 && s[..16] == "\\textasciitilde " then "~" + Unescape(s[16..])
    else if |s| >= 17 && s[..17] == "\\textasciicircum " then "^" + Unescape(s[17..])
    else if |s| >= 2 && s[0] == '\\' && IsSpecial(s[1]) && s[1] != '~' && s[1] != '^'
    then [s[1]] + Unescape(s[2..])
    else [s[0]] + Unescape(s[1..])
  }

  function Count(s: string, c: char): nat {
    if s == [] then 0 else (if s[0] == c then 1 else 0) + Count(s[1..], c)
  }

  function CountSpecial(s: string): nat {
    if s == [] then 0 else (if IsSpecial(s[0]) then 1 else 0) + CountSpecial(s[1..])
  }

  /** A one-character pattern can never straddle a seam. */
  lemma SingleAppend(x: string, y: string, c: char, rep: string)
    ensures ReplaceAll(x + y, [c], rep) == ReplaceAll(x, [c], rep) + ReplaceAll(y, [c], rep)
  {
    ReplaceAllAppend(x, y, [c], rep);
  }

  /** The rule chain maps concatenations to concatenations. */
  lemma StrForLatexAppend(x: string, y: string)
    ensures StrForLatex(x + y) == StrForLatex(x) + StrForLatex(y)
  {
    var x1, y1 := ReplaceAll(x, "_", "\\_"), ReplaceAll(y, "_", "\\_");
    SingleAppend(x, y, '_', "\\_");
    var x2, y2 := ReplaceAll(x1, "$", "\\$"), ReplaceAll(y1, "$", "\\$");
    SingleAppend(x1, y1, '$', "\\$");
    var x3, y3 := ReplaceAll(x2, "&", "\\&"), ReplaceAll(y2, "&", "\\&");
    SingleAppend(x2, y2, '&', "\\&");
    var x4, y4 := ReplaceAll(x3, "%", "\\%"), ReplaceAll(y3, "%", "\\%");
    SingleAppend(x3, y3, '%', "\\%");
    var x5, y5 := ReplaceAll(x4, "#", "\\#"), ReplaceAll(y4, "#", "\\#");
    SingleAppend(x4, y4, '#', "\\#");
    var x6, y6 := ReplaceAll(x5, "}", "\\}"), ReplaceAll(y5, "}", "\\}");
    SingleAppend(x5, y5, '}', "\\}");
    var x7, y7 := ReplaceAll(x6, "{", "\\{"), ReplaceAll(y6, "{", "\\{");
    SingleAppend(x6, y6, '{', "\\{");
    var x8, y8 := ReplaceAll(x7, "~", "\\textasciitilde "), ReplaceAll(y7, "~", "\\textasciitilde ");
    SingleAppend(x7, y7, '~', "\\textasciitilde ");
    SingleAppend(x8, y8, '^', "\\textasciicircum ");
  }

  /** A rule whose character is absent changes nothing. */
  lemma {:induction false} ReplaceAbsentChar(s: string, d: char, rep: string)
    requires d !in s
    ensures ReplaceAll(s, [d], rep) == s
  {
    if s != [] {
      assert d !in s[1..];
      ReplaceAbsentChar(s[1..], d, rep);
      assert s[..1] == [s[0]];
      assert s == [s[0]] + s[1..];
    }
  }

  /** A rule applied to its own character alone yields its replacement. */
  lemma ReplaceOwnChar(d: char, rep: string)
    ensures ReplaceAll([d], [d], rep) == rep
  {
    ReplaceAllLeading([d], [], rep);
    assert [d] + [] == [d];
  }

  lemma StrForLatexUnderscore()
    ensures StrForLatex("_") == "\\_"
  {
    ReplaceOwnChar('_', "\\_");
    ReplaceAbsentChar("\\_", '$', "\\$");
    ReplaceAbsentChar("\\_", '&', "\\&");
    ReplaceAbsentChar("\\_", '%', "\\%");
    ReplaceAbsentChar("\\_", '#', "\\#");
    ReplaceAbsentChar("\\_", '}', "\\}");
    ReplaceAbsentChar("\\_", '{', "\\{");
    ReplaceAbsentChar("\\_", '~', "\\textasciitilde ");
    ReplaceAbsentChar("\\_", '^', "\\textasciicircum ");
  }

  lemma StrForLatexDollar()
    ensures StrForLatex("$") == "\\$"
  {
    ReplaceAbsentChar("$", '_', "\\_");
    ReplaceOwnChar('$', "\\$");
    ReplaceAbsentChar("\\$", '&', "\\&");
    ReplaceAbsentChar("\\$", '%', "\\%");
    ReplaceAbsentChar("\\$", '#', "\\#");
    ReplaceAbsentChar("\\$", '}', "\\}");
    ReplaceAbsentChar("\\$", '{', "\\{");
    ReplaceAbsentChar("\\$", '~', "\\textasciitilde ");
    ReplaceAbsentChar("\\$", '^', "\\textasciicircum ");
  }

  lemma StrForLatexAmpersand()
    ensures StrForLatex("&") == "\\&"
  {
    ReplaceAbsentChar("&", '_', "\\_");
    ReplaceAbsentChar("&", '$', "\\$");
    ReplaceOwnChar('&', "\\&");
    ReplaceAbsentChar("\\&", '%', "\\%");
    ReplaceAbsentChar("\\&", '#', "\\#");
    ReplaceAbsentChar("\\&", '}', "\\}");
    ReplaceAbsentChar("\\&", '{', "\\{");
    ReplaceAbsentChar("\\&", '~', "\\textasciitilde ");
    ReplaceAbsentChar("\\&", '^', "\\textasciicircum ");
  }

  lemma StrForLatexPercent()
    ensures StrForLatex("%") == "\\%"
  {
    ReplaceAbsentChar("%", '_', "\\_");
    ReplaceAbsentChar("%", '$', "\\$");
    ReplaceAbsentChar("%", '&', "\\&");
    ReplaceOwnChar('%', "\\%");
    ReplaceAbsentChar("\\%", '#', "\\#");
    ReplaceAbsentChar("\\%", '}', "\\}");
    ReplaceAbsentChar("\\%", '{', "\\{");
    ReplaceAbsentChar("\\%", '~', "\\textasciitilde ");
    ReplaceAbsentChar("\\%", '^', "\\textasciicircum ");
  }

  lemma StrForLatexHash()
    ensures StrForLatex("#") == "\\#"
  {
    ReplaceAbsentChar("#", '_', "\\_");
    ReplaceAbsentChar("#", '$', "\\$");
    ReplaceAbsentChar("#", '&', "\\&");
    ReplaceAbsentChar("#", '%', "\\%");
    ReplaceOwnChar('#', "\\#");
    ReplaceAbsentChar("\\#", '}', "\\}");
    ReplaceAbsentChar("\\#", '{', "\\{");
    ReplaceAbsentChar("\\#", '~', "\\textasciitilde ");
    ReplaceAbsentChar("\\#", '^', "\\textasciicircum ");
  }

  lemma StrForLatexRightBrace()
    ensures StrForLatex("}") == "\\}"
  {
    ReplaceAbsentChar("}", '_', "\\_");
    ReplaceAbsentChar("}", '$', "\\$");
    ReplaceAbsentChar("}", '&', "\\&");
    ReplaceAbsentChar("}", '%', "\\%");
    ReplaceAbsentChar("}", '#', "\\#");
    ReplaceOwnChar('}', "\\}");
    ReplaceAbsentChar("\\}", '{', "\\{");
    ReplaceAbsentChar("\\}", '~', "\\textasciitilde ");
    ReplaceAbsentChar("\\}", '^', "\\textasciicircum ");
  }

  lemma StrForLatexLeftBrace()
    ensures StrForLatex("{") == "\\{"
  {
    ReplaceAbsentChar("{", '_', "\\_");
    ReplaceAbsentChar("{", '$', "\\$");
    ReplaceAbsentChar("{", '&', "\\&");
    ReplaceAbsentChar("{", '%', "\\%");
    ReplaceAbsentChar("{", '#', "\\#");
    ReplaceAbsentChar("{", '}', "\\}");
    ReplaceOwnChar('{', "\\{");
    ReplaceAbsentChar("\\{", '~', "\\textasciitilde ");
    ReplaceAbsentChar("\\{", '^', "\\textasciicircum ");
  }

  lemma StrForLatexTilde()
    ensures StrForLatex("~") == "\\textasciitilde "
  {
    ReplaceAbsentChar("~", '_', "\\_");
    ReplaceAbsentChar("~", '$', "\\$");
    ReplaceAbsentChar("~", '&', "\\&");
    ReplaceAbsentChar("~", '%', "\\%");
    ReplaceAbsentChar("~", '#', "\\#");
    ReplaceAbsentChar("~", '}', "\\}");
    ReplaceAbsentChar("~", '{', "\\{");
    ReplaceOwnChar('~', "\\textasciitilde ");
    ReplaceAbsentChar("\\textasciitilde ", '^', "\\textasciicircum ");
  }

  lemma StrForLatexCaret()
    ensures StrForLatex("^") == "\\textasciicircum "
  {
    ReplaceAbsentChar("^", '_', "\\_");
    ReplaceAbsentChar("^", '$', "\\$");
    ReplaceAbsentChar("^", '&', "\\&");
    ReplaceAbsentChar("^", '%', "\\%");
    ReplaceAbsentChar("^", '#', "\\#");
    ReplaceAbsentChar("^", '}', "\\}");
    ReplaceAbsentChar("^", '{', "\\{");
    ReplaceAbsentChar("^", '~', "\\textasciitilde ");
    ReplaceOwnChar('^', "\\textasciicircum ");
  }

  lemma StrForLatexPlain(c: char)
    requires !IsSpecial(c)
    ensures StrForLatex([c]) == [c]
  {
    ReplaceAbsentChar([c], '_', "\\_");
    ReplaceAbsentChar([c], '$', "\\$");
    ReplaceAbsentChar([c], '&', "\\&");
    ReplaceAbsentChar([c], '%', "\\%");
    ReplaceAbsentChar([c], '#', "\\#");
    ReplaceAbsentChar([c], '}', "\\}");
    ReplaceAbsentChar([c], '{', "\\{");
    ReplaceAbsentChar([c], '~', "\\textasciitilde ");
    ReplaceAbsentChar([c], '^', "\\textasciicircum ");
  }

  /** On one character the chain does exactly what `Escape` says: every
      rule but the character's own leaves the text as it is. */
  lemma StrForLatexChar(c: char)
    ensures StrForLatex([c]) == Escape(c)
  {
    if c == '_' {
      assert [c] == "_";
      StrForLatexUnderscore();
    } else if c == '$' {
      assert [c] == "$";
      StrForLatexDollar();
    } else if c == '&' {
      assert [c] == "&";
      StrForLatexAmpersand();
    } else if c == '%' {
      assert [c] == "%";
      StrForLatexPercent();
    } else if c == '#' {
      assert [c] == "#";
      StrForLatexHash();
    } else if c == '}' {
      assert [c] == "}";
      StrForLatexRightBrace();
    } else if c == '{' {
      assert [c] == "{";
      StrForLatexLeftBrace();
    } else if c == '~' {
      assert [c] == "~";
      StrForLatexTilde();
    } else if c == '^' {
      assert [c] == "^";
      StrForLatexCaret();
    } else {
      StrForLatexPlain(c);
    }
  }

  /** The chain of nine rewrites is the character-by-character escape: no
      rule rewrites the text introduced by an earlier one. */
  lemma {:induction false} StrForLatexIsEscapeAll(s: string)
    ensures StrForLatex(s) == EscapeAll(s)
  {
    if s == [] {
      assert StrForLatex(s) == "";
    } else {
      assert s == [s[0]] + s[1..];
      StrForLatexAppend([s[0]], s[1..]);
      StrForLatexChar(s[0]);
      StrForLatexIsEscapeAll(s[1..]);
    }
  }

  lemma {:induction false} EscapeAllUnchanged(s: string)
    ensures EscapeAll(s) == s <==> forall i :: 0 <= i < |s| ==> !IsSpecial(s[i])
    ensures |EscapeAll(s)| >= |s|
  {
    if s != [] {
      EscapeAllUnchanged(s[1..]);
      assert forall i :: 1 <= i < |s| ==> s[i] == s[1..][i - 1];
      if IsSpecial(s[0]) {
        assert |EscapeAll(s)| > |s|;
      } else {
        assert EscapeAll(s) == [s[0]] + EscapeAll(s[1..]);
        assert s == [s[0]] + s[1..];
      }
    }
  }

  /** `str_for_latex` returns its input unchanged exactly when the input has
      none of `_ $ & % # } { ~ ^`, and never shortens a string. */
  lemma StrForLatexUnchanged(s: string)
    ensures StrForLatex(s) == s <==> forall i :: 0 <= i < |s| ==> !IsSpecial(s[i])
    ensures |StrForLatex(s)| >= |s|
  {
    StrForLatexIsEscapeAll(s);
    EscapeAllUnchanged(s);
  }

  lemma {:induction false} CountAppend(x: string, y: string, c: char)
    ensures Count(x + y, c) == Count(x, c) + Count(y, c)
  {
    if x == [] {
      assert x + y == y;
    } else {
      assert (x + y)[1..] == x[1..] + y;
      CountAppend(x[1..], y, c);
    }
  }

  /** Every special character gains exactly one backslash, and backslashes
      already present pass through unescaped. */
  lemma {:induction false} StrForLatexBackslashes(s: string)
    ensures Count(StrForLatex(s), '\\') == Count(s, '\\') + CountSpecial(s)
  {
    StrForLatexIsEscapeAll(s);
    EscapeAllBackslashes(s);
  }

  lemma {:induction false} EscapeAllBackslashes(s: string)
    ensures Count(EscapeAll(s), '\\') == Count(s, '\\') + CountSpecial(s)
  {
    if s != [] {
      EscapeAllBackslashes(s[1..]);
      CountAppend(Escape(s[0]), EscapeAll(s[1..]), '\\');
      EscapeBackslashes(s[0]);
    }
  }

  /** One escaped character carries one backslash more than it had when it
      is special, and as many as it had otherwise. */
  lemma EscapeBackslashes(c: char)
    ensures Count(Escape(c), '\\') == (if c == '\\' then 1 else 0) + (if IsSpecial(c) then 1 else 0)
  {
    if c == '~' || c == '^' {
      MacroBackslashes(Escape(c));
    } else if IsSpecial(c) {
      assert Escape(c) == ['\\'] + [c];
      CountOne('\\', '\\');
      CountOne(c, '\\');
      CountAppend(['\\'], [c], '\\');
    } else {
      assert Escape(c) == [c];
      CountOne(c, '\\');
    }
  }

  lemma CountOne(c: char, d: char)
    ensures Count([c], d) == if c == d then 1 else 0
  {
    assert [c][1..] == [];
  }

  lemma MacroBackslashes(w: string)
    requires w == "\\textasciitilde " || w == "\\textasciicircum "
    ensures Count(w, '\\') == 1
  {
    assert w == ['\\'] + w[1..];
    TextBackslashFree(w[1..]);
    CountAppend(['\\'], w[1..], '\\');
  }

  lemma TextBackslashFree(w: string)
    requires w == "textasciitilde " || w == "textasciicircum "
    ensures Count(w, '\\') == 0
  {
    assert '\\' !in w;
    CountAbsent(w, '\\');
  }

  lemma {:induction false} CountAbsent(s: string, c: char)
    requires c !in s
    ensures Count(s, c) == 0
  {
    if s != [] {
      assert c !in s[1..];
      CountAbsent(s[1..], c);
    }
  }

  /** For input without backslashes, escaping loses nothing. */
  lemma {:induction false} StrForLatexRoundTrip(s: string)
    requires '\\' !in s
    ensures Unescape(StrForLatex(s)) == s
  {
    StrForLatexIsEscapeAll(s);
    UnescapeEscapeAll(s);
  }

  lemma {:induction false} UnescapeEscapeAll(s: string)
    requires '\\' !in s
    ensures Unescape(EscapeAll(s)) == s
  {
    if s != [] {
      assert '\\' !in s[1..];
      UnescapeEscapeAll(s[1..]);
      UnescapeEscape(s[0], EscapeAll(s[1..]));
      assert s == [s[0]] + s[1..];
    }
  }

  lemma UnescapeEscape(c: char, rest: string)
    requires c != '\\'
    ensures Unescape(Escape(c) + rest) == [c] + Unescape(rest)
  {
    var t := Escape(c) + rest;
    if c == '~' {
      assert t[..16] == "\\textasciitilde ";
      assert t[16..] == rest;
    } else if c == '^' {
      assert t[..16] != "\\textasciitilde " by { assert t[..16][10] == 'c' != "\\textasciitilde "[10]; }
      assert t[..17] == "\\textasciicircum ";
      assert t[17..] == rest;
    } else if IsSpecial(c) {
      assert t[0] == '\\' && t[1] == c && t[2..] == rest;
      assert |t| >= 16 ==> t[..16][1] == c != 't';
      assert |t| >= 17 ==> t[..17][1] == c != 't';
    } else {
      assert t[0] == c && t[1..] == rest;
      assert |t| >= 16 ==> t[..16][0] == c != '\\';
      assert |t| >= 17 ==> t[..17][0] == c != '\\';
    }
  }

  /** Because backslashes are not escaped, two different inputs can give
      the same LaTeX text. */
  lemma StrForLatexNotInjective()
    ensures StrForLatex("~") == StrForLatex("\\textasciitilde ")
    ensures "~" != "\\textasciitilde "
  {
    StrForLatexTilde();
    TildeTextPlain();
    StrForLatexUnchanged("\\textasciitilde ");
  }

  lemma TildeTextPlain()
    ensures forall i :: 0 <= i < |"\\textasciitilde "| ==> !IsSpecial("\\textasciitilde "[i])
  {
  }

  /** Escaping introduces only backslashes, the special characters and the
      letters of the two text macros: any other character is in the output
      exactly when it is in the input. */
  lemma {:induction false} StrForLatexKeepsOthers(s: string, c: char)
    requires c != '\\' && !IsSpecial(c) && c !in "textasciitilde textasciicircum "
    ensures c in StrForLatex(s) <==> c in s
  {
    StrForLatexIsEscapeAll(s);
    EscapeAllKeepsOthers(s, c);
  }

  lemma {:induction false} EscapeAllKeepsOthers(s: string, c: char)
    requires c != '\\' && !IsSpecial(c) && c !in "textasciitilde textasciicircum "
    ensures c in EscapeAll(s) <==> c in s
  {
    if s != [] {
      EscapeAllKeepsOthers(s[1..], c);
      assert c in s <==> c == s[0] || c in s[1..];
      var e := Escape(s[0]);
      if s[0] == '~' {
        assert e == "\\textasciitilde ";
        assert c !in e by {
          assert forall i :: 0 <= i < |e| ==> e[i] == '\\' || e[i] in "textasciitilde textasciicircum ";
        }
      } else if s[0] == '^' {
        assert e == "\\textasciicircum ";
        assert c !in e by {
          assert forall i :: 0 <= i < |e| ==> e[i] == '\\' || e[i] in "textasciitilde textasciicircum ";
        }
      } else if IsSpecial(s[0]) {
        assert e == ['\\', s[0]];
      }
    }
  }
}
