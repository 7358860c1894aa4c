/** The textual rewrite that turns a user formula into JavaScript source
    (`parseMathExpression`, lib/math-parser.ts). It is a fixed chain of global
    replacements: whitespace is deleted, `^` becomes `**`, and then each of seven
    function names is prefixed with `Math.`. The names are matched as plain
    substrings, with no word boundary and no following `(` required. */
module ExpressionRewrite {

  /** The characters JavaScript's `\s` class matches. */
  predicate IsSpace(c: char) {
    c == ' ' || c == '\t' || c == '\n' || c == '\U{000B}' || c == '\U{000C}' || c == '\r'
    || c == '\U{00A0}' || c == '\U{1680}' || ('\U{2000}' <= c <= '\U{200A}')
    || c == '\U{2028}' || c == '\U{2029}' || c == '\U{202F}' || c == '\U{205F}'
    || c == '\U{3000}' || c == '\U{FEFF}'
  }

  predicate NoSpace(s: string) {
    forall i :: 0 <= i < |s| ==> !IsSpace(s[i])
  }

  /** `pat` occurs in `s` starting at index `i`. */
  predicate OccursAt(s: string, pat: string, i: nat) {
    i + |pat| <= |s| && s[i..i + |pat|] == pat
  }

  ghost predicate Occurs(s: string, pat: string) {
    exists i: nat :: OccursAt(s, pat, i)
  }

  /** `s.replace(/\s+/g, "")`: every whitespace character removed, the others kept in order. */
  function StripSpaces(s: string): (r: string)
    ensures NoSpace(r)
    ensures |r| <= |s|
    ensures NoSpace(s) ==> r == s
  {
    if s == [] then []
    else if IsSpace(s[0]) then StripSpaces(s[1..])
    else [s[0]] + StripSpaces(s[1..])
  }

  /** Whitespace removal works character by character: a single character is dropped
      exactly when it is whitespace ... */
  lemma StripSpacesChar(c: char)
    ensures StripSpaces([c]) == if IsSpace(c) then [] else [c]
  {
    assert [c][1..] == [];
  }

  /** ... and the text is stripped piecewise, so the kept characters stay in order. */
  lemma {:induction false} StripSpacesConcat(a: string, b: string)
    ensures StripSpaces(a + b) == StripSpaces(a) + StripSpaces(b)
    decreases |a|
  {
    if a != [] {
      assert (a + b)[0] == a[0];
      assert (a + b)[1..] == a[1..] + b;
      StripSpacesConcat(a[1..], b);
    } else {
      assert a + b == b;
    }
  }

  /** `s.replace(/pat/g, rep)` for a pattern without metacharacters: scanning left to
      right, each leftmost occurrence is replaced and the scan resumes after it. */
  function ReplaceAll(s: string, pat: string, rep: string): string
    requires |pat| > 0
    decreases |s|
  {
    if |s| < |pat| then s
    else if s[..|pat|] == pat then rep + ReplaceAll(s[|pat|..], pat, rep)
    else [s[0]] + ReplaceAll(s[1..], pat, rep)
  }

  /** Replacing a single character works character by character: that character becomes
      `rep`, any other is kept ... */
  lemma ReplaceAllCharOne(d: char, c: char, rep: string)
    ensures ReplaceAll([d], [c], rep) == if d == c then rep else [d]
  {
    assert [d][..1] == [d] && [d][1..] == [];
    assert rep + [] == rep;
  }

  /** ... and piecewise, so every occurrence is replaced in place and the rest kept in order. */
  lemma {:induction false} ReplaceAllCharConcat(a: string, b: string, c: char, rep: string)
    ensures ReplaceAll(a + b, [c], rep) == ReplaceAll(a, [c], rep) + ReplaceAll(b, [c], rep)
    decreases |a|
  {
    if a != [] {
      assert (a + b)[..1] == a[..1];
      assert (a + b)[1..] == a[1..] + b;
      assert (a + b)[0] == a[0];
      ReplaceAllCharConcat(a[1..], b, c, rep);
    } else {
      assert a + b == b;
    }
  }

  /** The `Math.` prefixing, one global replacement per name, in the order of the chain:
      `sqrt`, `sin`, `cos`, `tan`, `exp`, `log`, `abs`. */
  function PrefixMath(s: string): string {
    var s1 := ReplaceAll(s, "sqrt", "Math.sqrt");
    var s2 := ReplaceAll(s1, "sin", "Math.sin");
    var s3 := ReplaceAll(s2, "cos", "Math.cos");
    var s4 := ReplaceAll(s3, "tan", "Math.tan");
    var s5 := ReplaceAll(s4, "exp", "Math.exp");
    var s6 := ReplaceAll(s5, "log", "Math.log");
    ReplaceAll(s6, "abs", "Math.abs")
  }

  /** `parseMathExpression(expr)`. */
  function ParseMathExpression(expr: string): string {
    PrefixMath(ReplaceAll(StripSpaces(expr), "^", "**"))
  }

  // ----- properties of the replacement primitive -----

  /** A text without the pattern comes back unchanged. */
  lemma {:induction false} ReplaceAllAbsent(s: string, pat: string, rep: string)
    requires |pat| > 0 && !Occurs(s, pat)
    ensures ReplaceAll(s, pat, rep) == s
    decreases |s|
  {
    if |s| >= |pat| {
      assert !OccursAt(s, pat, 0);
      assert s[0..|pat|] == s[..|pat|];
      if Occurs(s[1..], pat) {
        var i: nat :| OccursAt(s[1..], pat, i);
        assert s[1..][i..i + |pat|] == s[i + 1..i + 1 + |pat|];
        assert OccursAt(s, pat, i + 1);
      }
      ReplaceAllAbsent(s[1..], pat, rep);
      assert s == [s[0]] + s[1..];
    }
  }

  /** A character that is in neither the text nor the replacement is not in the result. */
  lemma {:induction false} ReplaceAllKeepsOut(s: string, pat: string, rep: string, c: char)
    requires |pat| > 0 && c !in s && c !in rep
    ensures c !in ReplaceAll(s, pat, rep)
    decreases |s|
  {
    if |s| >= |pat| {
      if s[..|pat|] == pat {
        assert c !in s[|pat|..];
        ReplaceAllKeepsOut(s[|pat|..], pat, rep, c);
      } else {
        assert c !in s[1..];
        ReplaceAllKeepsOut(s[1..], pat, rep, c);
      }
    }
  }

  /** Replacing a one-character pattern by a text without that character removes it. */
  lemma {:induction false} ReplaceAllRemovesChar(s: string, c: char, rep: string)
    requires c !in rep
    ensures c !in ReplaceAll(s, [c], rep)
    decreases |s|
  {
    if |s| >= 1 {
      if s[..1] == [c] {
        ReplaceAllRemovesChar(s[1..], c, rep);
      } else {
        assert s[0] != c by { assert s[..1] == [s[0]]; }
        ReplaceAllRemovesChar(s[1..], c, rep);
      }
    }
  }

  /** A character outside `Math.` and the seven names that is not in the text is not
      in the prefixed text either. */
  lemma PrefixMathKeepsOut(s: string, c: char)
    requires c !in s && c !in "Math.sqrtincoanexplgb"
    ensures c !in PrefixMath(s)
  {
    var s1 := ReplaceAll(s, "sqrt", "Math.sqrt");
    var s2 := ReplaceAll(s1, "sin", "Math.sin");
    var s3 := ReplaceAll(s2, "cos", "Math.cos");
    var s4 := ReplaceAll(s3, "tan", "Math.tan");
    var s5 := ReplaceAll(s4, "exp", "Math.exp");
    var s6 := ReplaceAll(s5, "log", "Math.log");
    ReplaceAllKeepsOut(s, "sqrt", "Math.sqrt", c);
    ReplaceAllKeepsOut(s1, "sin", "Math.sin", c);
    ReplaceAllKeepsOut(s2, "cos", "Math.cos", c);
    ReplaceAllKeepsOut(s3, "tan", "Math.tan", c);
    ReplaceAllKeepsOut(s4, "exp", "Math.exp", c);
    ReplaceAllKeepsOut(s5, "log", "Math.log", c);
    ReplaceAllKeepsOut(s6, "abs", "Math.abs", c);
  }

  /** A text holding none of the seven names comes back from the prefixing unchanged. */
  lemma PrefixMathAbsent(s: string)
    requires !Occurs(s, "sqrt") && !Occurs(s, "sin") && !Occurs(s, "cos") && !Occurs(s, "tan")
    requires !Occurs(s, "exp") && !Occurs(s, "log") && !Occurs(s, "abs")
    ensures PrefixMath(s) == s
  {
    ReplaceAllAbsent(s, "sqrt", "Math.sqrt");
    ReplaceAllAbsent(s, "sin", "Math.sin");
    ReplaceAllAbsent(s, "cos", "Math.cos");
    ReplaceAllAbsent(s, "tan", "Math.tan");
    ReplaceAllAbsent(s, "exp", "Math.exp");
    ReplaceAllAbsent(s, "log", "Math.log");
    ReplaceAllAbsent(s, "abs", "Math.abs");
  }

  // ----- properties of parseMathExpression -----

  /** The rewritten text holds no `^`: each one became `**`. */
  lemma ParseRemovesCaret(expr: string)
    ensures '^' !in ParseMathExpression(expr)
  {
    var stripped := StripSpaces(expr);
    ReplaceAllRemovesChar(stripped, '^', "**");
    PrefixMathKeepsOut(ReplaceAll(stripped, "^", "**"), '^');
  }

  /** The rewritten text holds no whitespace. */
  lemma ParseRemovesSpaces(expr: string)
    ensures NoSpace(ParseMathExpression(expr))
  {
    var out := ParseMathExpression(expr);
    forall i | 0 <= i < |out| ensures !IsSpace(out[i]) {
      var c := out[i];
      if IsSpace(c) {
        var stripped := StripSpaces(expr);
        assert c !in stripped;
        ReplaceAllKeepsOut(stripped, "^", "**", c);
        PrefixMathKeepsOut(ReplaceAll(stripped, "^", "**"), c);
        assert false;
      }
    }
  }

  /** Without whitespace, `^` and the seven names, a formula comes back unchanged. */
  lemma ParseIdentity(expr: string)
    requires NoSpace(expr) && '^' !in expr
    requires !Occurs(expr, "sqrt") && !Occurs(expr, "sin") && !Occurs(expr, "cos") && !Occurs(expr, "tan")
    requires !Occurs(expr, "exp") && !Occurs(expr, "log") && !Occurs(expr, "abs")
    ensures ParseMathExpression(expr) == expr
  {
    assert !Occurs(expr, "^") by {
      forall i: nat | i + 1 <= |expr| ensures !OccursAt(expr, "^", i) {
        assert expr[i..i + 1][0] == expr[i];
      }
    }
    ReplaceAllAbsent(expr, "^", "**");
    PrefixMathAbsent(expr);
  }

  /** A text lacking one of the pattern's characters holds no occurrence and comes back unchanged. */
  lemma {:induction false} ReplaceAllMissingChar(s: string, pat: string, rep: string, k: nat)
    requires k < |pat| && pat[k] !in s
    ensures ReplaceAll(s, pat, rep) == s
    decreases |s|
  {
    if |s| >= |pat| {
      assert s[..|pat|][k] == s[k];
      ReplaceAllMissingChar(s[1..], pat, rep, k);
      assert s == [s[0]] + s[1..];
    }
  }

  // ----- worked examples -----

  lemma AcosStages1()
    ensures StripSpaces("acos(x)") == "acos(x)"
    ensures ReplaceAll("acos(x)", "^", "**") == "acos(x)"
  {
    ReplaceAllMissingChar("acos(x)", "^", "**", 0);
  }

  lemma AcosStages2()
    ensures ReplaceAll("acos(x)", "sqrt", "Math.sqrt") == "acos(x)"
    ensures ReplaceAll("acos(x)", "sin", "Math.sin") == "acos(x)"
  {
    ReplaceAllMissingChar("acos(x)", "sqrt", "Math.sqrt", 1);
    ReplaceAllMissingChar("acos(x)", "sin", "Math.sin", 1);
  }

  lemma AcosStages3()
    ensures ReplaceAll("acos(x)", "cos", "Math.cos") == "aMath.cos(x)"
  {
    ReplaceAllMissingChar("(x)", "cos", "Math.cos", 0);
  }

  lemma AcosStages4()
    ensures ReplaceAll("aMath.cos(x)", "tan", "Math.tan") == "aMath.cos(x)"
  {
    ReplaceAllMissingChar("aMath.cos(x)", "tan", "Math.tan", 2);
  }

  lemma AcosStages5()
    ensures ReplaceAll("aMath.cos(x)", "exp", "Math.exp") == "aMath.cos(x)"
  {
    ReplaceAllMissingChar("aMath.cos(x)", "exp", "Math.exp", 0);
  }

  lemma AcosStages6()
    ensures ReplaceAll("aMath.cos(x)", "log", "Math.log") == "aMath.cos(x)"
  {
    ReplaceAllMissingChar("aMath.cos(x)", "log", "Math.log", 0);
  }

  lemma AcosStages7()
    ensures ReplaceAll("aMath.cos(x)", "abs", "Math.abs") == "aMath.cos(x)"
  {
    ReplaceAllMissingChar("aMath.cos(x)", "abs", "Math.abs", 1);
  }

  /** No word boundary is required: the `cos` inside `acos` is rewritten as well, so the
      result names a JavaScript identifier `aMath` that does not exist. */
  lemma ParseRewritesInsideWords()
    ensures ParseMathExpression("acos(x)") == "aMath.cos(x)"
  {
    AcosStages1();
    AcosStages2();
    AcosStages3();
    AcosStages4();
    AcosStages5();
    AcosStages6();
    AcosStages7();
  }

  lemma PowerStages1()
    ensures StripSpaces("x ^ 2") == "x^2"
    ensures ReplaceAll("x^2", "^", "**") == "x**2"
  {
    ReplaceAllMissingChar("2", "^", "**", 0);
  }

  lemma PowerStages2()
    ensures ReplaceAll("x**2", "sqrt", "Math.sqrt") == "x**2"
    ensures ReplaceAll("x**2", "sin", "Math.sin") == "x**2"
    ensures ReplaceAll("x**2", "cos", "Math.cos") == "x**2"
  {
    ReplaceAllMissingChar("x**2", "sqrt", "Math.sqrt", 0);
    ReplaceAllMissingChar("x**2", "sin", "Math.sin", 0);
    ReplaceAllMissingChar("x**2", "cos", "Math.cos", 0);
  }

  lemma PowerStages3()
    ensures ReplaceAll("x**2", "tan", "Math.tan") == "x**2"
    ensures ReplaceAll("x**2", "exp", "Math.exp") == "x**2"
    ensures ReplaceAll("x**2", "log", "Math.log") == "x**2"
    ensures ReplaceAll("x**2", "abs", "Math.abs") == "x**2"
  {
    ReplaceAllMissingChar("x**2", "tan", "Math.tan", 0);
    ReplaceAllMissingChar("x**2", "exp", "Math.exp", 0);
    ReplaceAllMissingChar("x**2", "log", "Math.log", 0);
    ReplaceAllMissingChar("x**2", "abs", "Math.abs", 0);
  }

  /** Whitespace is dropped and `^` becomes JavaScript's exponentiation operator. */
  lemma ParseCaretToPower()
    ensures ParseMathExpression("x ^ 2") == "x**2"
  {
    PowerStages1();
    PowerStages2();
    PowerStages3();
  }
}
