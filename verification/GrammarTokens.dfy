/** Tokens: the lexer's automata accept exactly the numbers, strings and literals of the grammar. */
module GrammarTokens {
  import opened JsonText
  import G = JsonGrammar

  // ----- numbers

  /** The state of the number scanner after `t`, none when it stops before the end of `t`. */
  function NumRun(n: NumState, t: string): NumNext
    decreases |t|
  {
    if t == "" then NumMore(n)
    else match NumStep(n, t[0])
      case NumMore(m) => NumRun(m, t[1..])
      case other => other
  }

  /** From `n`, the rest of a number is `t`. */
  predicate NumRest(n: NumState, t: string) {
    NumRun(n, t).NumMore? && Complete(NumRun(n, t).n)
  }

  lemma {:induction false} NumCons(n: NumState, t: string)
    requires t != ""
    ensures NumRest(n, t) <==> NumStep(n, t[0]).NumMore? && NumRest(NumStep(n, t[0]).n, t[1..])
  {
  }

  lemma {:induction false} FirstOfTake(t: string, j: nat)
    requires j <= |t|
    ensures j > 0 ==> t[..j][0] == t[0]
  {
  }

  lemma {:induction false} DigitsCons(t: string)
    requires t != ""
    ensures G.Digits(t) <==> G.Digit(t[0]) && G.Digits(t[1..])
  {
    assert t == [t[0]] + t[1..];
  }

  lemma {:induction false} ExpDigitsExactly(t: string)
    ensures NumRest(ExpDigits, t) <==> G.Digits(t)
    decreases |t|
  {
    if t != "" {
      NumCons(ExpDigits, t);
      DigitsCons(t);
      ExpDigitsExactly(t[1..]);
    }
  }

  lemma {:induction false} ExpSignExactly(t: string)
    ensures NumRest(ExpSign, t) <==> t != "" && G.Digits(t)
  {
    if t != "" {
      NumCons(ExpSign, t);
      DigitsCons(t);
      ExpDigitsExactly(t[1..]);
    }
  }

  lemma {:induction false} ExponentExactly(t: string)
    ensures NumRest(Exponent, t) <==> (t != "" && G.Digits(t)) || (|t| > 1 && (t[0] == '+' || t[0] == '-') && G.Digits(t[1..]))
  {
    if t != "" {
      NumCons(Exponent, t);
      DigitsCons(t);
      ExpDigitsExactly(t[1..]);
      ExpSignExactly(t[1..]);
    }
  }

  /** An exponent, from a state in which one may begin. */
  lemma {:induction false} ExpExactly(n: NumState, t: string)
    requires (n == Zero || n == JsonText.Digits || n == Fraction) && (t != "" ==> t[0] == 'e' || t[0] == 'E')
    ensures NumRest(n, t) <==> G.Exp(t)
  {
    if t != "" {
      NumCons(n, t);
      ExponentExactly(t[1..]);
      assert |t| > 2 ==> t[1..][0] == t[1] && t[1..][1..] == t[2..];
      assert |t| > 1 ==> t[1..][0] == t[1];
    }
  }

  predicate DigitsThenExp(t: string) {
    exists j :: 0 <= j <= |t| && G.Digits(t[..j]) && G.Exp(t[j..])
  }

  lemma {:induction false} DigitsThenExpTail(t: string)
    requires t != "" && t[0] != 'e' && t[0] != 'E' && DigitsThenExp(t)
    ensures G.Digit(t[0]) && DigitsThenExp(t[1..])
  {
    var j :| 0 <= j <= |t| && G.Digits(t[..j]) && G.Exp(t[j..]);
    if j == 0 { assert false; }
    hide G.Exp;
    assert t[..j][0] == t[0] && t[..j][1..] == t[1..][..j - 1] && t[j..] == t[1..][j - 1..];
  }

  lemma {:induction false} DigitsThenExpHead(t: string)
    requires t != "" && G.Digit(t[0]) && DigitsThenExp(t[1..])
    ensures DigitsThenExp(t)
  {
    hide G.Exp;
    var j :| 0 <= j <= |t[1..]| && G.Digits(t[1..][..j]) && G.Exp(t[1..][j..]);
    assert t[..j + 1] == [t[0]] + t[1..][..j] && t[j + 1..] == t[1..][j..];
  }

  lemma {:induction false} DigitsThenExpCons(t: string)
    requires t != "" && t[0] != 'e' && t[0] != 'E'
    ensures DigitsThenExp(t) <==> G.Digit(t[0]) && DigitsThenExp(t[1..])
  {
    hide DigitsThenExp;
    if DigitsThenExp(t) { DigitsThenExpTail(t); }
    if G.Digit(t[0]) && DigitsThenExp(t[1..]) { DigitsThenExpHead(t); }
  }

  lemma {:induction false} ExpOnly(t: string)
    requires t == "" || t[0] == 'e' || t[0] == 'E'
    ensures DigitsThenExp(t) <==> G.Exp(t)
  {
    assert t[..0] == "" && t[0..] == t;
    if DigitsThenExp(t) {
      var j :| 0 <= j <= |t| && G.Digits(t[..j]) && G.Exp(t[j..]);
      FirstOfTake(t, j);
    }
  }

  lemma {:induction false} FractionExactly(t: string)
    ensures NumRest(Fraction, t) <==> DigitsThenExp(t)
    decreases |t|
  {
    if t == "" || t[0] == 'e' || t[0] == 'E' {
      ExpExactly(Fraction, t);
      ExpOnly(t);
    } else {
      NumCons(Fraction, t);
      DigitsThenExpCons(t);
      FractionExactly(t[1..]);
    }
  }

  lemma {:induction false} DotExactly(t: string)
    ensures NumRest(Dot, t) <==> t != "" && G.Digit(t[0]) && DigitsThenExp(t[1..])
  {
    if t != "" {
      NumCons(Dot, t);
      FractionExactly(t[1..]);
    }
  }

  lemma {:induction false} FracExpOnly(t: string)
    requires t == "" || t[0] != '.'
    ensures G.FracExp(t) <==> G.Exp(t)
  {
    assert t[..0] == "" && t[0..] == t;
    if G.FracExp(t) {
      var j :| 0 <= j <= |t| && G.Frac(t[..j]) && G.Exp(t[j..]);
      FirstOfTake(t, j);
    }
  }

  lemma {:induction false} FracExpDot(t: string)
    requires t != "" && t[0] == '.'
    ensures G.FracExp(t) <==> |t| > 1 && G.Digit(t[1]) && DigitsThenExp(t[2..])
  {
    if G.FracExp(t) {
      var j :| 0 <= j <= |t| && G.Frac(t[..j]) && G.Exp(t[j..]);
      assert j > 0 by { assert t[0..] == t; }
      assert t[..j][1..][0] == t[1];
      assert t[2..][..j - 2] == t[..j][1..][1..] && t[2..][j - 2..] == t[j..];
    }
    if |t| > 1 && G.Digit(t[1]) && DigitsThenExp(t[2..]) {
      var j :| 0 <= j <= |t[2..]| && G.Digits(t[2..][..j]) && G.Exp(t[2..][j..]);
      assert t[..j + 2][1..] == [t[1]] + t[2..][..j];
      assert t[j + 2..] == t[2..][j..];
    }
  }

  /** What follows the integer part. */
  lemma {:induction false} AfterIntExactly(n: NumState, t: string)
    requires n == Zero || n == JsonText.Digits
    requires t != "" && n == JsonText.Digits ==> !G.Digit(t[0])
    ensures NumRest(n, t) <==> G.FracExp(t)
  {
    if t == "" || t[0] == 'e' || t[0] == 'E' {
      ExpExactly(n, t);
      FracExpOnly(t);
    } else if t[0] == '.' {
      NumCons(n, t);
      DotExactly(t[1..]);
      FracExpDot(t);
      assert |t| > 1 ==> t[1..][0] == t[1] && t[1..][1..] == t[2..];
    } else {
      NumCons(n, t);
      FracExpOnly(t);
    }
  }

  predicate MoreDigits(t: string) {
    exists i :: 0 <= i <= |t| && G.Digits(t[..i]) && G.FracExp(t[i..])
  }

  lemma {:induction false} MoreDigitsTail(t: string)
    requires t != "" && G.Digit(t[0]) && MoreDigits(t)
    ensures MoreDigits(t[1..])
  {
    hide G.FracExp;
    var i :| 0 <= i <= |t| && G.Digits(t[..i]) && G.FracExp(t[i..]);
    if i == 0 {
      assert t[0..] == t;
      FracExpOnly(t);
      assert false;
    }
    assert t[1..][..i - 1] == t[..i][1..] && t[1..][i - 1..] == t[i..];
  }

  lemma {:induction false} MoreDigitsHead(t: string)
    requires t != "" && G.Digit(t[0]) && MoreDigits(t[1..])
    ensures MoreDigits(t)
  {
    hide G.FracExp;
    var i :| 0 <= i <= |t[1..]| && G.Digits(t[1..][..i]) && G.FracExp(t[1..][i..]);
    assert t[..i + 1] == [t[0]] + t[1..][..i] && t[i + 1..] == t[1..][i..];
  }

  lemma {:induction false} MoreDigitsCons(t: string)
    requires t != "" && G.Digit(t[0])
    ensures MoreDigits(t) <==> MoreDigits(t[1..])
  {
    if MoreDigits(t) { MoreDigitsTail(t); }
    if MoreDigits(t[1..]) { MoreDigitsHead(t); }
  }

  lemma {:induction false} NoMoreDigits(t: string)
    requires t == "" || !G.Digit(t[0])
    ensures MoreDigits(t) <==> G.FracExp(t)
  {
    assert t[..0] == "" && t[0..] == t;
    if MoreDigits(t) {
      var i :| 0 <= i <= |t| && G.Digits(t[..i]) && G.FracExp(t[i..]);
      FirstOfTake(t, i);
    }
  }

  lemma {:induction false} DigitsExactly(t: string)
    ensures NumRest(JsonText.Digits, t) <==> MoreDigits(t)
    decreases |t|
  {
    if t != "" && G.Digit(t[0]) {
      NumCons(JsonText.Digits, t);
      MoreDigitsCons(t);
      DigitsExactly(t[1..]);
    } else {
      AfterIntExactly(JsonText.Digits, t);
      NoMoreDigits(t);
    }
  }

  lemma {:induction false} UnsignedZero(t: string)
    requires t != "" && t[0] == '0'
    ensures G.Unsigned(t) <==> G.FracExp(t[1..])
  {
    assert t[..1] == "0";
    if G.Unsigned(t) {
      var i :| 0 <= i <= |t| && G.Int(t[..i]) && G.FracExp(t[i..]);
      assert i > 0;
      assert t[..i][0] == '0';
      assert t[..i] == "0";
    }
  }

  lemma {:induction false} UnsignedDigitsTail(t: string)
    requires t != "" && G.Digit(t[0]) && t[0] != '0' && G.Unsigned(t)
    ensures MoreDigits(t[1..])
  {
    hide G.FracExp;
    var i :| 0 <= i <= |t| && G.Int(t[..i]) && G.FracExp(t[i..]);
    FirstOfTake(t, i);
    assert t[1..][..i - 1] == t[..i][1..] && t[1..][i - 1..] == t[i..];
  }

  lemma {:induction false} UnsignedDigitsHead(t: string)
    requires t != "" && G.Digit(t[0]) && t[0] != '0' && MoreDigits(t[1..])
    ensures G.Unsigned(t)
  {
    hide G.FracExp;
    var i :| 0 <= i <= |t[1..]| && G.Digits(t[1..][..i]) && G.FracExp(t[1..][i..]);
    assert t[..i + 1] == [t[0]] + t[1..][..i] && t[i + 1..] == t[1..][i..];
    assert t[..i + 1][0] == t[0];
  }

  lemma {:induction false} UnsignedDigits(t: string)
    requires t != "" && G.Digit(t[0]) && t[0] != '0'
    ensures G.Unsigned(t) <==> MoreDigits(t[1..])
  {
    hide G.Unsigned, MoreDigits;
    if G.Unsigned(t) { UnsignedDigitsTail(t); }
    if MoreDigits(t[1..]) { UnsignedDigitsHead(t); }
  }

  lemma {:induction false} NotUnsigned(t: string)
    requires t == "" || !G.Digit(t[0])
    ensures !G.Unsigned(t)
  {
    if G.Unsigned(t) {
      var i :| 0 <= i <= |t| && G.Int(t[..i]) && G.FracExp(t[i..]);
      FirstOfTake(t, i);
    }
  }

  lemma {:induction false} UnsignedExactly(t: string)
    ensures NumRest(Minus, t) <==> G.Unsigned(t)
  {
    if t == "" || !G.Digit(t[0]) {
      if t != "" { NumCons(Minus, t); }
      NotUnsigned(t);
    } else {
      NumCons(Minus, t);
      if t[0] == '0' {
        AfterIntExactly(Zero, t[1..]);
        UnsignedZero(t);
      } else {
        DigitsExactly(t[1..]);
        UnsignedDigits(t);
      }
    }
  }

  /** The lexer reads `t` as a number up to its end. */
  predicate ScansNumber(t: string) {
    t != "" && (t[0] == '-' || IsDigit(t[0])) && NumRest(TokenFrom(t[0]).n, t[1..])
  }

  /** The number scanner accepts exactly the numbers of the grammar. */
  lemma {:induction false} NumberExactly(t: string)
    ensures ScansNumber(t) <==> G.Number(t)
  {
    if t != "" && t[0] == '-' {
      UnsignedExactly(t[1..]);
      NotUnsigned(t);
    } else if t != "" && G.Digit(t[0]) {
      UnsignedExactly(t);
      NumCons(Minus, t);
    } else {
      NotUnsigned(t);
    }
  }
}
