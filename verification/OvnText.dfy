/** Printing OVN match text piece by piece: how the pieces lex and how chains of terms are joined. */
module OvnText {
  import opened Wrappers
  import opened OvnExpr

  /** An address field of either family. */
  function Field(v6: bool, side: string): string {
    (if v6 then "ip6." else "ip4.") + side
  }

  // ----- Chains of terms

  /** Terms joined by "||"; the grammar reads a single one as a conjunction. */
  function AnyOf(terms: seq<Term>): Expr {
    Chain(|terms| == 1, terms)
  }

  lemma {:induction false} ChainConcat(conj: bool, a: seq<Term>, b: seq<Term>)
    requires a != [] && b != []
    ensures ChainTokens(conj, a + b) == ChainTokens(conj, a) + [Operator(conj)] + ChainTokens(conj, b)
  {
    var ab := a + b;
    assert ab[0] == a[0] && ab[1..] == a[1..] + b;
    if |a| == 1 {
      assert ab[1..] == b;
    } else {
      ChainConcat(conj, a[1..], b);
    }
  }

  lemma {:induction false} ChainSingle(conj: bool, terms: seq<Term>)
    requires |terms| == 1
    ensures ChainTokens(conj, terms) == TermTokens(terms[0])
  {
  }

  lemma {:induction false} AnyOfTokens(terms: seq<Term>)
    ensures ChainTokens(AnyOf(terms).conj, terms) == ChainTokens(false, terms)
  {
  }

  /** Appending one printed term to a printed chain; a blank or nothing stands for the empty chain. */
  lemma {:induction false} LexAppendTerm(conj: bool, text: string, terms: seq<Term>, link: string, more: string, t: Term)
    requires terms != [] && Lex(text) == ChainTokens(conj, terms)
    requires Lex(link) == [Operator(conj)] && Border(text, link) && Border(text + link, more)
    requires Lex(more) == TermTokens(t)
    ensures Lex(text + link + more) == ChainTokens(conj, terms + [t])
  {
    LexConcat(text, link);
    LexConcat(text + link, more);
    ChainConcat(conj, terms, [t]);
    ChainSingle(conj, [t]);
  }

  predicate IsPunctuation(c: char) {
    !IsWordChar(c) && !IsOperator(c)
  }

  /** Text between two punctuation marks. */
  lemma {:induction false} LexSurround(a: string, inner: string, b: string)
    requires a != "" && b != "" && IsPunctuation(a[|a| - 1]) && IsPunctuation(b[0])
    ensures Lex(a + inner + b) == Lex(a) + Lex(inner) + Lex(b)
  {
    LexConcat(a, inner);
    LexConcat(a + inner, b);
  }

  /** Text on both sides of a link that starts and ends with a punctuation mark. */
  lemma {:induction false} LexAround(a: string, link: string, b: string)
    requires link != "" && IsPunctuation(link[0]) && IsPunctuation(link[|link| - 1])
    ensures Lex(a + link + b) == Lex(a) + Lex(link) + Lex(b)
  {
    LexConcat(a, link);
    LexConcat(a + link, b);
  }

  lemma {:induction false} LexParen(inner: string, e: Expr)
    requires Lex(inner) == ChainTokens(e.conj, e.terms)
    ensures Lex("(" + inner + ")") == TermTokens(Paren(e))
  {
    LexSurround("(", inner, ")");
    LexPunctuation();
  }

  lemma {:induction false} LexPunctuation()
    ensures Lex("(") == [LParen] && Lex(")") == [RParen]
    ensures Lex(" && ") == [AndAnd] && Lex(" || ") == [OrOr] && Lex(" ||") == [OrOr]
    ensures Lex(" == ") == [EqEq] && Lex(" != ") == [NotEq]
  {
    LexChar("(", LParen);
    LexChar(")", RParen);
    LexSpaced("&&", AndAnd);
    LexSpaced("||", OrOr);
    LexSpaced("==", EqEq);
    LexSpaced("!=", NotEq);
    assert " " + "&&" + " " == " && " && " " + "||" + " " == " || ";
    assert " " + "==" + " " == " == " && " " + "!=" + " " == " != ";
    assert " " + "||" == " ||";
  }

  lemma {:induction false} LexAnd()
    ensures Lex(" && ") == [AndAnd]
  {
    LexPunctuation();
  }

  lemma {:induction false} LexOr()
    ensures Lex(" || ") == [OrOr]
  {
    LexPunctuation();
  }

  lemma {:induction false} LexTrailingOr()
    ensures Lex(" ||") == [OrOr]
  {
    LexPunctuation();
  }

  lemma {:induction false} LexChar(s: string, t: Token)
    requires |s| == 1 && !IsWordChar(s[0]) && s[0] != ' ' && Single(s[0]) == t
    ensures Lex(s) == [t]
  {
    assert s[1..] == "" && Step(s) == 1 && First(s) == [t];
    assert LexOnto(s, []) == First(s) + LexOnto("", []);
  }

  lemma {:induction false} LexBlank(rest: string)
    ensures Lex(" " + rest) == Lex(rest)
  {
    var s := " " + rest;
    assert s[0] == ' ' && s[1..] == rest && Step(s) == 1 && First(s) == [];
    assert LexOnto(s, []) == First(s) + LexOnto(rest, []);
  }

  lemma {:induction false} LexSpaced(s: string, t: Token)
    requires |s| == 2 && IsOperator(s[0]) && Double(s[0], s[1]) == Some(t)
    ensures Lex(" " + s) == [t] && Lex(" " + s + " ") == [t]
  {
    assert s[2..] == "" && Step(s) == 2 && First(s) == [t];
    assert LexOnto(s, []) == First(s) + LexOnto("", []);
    LexBlank(s);
    LexTrailingBlank(" " + s);
  }

  lemma {:induction false} LexRelation(equal: bool)
    ensures Lex(if equal then " == " else " != ") == [if equal then EqEq else NotEq]
  {
    LexPunctuation();
  }

  /** A comparison printed with blanks around its operator. */
  lemma {:induction false} LexCompare(field: string, equal: bool, value: string)
    requires IsWord(field) && IsWord(value)
    ensures Lex(field + (if equal then " == " else " != ") + value)
         == TermTokens(Compare(field, equal, [value], false))
  {
    LexRelation(equal);
    LexWord(field);
    LexWord(value);
    LexAround(field, if equal then " == " else " != ", value);
    CompareTokens(field, equal, value);
  }

  lemma {:induction false} CompareTokens(field: string, equal: bool, value: string)
    ensures TermTokens(Compare(field, equal, [value], false))
         == [Word(field)] + [if equal then EqEq else NotEq] + [Word(value)]
  {
    assert ValueTokens([value]) == [Word(value)];
  }

  /** Cutting the last two characters off a trailing " ||" leaves the text in front of it. */
  lemma {:induction false} LexEnding(text: string, tokens: seq<Token>)
    requires text != "" && !IsOperator(text[|text| - 1]) && Lex(text) == tokens
    ensures Lex(text + " ||") == tokens + [OrOr]
    ensures Lex((text + " ||")[..|text| + 1]) == tokens
  {
    LexTrailingOr();
    LexConcat(text, " ||");
    assert (text + " ||")[..|text| + 1] == text + " ";
    LexTrailingBlank(text);
  }

  lemma {:induction false} LexTrailingBlank(text: string)
    ensures Lex(text + " ") == Lex(text)
  {
    LexBlank("");
    assert " " + "" == " ";
    LexConcat(text, " ");
  }

  lemma {:induction false} LexEmptyParens()
    ensures Lex("()") == [LParen, RParen]
  {
    LexChar("(", LParen);
    LexChar(")", RParen);
    LexConcat("(", ")");
    assert "(" + ")" == "()";
  }

  /** "()" is no term. */
  lemma {:induction false} EmptyParens(rest: seq<Token>)
    ensures ParseTerm([LParen, RParen] + rest).None? && ParseExpr([LParen, RParen] + rest).None?
  {
    var ts := [LParen, RParen] + rest;
    assert ts[1..][0] == RParen;
    assert ParseTerm(ts[1..]).None?;
  }
}
