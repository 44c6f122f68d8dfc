/** Conjunctions of printed parts, some of which may be malformed: how they lex, parse and what they mean. */
module OvnParts {
  import opened Wrappers
  import opened OvnExpr
  import opened OvnText

  /** Missing is no text at all, Hollow an empty pair of parentheses. */
  datatype Part = Good(term: Term) | Missing | Hollow

  function PartTokens(part: Part): seq<Token> {
    match part
    case Good(t) => TermTokens(t)
    case Missing => []
    case Hollow => [LParen, RParen]
  }

  function PartsTokens(parts: seq<Part>): seq<Token> {
    if parts == [] then []
    else if |parts| == 1 then PartTokens(parts[0])
    else PartTokens(parts[0]) + [AndAnd] + PartsTokens(parts[1..])
  }

  ghost predicate PartTrue(env: Env, part: Part, p: Packet) {
    part.Good? && TermTrue(env, part.term, p)
  }

  /** The constants of all parts can be read. */
  ghost predicate AllReadable(env: Env, parts: seq<Part>) {
    forall i | 0 <= i < |parts| && parts[i].Good? :: ReadableTerm(env, parts[i].term)
  }

  ghost predicate AllTrue(env: Env, parts: seq<Part>, p: Packet) {
    forall i | 0 <= i < |parts| :: PartTrue(env, parts[i], p)
  }

  predicate AllGood(parts: seq<Part>) {
    forall i | 0 <= i < |parts| :: parts[i].Good?
  }

  ghost predicate Sound(parts: seq<Part>) {
    forall i | 0 <= i < |parts| && parts[i].Good? :: WellFormed(parts[i].term)
  }

  function Terms(parts: seq<Part>): seq<Term>
    requires AllGood(parts)
  {
    seq(|parts|, i requires 0 <= i < |parts| => parts[i].term)
  }

  lemma {:induction false} PartsConcat(a: seq<Part>, b: seq<Part>)
    requires a != [] && b != []
    ensures PartsTokens(a + b) == PartsTokens(a) + [AndAnd] + PartsTokens(b)
  {
    var ab := a + b;
    assert ab[0] == a[0] && ab[1..] == a[1..] + b;
    if |a| == 1 {
      assert ab[1..] == b;
    } else {
      PartsConcat(a[1..], b);
    }
  }

  /** Appending printed parts. */
  lemma {:induction false} LexMoreParts(text: string, parts: seq<Part>, more: string, others: seq<Part>)
    requires parts != [] && others != []
    requires Lex(text) == PartsTokens(parts) && Lex(more) == PartsTokens(others)
    ensures Lex(text + " && " + more) == PartsTokens(parts + others)
  {
    LexAnd();
    LexAround(text, " && ", more);
    PartsConcat(parts, others);
  }

  lemma {:induction false} PartParse(part: Part, rest: seq<Token>)
    requires part.Good? ==> WellFormed(part.term)
    requires rest == [] || rest[0] == AndAnd
    ensures ParseTerm(PartTokens(part) + rest) == if part.Good? then Some((part.term, rest)) else None
  {
    match part
    case Good(t) => ParseTermTokens(t, rest);
    case Missing => assert [] + rest == rest;
    case Hollow => EmptyParens(rest);
  }

  lemma {:induction false} PartsSplit(parts: seq<Part>)
    requires parts != []
    ensures PartsTokens(parts)
         == PartTokens(parts[0]) + if |parts| == 1 then [] else [AndAnd] + PartsTokens(parts[1..])
  {
  }

  lemma {:induction false} GoodSplit(parts: seq<Part>)
    requires parts != []
    ensures AllGood(parts) <==> parts[0].Good? && AllGood(parts[1..])
    ensures AllGood(parts) ==> Terms(parts) == [parts[0].term] + Terms(parts[1..])
  {
    assert parts == [parts[0]] + parts[1..];
  }

  lemma {:induction false} BrokenLater(ts: seq<Token>, t: Term, tail: seq<Token>)
    requires ParseTerm(ts) == Some((t, [AndAnd] + tail)) && ParseTerms(true, tail).None?
    ensures ParseTerms(true, ts).None?
  {
    assert ([AndAnd] + tail)[1..] == tail;
  }

  /** What the parse of a chain should give. */
  function Parsed(parts: seq<Part>): Option<(seq<Term>, seq<Token>)> {
    if AllGood(parts) then Some((Terms(parts), [])) else None
  }

  /** A chain parses exactly when each of its parts does. */
  lemma {:induction false} PartsParse(parts: seq<Part>)
    requires parts != [] && Sound(parts)
    ensures ParseTerms(true, PartsTokens(parts)) == Parsed(parts)
  {
    var ts := PartsTokens(parts);
    if |parts| == 1 {
      LastPartParse(parts, ts);
    } else {
      PartsParse(parts[1..]);
      PartsSplit(parts);
      MorePartsParse(parts, ts, PartsTokens(parts[1..]));
    }
  }

  lemma {:induction false} LastPartParse(parts: seq<Part>, ts: seq<Token>)
    requires |parts| == 1 && Sound(parts) && ts == PartsTokens(parts)
    ensures ParseTerms(true, ts) == Parsed(parts)
  {
    PartsSplit(parts);
    PartParse(parts[0], []);
    GoodSplit(parts);
    if parts[0].Good? {
      ParseTermsLast(true, ts, parts[0].term, []);
      assert Terms(parts) == [parts[0].term];
    }
  }

  lemma {:induction false} MorePartsParse(parts: seq<Part>, ts: seq<Token>, tail: seq<Token>)
    requires |parts| > 1 && Sound(parts)
    requires ts == PartTokens(parts[0]) + ([AndAnd] + tail)
    requires ParseTerms(true, tail) == Parsed(parts[1..])
    ensures ParseTerms(true, ts) == Parsed(parts)
  {
    PartParse(parts[0], [AndAnd] + tail);
    GoodSplit(parts);
    if !parts[0].Good? {
    } else if AllGood(parts[1..]) {
      ParseTermsStep(true, ts, parts[0].term, [AndAnd] + tail, tail, Terms(parts[1..]), []);
    } else {
      BrokenLater(ts, parts[0].term, tail);
    }
  }

  lemma {:induction false} TextParse(text: string, parts: seq<Part>)
    requires parts != [] && Sound(parts) && Lex(text) == PartsTokens(parts)
    ensures Parse(text) == if AllGood(parts) then Some(Chain(true, Terms(parts))) else None
  {
    var after := if |parts| == 1 then [] else [AndAnd] + PartsTokens(parts[1..]);
    PartsSplit(parts);
    PartParse(parts[0], after);
    PartsParse(parts);
    ExprOfTerms(Lex(text), Parsed(parts));
  }

  lemma {:induction false} ExprOfTerms(ts: seq<Token>, terms: Option<(seq<Term>, seq<Token>)>)
    requires ParseTerms(true, ts) == terms
    requires ParseTerm(ts).Some? ==> ParseTerm(ts).value.1 == [] || ParseTerm(ts).value.1[0] == AndAnd
    ensures ParseExpr(ts) == if terms.None? then None else Some((Chain(true, terms.value.0), terms.value.1))
  {
  }

  lemma {:induction false} TextMeaning(env: Env, text: string, parts: seq<Part>, p: Packet)
    requires parts != [] && Sound(parts) && Lex(text) == PartsTokens(parts)
    ensures Matches(env, text, p) <==> AllReadable(env, parts) && AllTrue(env, parts, p)
  {
    TextParse(text, parts);
    if AllGood(parts) {
      var terms := Terms(parts);
      assert forall i | 0 <= i < |parts| :: terms[i] == parts[i].term;
      assert forall i | 0 <= i < |parts| :: TermTrue(env, terms[i], p) <==> PartTrue(env, parts[i], p);
      assert Readable(env, Chain(true, terms)) <==> AllReadable(env, parts);
    }
  }

  lemma {:induction false} SinglePart(t: Term)
    ensures PartsTokens([Good(t)]) == TermTokens(t)
  {
  }

  lemma {:induction false} AllTrueConcat(env: Env, a: seq<Part>, b: seq<Part>, p: Packet)
    ensures AllTrue(env, a + b, p) <==> AllTrue(env, a, p) && AllTrue(env, b, p)
    ensures AllReadable(env, a + b) <==> AllReadable(env, a) && AllReadable(env, b)
    ensures Sound(a + b) <==> Sound(a) && Sound(b)
  {
    var ab := a + b;
    assert forall i | 0 <= i < |a| :: ab[i] == a[i];
    assert forall i | 0 <= i < |b| :: ab[|a| + i] == b[i];
  }
}
