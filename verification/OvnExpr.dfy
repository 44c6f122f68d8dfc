/** The part of the OVN match language the rule compilers print: its text, its grammar, its meaning. */
module OvnExpr {
  import opened Wrappers
  import opened Cidr

  // ----- Tokens

  datatype Token =
    | Word(text: string)
    | LParen | RParen | LBrace | RBrace | Comma
    | AndAnd | OrOr | EqEq | NotEq
    | Stray(c: char)

  predicate IsOperator(c: char) {
    c == '&' || c == '|' || c == '=' || c == '!'
  }

  predicate IsWordChar(c: char) {
    !IsOperator(c) && c != ' ' && c != '(' && c != ')' && c != '{' && c != '}' && c != ','
  }

  predicate IsWord(s: string) {
    s != "" && forall i | 0 <= i < |s| :: IsWordChar(s[i])
  }

  function WordLength(s: string): (n: nat)
    ensures n <= |s| && (s != "" && IsWordChar(s[0]) ==> n > 0)
  {
    if s == "" || !IsWordChar(s[0]) then 0 else 1 + WordLength(s[1..])
  }

  function Single(c: char): Token {
    match c
    case '(' => LParen
    case ')' => RParen
    case '{' => LBrace
    case '}' => RBrace
    case ',' => Comma
    case _ => Stray(c)
  }

  /** The two-character operators. */
  function Double(c: char, d: char): Option<Token> {
    if c == '&' && d == '&' then Some(AndAnd)
    else if c == '|' && d == '|' then Some(OrOr)
    else if c == '=' && d == '=' then Some(EqEq)
    else if c == '!' && d == '=' then Some(NotEq)
    else None
  }

  /** How many characters the first token or blank takes. */
  function Step(s: string): (n: nat)
    requires s != ""
    ensures 0 < n <= |s|
  {
    if IsWordChar(s[0]) then WordLength(s)
    else if s[0] != ' ' && |s| > 1 && Double(s[0], s[1]).Some? then 2
    else 1
  }

  function First(s: string): seq<Token>
    requires s != ""
  {
    if s[0] == ' ' then []
    else if IsWordChar(s[0]) then [Word(s[..WordLength(s)])]
    else if |s| > 1 && Double(s[0], s[1]).Some? then [Double(s[0], s[1]).value]
    else [Single(s[0])]
  }

  /** The tokens of s in front of tail. */
  function LexOnto(s: string, tail: seq<Token>): seq<Token>
    decreases |s|
  {
    if s == "" then tail else First(s) + LexOnto(s[Step(s)..], tail)
  }

  function Lex(s: string): seq<Token> {
    LexOnto(s, [])
  }

  /** No token runs across the border between a and b. */
  predicate Border(a: string, b: string) {
    a == "" || b == "" ||
    (var c, d := a[|a| - 1], b[0]; !(IsWordChar(c) && IsWordChar(d)) && !(IsOperator(c) && IsOperator(d)))
  }

  lemma {:induction false} WordLengthStops(s: string)
    ensures forall i | 0 <= i < WordLength(s) :: IsWordChar(s[i])
    ensures WordLength(s) < |s| ==> !IsWordChar(s[WordLength(s)])
  {
    if s == "" || !IsWordChar(s[0]) {
    } else {
      WordLengthStops(s[1..]);
      assert forall i | 1 <= i < WordLength(s) :: s[i] == s[1..][i - 1];
    }
  }

  lemma {:induction false} WordLengthIs(s: string, n: nat)
    requires n <= |s| && (forall i | 0 <= i < n :: IsWordChar(s[i])) && (n < |s| ==> !IsWordChar(s[n]))
    ensures WordLength(s) == n
  {
    if n > 0 {
      WordLengthIs(s[1..], n - 1);
    }
  }

  lemma {:induction false} StepConcat(a: string, b: string)
    requires a != "" && Border(a, b)
    ensures Step(a + b) == Step(a) && First(a + b) == First(a)
  {
    var ab := a + b;
    assert ab[0] == a[0] && (|a| > 1 ==> ab[1] == a[1]) && (|a| == 1 && b != "" ==> ab[1] == b[0]);
    if IsWordChar(a[0]) {
      var n := WordLength(a);
      WordLengthStops(a);
      assert forall i | 0 <= i < n :: ab[i] == a[i];
      WordLengthIs(ab, n);
      assert ab[..n] == a[..n];
    }
  }

  lemma {:induction false} BorderTail(a: string, b: string, n: nat)
    requires Border(a, b) && n <= |a|
    ensures Border(a[n..], b)
  {
  }

  lemma {:induction false} LexConcatOnto(a: string, b: string, ab: string, tail: seq<Token>, tokens: seq<Token>)
    requires Border(a, b) && ab == a + b && tokens == LexOnto(b, tail)
    ensures LexOnto(ab, tail) == LexOnto(a, tokens)
    decreases |a|
  {
    if a == "" {
      assert ab == b;
    } else {
      var n := Step(a);
      StepConcat(a, b);
      BorderTail(a, b, n);
      LexConcatOnto(a[n..], b, ab[n..], tail, tokens);
    }
  }

  lemma {:induction false} LexOntoAppends(s: string, tail: seq<Token>)
    ensures LexOnto(s, tail) == LexOnto(s, []) + tail
    decreases |s|
  {
    if s == "" {
    } else {
      LexOntoAppends(s[Step(s)..], tail);
      Regroup(First(s), LexOnto(s[Step(s)..], []), tail);
    }
  }

  lemma {:induction false} Regroup(a: seq<Token>, b: seq<Token>, c: seq<Token>)
    ensures a + (b + c) == (a + b) + c
  {
  }

  lemma {:induction false} LexConcat(a: string, b: string)
    requires Border(a, b)
    ensures Lex(a + b) == Lex(a) + Lex(b)
  {
    LexConcatOnto(a, b, a + b, [], Lex(b));
    LexOntoAppends(a, Lex(b));
  }

  lemma {:induction false} LexWord(w: string)
    requires IsWord(w)
    ensures Lex(w) == [Word(w)]
  {
    WordLengthIs(w, |w|);
    assert w[..|w|] == w && w[|w|..] == "" && First(w) == [Word(w)] && Step(w) == |w|;
    assert LexOnto(w, []) == First(w) + LexOnto("", []);
  }

  // ----- Grammar

  datatype Term =
    | Paren(e: Expr)
    | Symbol(name: string)
    | Compare(field: string, equal: bool, values: seq<string>, braced: bool)

  /** Terms joined by one operator; a single term counts as a conjunction. */
  datatype Expr = Chain(conj: bool, terms: seq<Term>)

  function Operator(conj: bool): Token {
    if conj then AndAnd else OrOr
  }

  function ParseValues(ts: seq<Token>): (r: Option<(seq<string>, seq<Token>)>)
    ensures r.Some? ==> |r.value.1| < |ts|
    decreases |ts|
  {
    if |ts| < 2 || !ts[0].Word? then None
    else if ts[1] == RBrace then Some(([ts[0].text], ts[2..]))
    else if ts[1] == Comma then
      match ParseValues(ts[2..])
      case None => None
      case Some((vs, rest)) => Some(([ts[0].text] + vs, rest))
    else None
  }

  function ParseCompare(field: string, equal: bool, ts: seq<Token>): (r: Option<(Term, seq<Token>)>)
    ensures r.Some? ==> |r.value.1| < |ts|
  {
    if ts == [] then None
    else if ts[0].Word? then Some((Compare(field, equal, [ts[0].text], false), ts[1..]))
    else if ts[0] == LBrace then
      match ParseValues(ts[1..])
      case None => None
      case Some((vs, rest)) => Some((Compare(field, equal, vs, true), rest))
    else None
  }

  function ParseTerm(ts: seq<Token>): (r: Option<(Term, seq<Token>)>)
    ensures r.Some? ==> |r.value.1| < |ts|
    decreases |ts|, 0
  {
    if ts == [] then None
    else if ts[0] == LParen then
      match ParseExpr(ts[1..])
      case None => None
      case Some((e, rest)) => if rest != [] && rest[0] == RParen then Some((Paren(e), rest[1..])) else None
    else if ts[0].Word? then
      if |ts| > 1 && (ts[1] == EqEq || ts[1] == NotEq) then ParseCompare(ts[0].text, ts[1] == EqEq, ts[2..])
      else Some((Symbol(ts[0].text), ts[1..]))
    else None
  }

  /** One or more terms joined by the given operator; another operator after them is left in the rest. */
  function ParseTerms(conj: bool, ts: seq<Token>): (r: Option<(seq<Term>, seq<Token>)>)
    ensures r.Some? ==> |r.value.1| < |ts|
    decreases |ts|, 1
  {
    match ParseTerm(ts)
    case None => None
    case Some((t, rest)) =>
      if rest != [] && rest[0] == Operator(conj) then
        match ParseTerms(conj, rest[1..])
        case None => None
        case Some((more, rest')) => Some(([t] + more, rest'))
      else Some(([t], rest))
  }

  /** "&&" and "||" must be parenthesised when used together, so what follows the chain decides. */
  function ParseExpr(ts: seq<Token>): (r: Option<(Expr, seq<Token>)>)
    ensures r.Some? ==> |r.value.1| < |ts|
    decreases |ts|, 2
  {
    match ParseTerm(ts)
    case None => None
    case Some((_, rest)) =>
      var conj := !(rest != [] && rest[0] == OrOr);
      match ParseTerms(conj, ts)
      case None => None
      case Some((terms, rest')) => Some((Chain(conj, terms), rest'))
  }

  function Parse(s: string): Option<Expr> {
    match ParseExpr(Lex(s))
    case None => None
    case Some((e, rest)) => if rest == [] then Some(e) else None
  }

  // ----- Printing back, and the round trip

  ghost predicate WellFormed(t: Term) {
    match t
    case Paren(e) => WellFormedExpr(e)
    case Symbol(_) => true
    case Compare(_, _, values, braced) => values != [] && (!braced ==> |values| == 1)
  }

  ghost predicate WellFormedExpr(e: Expr) {
    && e.terms != [] && (|e.terms| == 1 ==> e.conj)
    && forall i | 0 <= i < |e.terms| :: WellFormed(e.terms[i])
  }

  function ValueTokens(vs: seq<string>): seq<Token> {
    if vs == [] then [] else if |vs| == 1 then [Word(vs[0])] else [Word(vs[0]), Comma] + ValueTokens(vs[1..])
  }

  function TermTokens(t: Term): seq<Token>
    decreases t
  {
    match t
    case Paren(e) => [LParen] + ChainTokens(e.conj, e.terms) + [RParen]
    case Symbol(name) => [Word(name)]
    case Compare(field, equal, values, braced) =>
      [Word(field), if equal then EqEq else NotEq]
      + if braced then [LBrace] + ValueTokens(values) + [RBrace] else ValueTokens(values)
  }

  function ChainTokens(conj: bool, terms: seq<Term>): seq<Token>
    decreases terms
  {
    if terms == [] then []
    else if |terms| == 1 then TermTokens(terms[0])
    else TermTokens(terms[0]) + [Operator(conj)] + ChainTokens(conj, terms[1..])
  }

  /** What may follow a term. */
  predicate Follows(rest: seq<Token>) {
    rest == [] || rest[0] == RParen || rest[0] == AndAnd || rest[0] == OrOr
  }

  lemma {:induction false} ParseValuesTokens(vs: seq<string>, rest: seq<Token>)
    requires vs != []
    ensures ParseValues(ValueTokens(vs) + [RBrace] + rest) == Some((vs, rest))
  {
    var ts := ValueTokens(vs) + [RBrace] + rest;
    if |vs| == 1 {
      assert ts == [Word(vs[0]), RBrace] + rest;
      assert ts[2..] == rest;
      assert [vs[0]] == vs;
    } else {
      ParseValuesTokens(vs[1..], rest);
      assert ts == [Word(vs[0]), Comma] + (ValueTokens(vs[1..]) + [RBrace] + rest);
      assert ts[2..] == ValueTokens(vs[1..]) + [RBrace] + rest;
      assert [vs[0]] + vs[1..] == vs;
    }
  }

  lemma {:induction false} ParseCompareTokens(t: Term, rest: seq<Token>)
    requires WellFormed(t) && t.Compare?
    ensures ParseTerm(TermTokens(t) + rest) == Some((t, rest))
  {
    var ts := TermTokens(t) + rest;
    assert ts[0] == Word(t.field) && ts[1] == if t.equal then EqEq else NotEq;
    if t.braced {
      ParseValuesTokens(t.values, rest);
      assert ts[2..] == [LBrace] + (ValueTokens(t.values) + [RBrace] + rest);
      assert ts[2..][1..] == ValueTokens(t.values) + [RBrace] + rest;
    } else {
      assert ts[2..] == [Word(t.values[0])] + rest;
      assert ts[2..][1..] == rest && [t.values[0]] == t.values;
    }
  }

  lemma {:induction false} ParseTermTokens(t: Term, rest: seq<Token>)
    requires WellFormed(t) && Follows(rest)
    ensures ParseTerm(TermTokens(t) + rest) == Some((t, rest))
    decreases t, 1
  {
    match t
    case Symbol(name) =>
      assert (TermTokens(t) + rest)[1..] == rest;
    case Compare(_, _, _, _) => ParseCompareTokens(t, rest);
    case Paren(e) =>
      var ts := TermTokens(t) + rest;
      ParseExprTokens(e, [RParen] + rest);
      assert ts[1..] == ChainTokens(e.conj, e.terms) + ([RParen] + rest);
      assert ([RParen] + rest)[1..] == rest;
  }

  lemma {:induction false} ParseExprTokens(e: Expr, rest: seq<Token>)
    requires WellFormedExpr(e) && (rest == [] || rest[0] == RParen)
    ensures ParseExpr(ChainTokens(e.conj, e.terms) + rest) == Some((e, rest))
    decreases e, 0
  {
    ChainSplit(e.conj, e.terms, rest);
    ParseTermsTokens(e.conj, e.terms, rest);
    var after := if |e.terms| == 1 then rest
                 else [Operator(e.conj)] + (ChainTokens(e.conj, e.terms[1..]) + rest);
    ParseTermTokens(e.terms[0], after);
    ParseExprStep(e, ChainTokens(e.conj, e.terms) + rest, after, rest);
  }

  lemma {:induction false} ParseExprStep(e: Expr, ts: seq<Token>, after: seq<Token>, rest: seq<Token>)
    requires e.terms != [] && ParseTerm(ts) == Some((e.terms[0], after))
    requires ParseTerms(e.conj, ts) == Some((e.terms, rest))
    requires e.conj <==> !(after != [] && after[0] == OrOr)
    ensures ParseExpr(ts) == Some((e, rest))
  {
  }

  lemma {:induction false} ParseTermsTokens(conj: bool, terms: seq<Term>, rest: seq<Token>)
    requires terms != [] && (forall i | 0 <= i < |terms| :: WellFormed(terms[i]))
    requires rest == [] || rest[0] == RParen
    ensures ParseTerms(conj, ChainTokens(conj, terms) + rest) == Some((terms, rest))
    decreases terms, 2
  {
    ChainSplit(conj, terms, rest);
    var ts, t := ChainTokens(conj, terms) + rest, terms[0];
    if |terms| == 1 {
      ParseTermTokens(t, rest);
      ParseTermsLast(conj, ts, t, rest);
      assert terms == [t];
    } else {
      var tail := ChainTokens(conj, terms[1..]) + rest;
      var after := [Operator(conj)] + tail;
      ParseTermTokens(t, after);
      ParseTermsTokens(conj, terms[1..], rest);
      ParseTermsStep(conj, ts, t, after, tail, terms[1..], rest);
      assert terms == [t] + terms[1..];
    }
  }

  lemma {:induction false} ChainSplit(conj: bool, terms: seq<Term>, rest: seq<Token>)
    requires terms != []
    ensures ChainTokens(conj, terms) + rest
         == TermTokens(terms[0])
            + if |terms| == 1 then rest else [Operator(conj)] + (ChainTokens(conj, terms[1..]) + rest)
  {
  }

  lemma {:induction false} ParseTermsLast(conj: bool, ts: seq<Token>, t: Term, rest: seq<Token>)
    requires ParseTerm(ts) == Some((t, rest)) && (rest == [] || rest[0] == RParen)
    ensures ParseTerms(conj, ts) == Some(([t], rest))
  {
  }

  lemma {:induction false} ParseTermsStep(conj: bool, ts: seq<Token>, t: Term, after: seq<Token>, tail: seq<Token>,
                       more: seq<Term>, rest: seq<Token>)
    requires ParseTerm(ts) == Some((t, after)) && after == [Operator(conj)] + tail
    requires ParseTerms(conj, tail) == Some((more, rest))
    ensures ParseTerms(conj, ts) == Some(([t] + more, rest))
  {
    assert after[1..] == tail;
  }

  /** Text that lexes to the tokens of a well-formed expression parses to that expression. */
  lemma {:induction false} ParsesTo(s: string, e: Expr)
    requires WellFormedExpr(e) && Lex(s) == ChainTokens(e.conj, e.terms)
    ensures Parse(s) == Some(e)
  {
    ParseExprTokens(e, []);
    assert ChainTokens(e.conj, e.terms) + [] == ChainTokens(e.conj, e.terms);
  }

  // ----- Numbers

  function Digit(n: nat): char
    requires n < 10
  {
    ['0', '1', '2', '3', '4', '5', '6', '7', '8', '9'][n]
  }

  /** %d for a non-negative number. */
  function Decimal(n: nat): (s: string)
    ensures IsWord(s)
  {
    if n < 10 then [Digit(n)] else Decimal(n / 10) + [Digit(n % 10)]
  }

  function DigitValue(c: char): Option<nat> {
    if '0' <= c <= '9' then Some((c - '0') as int) else None
  }

  function Number(s: string): Option<nat> {
    if s == "" then None
    else match DigitValue(s[|s| - 1])
      case None => None
      case Some(d) =>
        if |s| == 1 then Some(d)
        else match Number(s[..|s| - 1])
          case None => None
          case Some(n) => Some(10 * n + d)
  }

  lemma {:induction false} NumberOfDecimal(n: nat)
    ensures Number(Decimal(n)) == Some(n)
  {
    if n < 10 {
    } else {
      NumberOfDecimal(n / 10);
      NumberMore(Decimal(n / 10), n / 10, n % 10);
    }
  }

  lemma {:induction false} NumberMore(s: string, n: nat, d: nat)
    requires s != "" && Number(s) == Some(n) && d < 10
    ensures Number(s + [Digit(d)]) == Some(10 * n + d)
  {
    assert (s + [Digit(d)])[..|s|] == s;
  }

  // ----- Meaning

  datatype Protocol = TCP | UDP | SCTP | OtherProtocol

  datatype RawPacket = Packet(src: IP, dst: IP, proto: Protocol, dstPort: nat, inport: string, outport: string)

  /** A packet has one address family. */
  type Packet = p: RawPacket | p.src.v6 == p.dst.v6
    witness Packet(IP(false, 0), IP(false, 0), OtherProtocol, 0, "", "")

  /** What names stand for: address sets ($), port groups (@), and address constants. */
  datatype Env = Env(
    sets: string -> set<IP>,
    groups: string -> set<string>,
    cidr: string -> Option<Subnet>)

  /** An address set is named with a "$"; anything else compared with an address is a constant. */
  predicate IsSetName(value: string) {
    value != "" && value[0] == '$'
  }

  predicate IsAmong(env: Env, value: string, ip: IP) {
    if IsSetName(value) then ip in env.sets(value[1..])
    else env.cidr(value).Some? && Contains(env.cidr(value).value, ip)
  }

  predicate IsPort(env: Env, value: string, port: string) {
    if value != "" && value[0] == '@' then port in env.groups(value[1..])
    else value == "\"" + port + "\""
  }

  /** One comparison against one value; the field's prerequisite is checked apart. */
  predicate Holds(env: Env, field: string, value: string, p: Packet) {
    if field == "ip4.src" || field == "ip6.src" then IsAmong(env, value, p.src)
    else if field == "ip4.dst" || field == "ip6.dst" then IsAmong(env, value, p.dst)
    else if field == "tcp.dst" || field == "udp.dst" || field == "sctp.dst" then Number(value) == Some(p.dstPort)
    else if field == "inport" then IsPort(env, value, p.inport)
    else if field == "outport" then IsPort(env, value, p.outport)
    else false
  }

  /** A field that not every packet has carries an implied conjunct. */
  predicate HasField(field: string, p: Packet) {
    if field == "ip4.src" || field == "ip4.dst" then !p.src.v6
    else if field == "ip6.src" || field == "ip6.dst" then p.src.v6
    else if field == "tcp.dst" then p.proto == TCP
    else if field == "udp.dst" then p.proto == UDP
    else if field == "sctp.dst" then p.proto == SCTP
    else field == "inport" || field == "outport"
  }

  predicate Names(symbol: string, p: Packet) {
    if symbol == "ip4" then !p.src.v6
    else if symbol == "ip6" then p.src.v6
    else if symbol == "tcp" then p.proto == TCP
    else if symbol == "udp" then p.proto == UDP
    else if symbol == "sctp" then p.proto == SCTP
    else false
  }

  predicate TermTrue(env: Env, t: Term, p: Packet) {
    match t
    case Paren(e) => True(env, e, p)
    case Symbol(name) => Names(name, p)
    case Compare(field, equal, values, _) =>
      HasField(field, p) && equal == exists i | 0 <= i < |values| :: Holds(env, field, values[i], p)
  }

  predicate True(env: Env, e: Expr, p: Packet) {
    if e.conj then forall i | 0 <= i < |e.terms| :: TermTrue(env, e.terms[i], p)
    else exists i | 0 <= i < |e.terms| :: TermTrue(env, e.terms[i], p)
  }

  predicate IsAddressField(field: string) {
    field == "ip4.src" || field == "ip4.dst" || field == "ip6.src" || field == "ip6.dst"
  }

  /** A constant compared with an address field has to be one, and of the field's width. */
  predicate ReadableValue(env: Env, field: string, value: string) {
    IsAddressField(field) && !IsSetName(value) ==>
      env.cidr(value).Some? && env.cidr(value).value.v6 == (field == "ip6.src" || field == "ip6.dst")
  }

  predicate ReadableTerm(env: Env, t: Term) {
    match t
    case Paren(e) => Readable(env, e)
    case Symbol(_) => true
    case Compare(field, _, values, _) => forall i | 0 <= i < |values| :: ReadableValue(env, field, values[i])
  }

  predicate Readable(env: Env, e: Expr) {
    forall i | 0 <= i < |e.terms| :: ReadableTerm(env, e.terms[i])
  }

  /** The meaning of printed text: a match that does not parse, or has an unreadable constant anywhere, matches nothing. */
  predicate Matches(env: Env, text: string, p: Packet) {
    match Parse(text)
    case None => false
    case Some(e) => Readable(env, e) && True(env, e, p)
  }
}
