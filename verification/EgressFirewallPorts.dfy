/** The port conditions of pkg/ovn/egressfirewall.go: a list of entries printed as match text. */
module EgressFirewallPorts {
  import opened Wrappers
  import opened Cidr
  import opened OvnExpr
  import opened OvnText

  // ----- Ports

  datatype PortEntry = PortEntry(protocol: Protocol, port: nat)

  /** What a list of port entries promises: port 0 stands for every port of the protocol. */
  predicate PortsAllow(entries: seq<PortEntry>, p: Packet) {
    exists i | 0 <= i < |entries| ::
      entries[i].protocol == p.proto && p.proto != OtherProtocol
      && (entries[i].port == 0 || entries[i].port == p.dstPort)
  }

  predicate SomeKnown(entries: seq<PortEntry>) {
    exists i | 0 <= i < |entries| :: entries[i].protocol != OtherProtocol
  }

  function ProtocolName(proto: Protocol): string {
    match proto
    case TCP => "tcp"
    case UDP => "udp"
    case SCTP => "sctp"
    case OtherProtocol => ""
  }

  /** What is collected for one protocol: every port, or those listed. */
  datatype Ports = AnyPort | Listed(ports: seq<nat>)

  function Collected(entries: seq<PortEntry>, proto: Protocol): Ports {
    if entries == [] then Listed([])
    else
      var before, last := Collected(entries[..|entries| - 1], proto), entries[|entries| - 1];
      if last.protocol != proto || before.AnyPort? then before
      else if last.port == 0 then AnyPort
      else Listed(before.ports + [last.port])
  }

  lemma {:induction false} CollectedMeaning(entries: seq<PortEntry>, proto: Protocol, port: nat)
    ensures (Collected(entries, proto).AnyPort? || port in Collected(entries, proto).ports)
       <==> exists i | 0 <= i < |entries| ::
              entries[i].protocol == proto && (entries[i].port == 0 || entries[i].port == port)
    ensures Collected(entries, proto) != Listed([])
       <==> exists i | 0 <= i < |entries| :: entries[i].protocol == proto
  {
    if entries == [] {
    } else {
      var before, last := entries[..|entries| - 1], entries[|entries| - 1];
      CollectedMeaning(before, proto, port);
      assert forall i | 0 <= i < |before| :: entries[i] == before[i];
    }
  }

  function PortText(name: string, ports: seq<nat>): string {
    if ports == [] then ""
    else PortText(name, ports[..|ports| - 1]) + " " + name + ".dst == " + Decimal(ports[|ports| - 1]) + " ||"
  }

  function CollectedText(name: string, c: Ports): string {
    match c
    case AnyPort => name
    case Listed(ports) => PortText(name, ports)
  }

  function PortTerm(name: string, port: nat): Term {
    Compare(name + ".dst", true, [Decimal(port)], false)
  }

  function PortTerms(name: string, ports: seq<nat>): seq<Term> {
    seq(|ports|, i requires 0 <= i < |ports| => PortTerm(name, ports[i]))
  }

  /** The printed condition of one protocol. */
  function ProtocolTerm(name: string, c: Ports): Term {
    match c
    case AnyPort => Paren(Chain(true, [Symbol(name)]))
    case Listed(ports) => Paren(Chain(true, [Symbol(name), Paren(AnyOf(PortTerms(name, ports)))]))
  }

  function ProtocolTerms(entries: seq<PortEntry>, protos: seq<Protocol>): seq<Term> {
    if protos == [] then []
    else
      var before, proto := ProtocolTerms(entries, protos[..|protos| - 1]), protos[|protos| - 1];
      var c := Collected(entries, proto);
      if c == Listed([]) then before else before + [ProtocolTerm(ProtocolName(proto), c)]
  }

  const PROTOCOLS: seq<Protocol> := [UDP, TCP, SCTP]

  function L4Term(entries: seq<PortEntry>): Term {
    Paren(AnyOf(ProtocolTerms(entries, PROTOCOLS)))
  }

  lemma {:induction false} LexPort(name: string, port: nat)
    requires IsWord(name)
    ensures Lex(" " + name + ".dst == " + Decimal(port)) == TermTokens(PortTerm(name, port))
  {
    LexCompare(name + ".dst", true, Decimal(port));
    var text := name + ".dst" + " == " + Decimal(port);
    LexBlank(text);
    assert " " + text == " " + name + ".dst == " + Decimal(port);
  }

  /** The text with its trailing "||" cut off prints the ports as alternatives. */
  lemma {:induction false} LexPorts(name: string, ports: seq<nat>)
    requires IsWord(name) && ports != []
    ensures var text := PortText(name, ports);
            && |text| >= 2
            && Lex(text[..|text| - 2]) == ChainTokens(false, PortTerms(name, ports))
            && Lex(text) == ChainTokens(false, PortTerms(name, ports)) + [OrOr]
  {
    var before, last := ports[..|ports| - 1], ports[|ports| - 1];
    var one, start := " " + name + ".dst == " + Decimal(last), PortText(name, before);
    LexPort(name, last);
    if before != [] {
      LexPorts(name, before);
    }
    LexOnePort(name, before, last);
    assert ports == before + [last];
    PortTextMore(name, before, last);
  }

  lemma {:induction false} PortTextMore(name: string, ports: seq<nat>, last: nat)
    ensures PortText(name, ports + [last])
         == PortText(name, ports) + (" " + name + ".dst == " + Decimal(last)) + " ||"
    ensures PortTerms(name, ports + [last]) == PortTerms(name, ports) + [PortTerm(name, last)]
  {
    assert (ports + [last])[..|ports|] == ports;
  }

  lemma {:induction false} LexPortsSoFar(name: string, ports: seq<nat>, last: nat)
    requires IsWord(name)
    requires ports != [] ==> Lex(PortText(name, ports)) == ChainTokens(false, PortTerms(name, ports)) + [OrOr]
    ensures Lex(PortText(name, ports) + (" " + name + ".dst == " + Decimal(last)))
         == ChainTokens(false, PortTerms(name, ports + [last]))
  {
    var start, one, t := PortText(name, ports), " " + name + ".dst == " + Decimal(last), PortTerm(name, last);
    PortTextMore(name, ports, last);
    LexPort(name, last);
    ChainSingle(false, [t]);
    if ports != [] {
      ChainConcat(false, PortTerms(name, ports), [t]);
      LexConcat(start, one);
    } else {
      assert start + one == one && PortTerms(name, ports) + [t] == [t];
    }
  }

  lemma {:induction false} LexOnePort(name: string, ports: seq<nat>, last: nat)
    requires IsWord(name)
    requires ports != [] ==> Lex(PortText(name, ports)) == ChainTokens(false, PortTerms(name, ports)) + [OrOr]
    ensures var text, terms := PortText(name, ports + [last]), PortTerms(name, ports + [last]);
            && |text| >= 2
            && Lex(text[..|text| - 2]) == ChainTokens(false, terms)
            && Lex(text) == ChainTokens(false, terms) + [OrOr]
  {
    var text := PortText(name, ports) + (" " + name + ".dst == " + Decimal(last));
    PortTextMore(name, ports, last);
    LexPortsSoFar(name, ports, last);
    LexEnding(text, ChainTokens(false, PortTerms(name, ports + [last])));
  }

  /** What the code prints for one protocol with something collected. */
  function ProtocolText(name: string, c: Ports): string
    requires c != Listed([])
  {
    match c
    case AnyPort => "(" + name + ")"
    case Listed(ports) =>
      LexPortsLength(name, ports);
      "(" + name + " && (" + PortText(name, ports)[..|PortText(name, ports)| - 2] + "))"
  }

  lemma LexPortsLength(name: string, ports: seq<nat>)
    requires ports != []
    ensures |PortText(name, ports)| >= 2 && PortText(name, ports)[0] == ' '
  {
  }

  lemma {:induction false} LexProtocol(name: string, c: Ports)
    requires IsWord(name) && c != Listed([])
    ensures Lex(ProtocolText(name, c)) == TermTokens(ProtocolTerm(name, c))
  {
    match c
    case AnyPort =>
      LexWord(name);
      LexParen(name, Chain(true, [Symbol(name)]));
    case Listed(ports) =>
      var text := PortText(name, ports);
      LexPorts(name, ports);
      AnyOfTokens(PortTerms(name, ports));
      LexListed(name, text[..|text| - 2], AnyOf(PortTerms(name, ports)));
  }

  lemma {:induction false} LexListed(name: string, inner: string, e: Expr)
    requires IsWord(name) && Lex(inner) == ChainTokens(e.conj, e.terms)
    ensures Lex("(" + name + " && (" + inner + "))") == TermTokens(Paren(Chain(true, [Symbol(name), Paren(e)])))
  {
    var group, both := "(" + inner + ")", Chain(true, [Symbol(name), Paren(e)]);
    LexParen(inner, e);
    LexWord(name);
    LexConjunction(name, group, Symbol(name), Paren(e));
    assert both.terms == [Symbol(name)] + [Paren(e)];
    var text := name + " && " + group;
    LexParen(text, both);
    ListedText(name, inner);
  }

  lemma {:induction false} ListedText(name: string, inner: string)
    ensures "(" + (name + " && " + ("(" + inner + ")")) + ")" == "(" + name + " && (" + inner + "))"
  {
  }

  lemma {:induction false} LexConjunction(a: string, b: string, s: Term, t: Term)
    requires Lex(a) == TermTokens(s) && Lex(b) == TermTokens(t)
    ensures Lex(a + " && " + b) == ChainTokens(true, [s] + [t])
  {
    LexPunctuation();
    ChainSingle(true, [s]);
    LexAppendTerm(true, a, [s], " && ", b, t);
  }

  lemma {:induction false} TextTells(name: string, c: Ports)
    requires IsWord(name)
    ensures CollectedText(name, c) == name <==> c.AnyPort?
    ensures CollectedText(name, c) == "" <==> c == Listed([])
  {
    if c.Listed? && c.ports != [] {
      LexPortsLength(name, c.ports);
      assert name[0] != ' ';
    }
  }

  /** The string accumulator of one protocol after the given entries. */
  predicate Holding(text: string, name: string, proto: Protocol, entries: seq<PortEntry>) {
    text == CollectedText(name, Collected(entries, proto))
  }

  function PortAdded(text: string, name: string, port: nat): string {
    if text == name then text
    else if port == 0 then name
    else text + " " + name + ".dst == " + Decimal(port) + " ||"
  }

  lemma {:induction false} HoldingMore(ports: seq<PortEntry>, i: nat, name: string, proto: Protocol, text: string, more: string)
    requires i < |ports| && IsWord(name) && Holding(text, name, proto, ports[..i])
    requires more == if ports[i].protocol == proto then PortAdded(text, name, ports[i].port) else text
    ensures Holding(more, name, proto, ports[..i + 1])
  {
    assert ports[..i + 1][..i] == ports[..i];
    var c := Collected(ports[..i], proto);
    TextTells(name, c);
    if c.Listed? {
      assert (c.ports + [ports[i].port])[..|c.ports|] == c.ports;
    }
  }

  /** The alternatives printed so far. */
  ghost predicate Printed(l4: string, terms: seq<Term>) {
    (l4 == "" <==> terms == []) && Lex(l4) == ChainTokens(false, terms)
  }

  function Joined(l4: string, part: string): string {
    if l4 == "" then part else l4 + " || " + part
  }

  /** The branches of the loop over the three protocols. */
  method AppendProtocol(l4Match: string, name: string, formatted: string, ghost c: Ports) returns (r: string)
    requires IsWord(name) && formatted == CollectedText(name, c)
    ensures r == if c == Listed([]) then l4Match else Joined(l4Match, ProtocolText(name, c))
  {
    TextTells(name, c);
    r := l4Match;
    if name == formatted {
      if l4Match == "" {
        r := "(" + name + ")";
      } else {
        r := l4Match + " || (" + name + ")";
        assert r == l4Match + " || " + ("(" + name + ")");
      }
    } else {
      if c != Listed([]) {
        LexPortsLength(name, c.ports);
      }
      if l4Match == "" && formatted != "" {
        r := "(" + name + " && (" + formatted[..|formatted| - 2] + "))";
      } else if formatted != "" {
        r := l4Match + " || (" + name + " && (" + formatted[..|formatted| - 2] + "))";
        assert r == l4Match + " || " + ("(" + name + " && (" + formatted[..|formatted| - 2] + "))");
      }
    }
  }

  lemma {:induction false} JoinProtocol(l4: string, terms: seq<Term>, name: string, c: Ports)
    requires IsWord(name) && c != Listed([]) && Printed(l4, terms)
    ensures Printed(Joined(l4, ProtocolText(name, c)), terms + [ProtocolTerm(name, c)])
  {
    var t := ProtocolTerm(name, c);
    LexProtocol(name, c);
    if l4 == "" {
      assert terms + [t] == [t];
      ChainSingle(false, [t]);
    } else {
      LexOr();
      LexAppendTerm(false, l4, terms, " || ", ProtocolText(name, c), t);
    }
  }

  lemma {:induction false} ProtocolTermsMore(entries: seq<PortEntry>, i: nat)
    requires i < |PROTOCOLS|
    ensures ProtocolTerms(entries, PROTOCOLS[..i + 1])
         == (var c := Collected(entries, PROTOCOLS[i]);
             var before := ProtocolTerms(entries, PROTOCOLS[..i]);
             if c == Listed([]) then before else before + [ProtocolTerm(ProtocolName(PROTOCOLS[i]), c)])
  {
    assert PROTOCOLS[..i + 1][..i] == PROTOCOLS[..i];
  }

  // ----- What the condition means

  lemma {:induction false} PortTermsMeaning(env: Env, name: string, proto: Protocol, ports: seq<nat>, p: Packet)
    requires name == ProtocolName(proto) && proto != OtherProtocol && ports != []
    ensures WellFormedExpr(AnyOf(PortTerms(name, ports)))
    ensures True(env, AnyOf(PortTerms(name, ports)), p) <==> p.proto == proto && p.dstPort in ports
  {
    var terms := PortTerms(name, ports);
    forall i | 0 <= i < |ports|
      ensures TermTrue(env, terms[i], p) <==> p.proto == proto && p.dstPort == ports[i]
    {
      PortTermMeaning(env, name, proto, ports[i], p);
    }
    if True(env, AnyOf(terms), p) {
      assert TermTrue(env, terms[0], p) ==> p.proto == proto && p.dstPort == ports[0];
    }
    if p.proto == proto && p.dstPort in ports {
      var i :| 0 <= i < |ports| && ports[i] == p.dstPort;
      assert TermTrue(env, terms[i], p);
    }
  }

  lemma {:induction false} PortTermMeaning(env: Env, name: string, proto: Protocol, port: nat, p: Packet)
    requires name == ProtocolName(proto) && proto != OtherProtocol
    ensures TermTrue(env, PortTerm(name, port), p) <==> p.proto == proto && p.dstPort == port
  {
    NumberOfDecimal(port);
    var values := [Decimal(port)];
    assert values[0] == Decimal(port);
    FieldOf(proto, p);
    assert Holds(env, name + ".dst", values[0], p) <==> p.dstPort == port;
  }

  lemma {:induction false} FieldOf(proto: Protocol, p: Packet)
    requires proto != OtherProtocol
    ensures HasField(ProtocolName(proto) + ".dst", p) <==> p.proto == proto
    ensures ProtocolName(proto) + ".dst" in ["tcp.dst", "udp.dst", "sctp.dst"]
    ensures Names(ProtocolName(proto), p) <==> p.proto == proto
  {
    match proto
    case TCP => assert "tcp" + ".dst" == "tcp.dst";
    case UDP => assert "udp" + ".dst" == "udp.dst";
    case SCTP => assert "sctp" + ".dst" == "sctp.dst";
  }

  lemma {:induction false} ProtocolTermMeaning(env: Env, entries: seq<PortEntry>, proto: Protocol, p: Packet)
    requires proto != OtherProtocol && Collected(entries, proto) != Listed([])
    ensures var t := ProtocolTerm(ProtocolName(proto), Collected(entries, proto));
            && WellFormed(t)
            && (TermTrue(env, t, p) <==> p.proto == proto && PortsAllow(entries, p))
  {
    var c, name := Collected(entries, proto), ProtocolName(proto);
    FieldOf(proto, p);
    CollectedMeaning(entries, proto, p.dstPort);
    match c
    case AnyPort =>
      var terms := [Symbol(name)];
      assert TermTrue(env, terms[0], p) <==> p.proto == proto;
    case Listed(ports) =>
      PortTermsMeaning(env, name, proto, ports, p);
      var terms := [Symbol(name), Paren(AnyOf(PortTerms(name, ports)))];
      assert TermTrue(env, terms[0], p) <==> p.proto == proto;
      assert TermTrue(env, terms[1], p) <==> p.proto == proto && p.dstPort in ports;
  }

  /** A packet satisfies one of the terms. */
  ghost predicate SomeTrue(env: Env, terms: seq<Term>, p: Packet) {
    exists i | 0 <= i < |terms| :: TermTrue(env, terms[i], p)
  }

  ghost predicate Mentions(entries: seq<PortEntry>, protos: seq<Protocol>) {
    exists i | 0 <= i < |entries| :: entries[i].protocol in protos
  }

  lemma {:induction false} ProtocolTermsMeaning(env: Env, entries: seq<PortEntry>, protos: seq<Protocol>, p: Packet)
    requires OtherProtocol !in protos
    ensures var terms := ProtocolTerms(entries, protos);
            && (forall i | 0 <= i < |terms| :: WellFormed(terms[i]))
            && (SomeTrue(env, terms, p) <==> p.proto in protos && PortsAllow(entries, p))
            && (terms != [] <==> Mentions(entries, protos))
  {
    if protos == [] {
    } else {
      var before, proto := protos[..|protos| - 1], protos[|protos| - 1];
      assert protos == before + [proto];
      ProtocolTermsMeaning(env, entries, before, p);
      MentionsMore(entries, before, proto);
      if Collected(entries, proto) != Listed([]) {
        ProtocolTermMeaning(env, entries, proto, p);
        LastTermOr(env, ProtocolTerms(entries, before), ProtocolTerm(ProtocolName(proto), Collected(entries, proto)), p);
      } else {
        AllowedProtocol(entries, p);
      }
    }
  }

  lemma {:induction false} MentionsMore(entries: seq<PortEntry>, before: seq<Protocol>, proto: Protocol)
    ensures Mentions(entries, before + [proto])
       <==> Mentions(entries, before) || Collected(entries, proto) != Listed([])
  {
    CollectedMeaning(entries, proto, 0);
  }

  lemma {:induction false} AllowedProtocol(entries: seq<PortEntry>, p: Packet)
    ensures PortsAllow(entries, p) ==> Collected(entries, p.proto) != Listed([])
  {
    CollectedMeaning(entries, p.proto, p.dstPort);
  }

  lemma {:induction false} LastTermOr(env: Env, terms: seq<Term>, t: Term, p: Packet)
    ensures SomeTrue(env, terms + [t], p) <==> SomeTrue(env, terms, p) || TermTrue(env, t, p)
  {
    var more := terms + [t];
    assert more[|terms|] == t && forall i | 0 <= i < |terms| :: more[i] == terms[i];
  }

  lemma {:induction false} L4Meaning(env: Env, entries: seq<PortEntry>, p: Packet)
    requires SomeKnown(entries)
    ensures WellFormed(L4Term(entries))
    ensures TermTrue(env, L4Term(entries), p) <==> PortsAllow(entries, p)
  {
    ProtocolTermsMeaning(env, entries, PROTOCOLS, p);
    assert PROTOCOLS[0] == UDP && PROTOCOLS[1] == TCP && PROTOCOLS[2] == SCTP;
    var terms := ProtocolTerms(entries, PROTOCOLS);
    assert PortsAllow(entries, p) ==> p.proto in PROTOCOLS;
    assert True(env, AnyOf(terms), p) <==> SomeTrue(env, terms, p) by {
      if |terms| == 1 {
        assert True(env, AnyOf(terms), p) <==> TermTrue(env, terms[0], p);
      }
    }
  }

  /** Ports are compared with numbers: there is no address constant to read. */
  lemma {:induction false} PortTermReadable(env: Env, proto: Protocol, port: nat)
    ensures ReadableTerm(env, PortTerm(ProtocolName(proto), port))
  {
    var field := ProtocolName(proto) + ".dst";
    assert proto == UDP ==> field[0] == 'u';
    assert proto == TCP ==> field[0] == 't';
    assert proto == SCTP ==> field[0] == 's';
    assert proto == OtherProtocol ==> field == ".dst" && field[0] == '.';
    assert !IsAddressField(field);
  }

  lemma {:induction false} ProtocolTermReadable(env: Env, proto: Protocol, c: Ports)
    ensures ReadableTerm(env, ProtocolTerm(ProtocolName(proto), c))
  {
    if c.Listed? {
      var name := ProtocolName(proto);
      var terms := PortTerms(name, c.ports);
      forall i | 0 <= i < |terms|
        ensures ReadableTerm(env, terms[i])
      {
        PortTermReadable(env, proto, c.ports[i]);
      }
      assert Readable(env, AnyOf(terms));
      var both := [Symbol(name), Paren(AnyOf(terms))];
      assert ReadableTerm(env, both[0]) && ReadableTerm(env, both[1]);
    }
  }

  lemma {:induction false} ProtocolTermsReadable(env: Env, entries: seq<PortEntry>, protos: seq<Protocol>)
    ensures forall i | 0 <= i < |ProtocolTerms(entries, protos)| :: ReadableTerm(env, ProtocolTerms(entries, protos)[i])
  {
    if protos != [] {
      var proto := protos[|protos| - 1];
      ProtocolTermsReadable(env, entries, protos[..|protos| - 1]);
      ProtocolTermReadable(env, proto, Collected(entries, proto));
    }
  }

  lemma {:induction false} L4Readable(env: Env, entries: seq<PortEntry>)
    ensures ReadableTerm(env, L4Term(entries))
  {
    ProtocolTermsReadable(env, entries, PROTOCOLS);
  }

  lemma {:induction false} KnownTerms(entries: seq<PortEntry>)
    ensures ProtocolTerms(entries, PROTOCOLS) != [] <==> SomeKnown(entries)
  {
    var env := Env(_ => {}, _ => {}, _ => None);
    ProtocolTermsMeaning(env, entries, PROTOCOLS, Packet(IP(false, 0), IP(false, 0), OtherProtocol, 0, "", ""));
    assert PROTOCOLS[0] == UDP && PROTOCOLS[1] == TCP && PROTOCOLS[2] == SCTP;
  }

  lemma {:induction false} L4Printed(entries: seq<PortEntry>, l4: string)
    requires Printed(l4, ProtocolTerms(entries, PROTOCOLS))
    ensures var text := "(" + l4 + ")";
            && Lex(text) == (if SomeKnown(entries) then TermTokens(L4Term(entries)) else [LParen, RParen])
            && (Parse(text).Some? <==> SomeKnown(entries))
            && forall env, p :: Matches(env, text, p) <==> PortsAllow(entries, p)
  {
    KnownTerms(entries);
    if SomeKnown(entries) {
      AnyOfTokens(ProtocolTerms(entries, PROTOCOLS));
      LexParen(l4, AnyOf(ProtocolTerms(entries, PROTOCOLS)));
      L4Parses(entries, "(" + l4 + ")");
    } else {
      NothingPrinted("(" + l4 + ")");
    }
  }

  lemma {:induction false} NothingPrinted(text: string)
    requires text == "(" + "" + ")"
    ensures Lex(text) == [LParen, RParen] && Parse(text).None?
  {
    assert text == "()";
    LexEmptyParens();
    EmptyParens([]);
    assert [LParen, RParen] + [] == [LParen, RParen];
  }

  lemma {:induction false} L4Parses(entries: seq<PortEntry>, text: string)
    requires SomeKnown(entries) && Lex(text) == TermTokens(L4Term(entries))
    ensures Parse(text).Some?
    ensures forall env, p :: Matches(env, text, p) <==> PortsAllow(entries, p)
  {
    var e := Chain(true, [L4Term(entries)]);
    ChainSingle(true, e.terms);
    forall env, p
      ensures WellFormed(L4Term(entries)) && Readable(env, e) && (True(env, e, p) <==> PortsAllow(entries, p))
    {
      L4Meaning(env, entries, p);
      L4Readable(env, entries);
      assert e.terms[0] == L4Term(entries);
    }
    var env := Env(_ => {}, _ => {}, _ => None);
    L4Meaning(env, entries, Packet(IP(false, 0), IP(false, 0), OtherProtocol, 0, "", ""));
    ParsesTo(text, e);
  }

  /** The branch for one protocol. */
  method AddPort(text: string, name: string, port: nat) returns (r: string)
    ensures r == PortAdded(text, name, port)
  {
    r := text;
    if text != name {
      if port == 0 {
        r := name;
      } else {
        r := text + " " + name + ".dst == " + Decimal(port) + " ||";
      }
    }
  }

  /** The body of the loop over the entries. */
  method CollectPort(ports: seq<PortEntry>, i: nat, udp: string, tcp: string, sctp: string)
      returns (udpString: string, tcpString: string, sctpString: string)
    requires i < |ports|
    requires Holding(udp, "udp", UDP, ports[..i])
    requires Holding(tcp, "tcp", TCP, ports[..i])
    requires Holding(sctp, "sctp", SCTP, ports[..i])
    ensures Holding(udpString, "udp", UDP, ports[..i + 1])
    ensures Holding(tcpString, "tcp", TCP, ports[..i + 1])
    ensures Holding(sctpString, "sctp", SCTP, ports[..i + 1])
  {
    udpString, tcpString, sctpString := udp, tcp, sctp;
    match ports[i].protocol {
      case UDP => udpString := AddPort(udp, "udp", ports[i].port);
      case TCP => tcpString := AddPort(tcp, "tcp", ports[i].port);
      case SCTP => sctpString := AddPort(sctp, "sctp", ports[i].port);
      case OtherProtocol =>
    }
    HoldingMore(ports, i, "udp", UDP, udp, udpString);
    HoldingMore(ports, i, "tcp", TCP, tcp, tcpString);
    HoldingMore(ports, i, "sctp", SCTP, sctp, sctpString);
  }

  /** The loop over the entries: one string for each protocol. */
  method CollectPorts(ports: seq<PortEntry>) returns (udpString: string, tcpString: string, sctpString: string)
    ensures Holding(udpString, "udp", UDP, ports)
    ensures Holding(tcpString, "tcp", TCP, ports)
    ensures Holding(sctpString, "sctp", SCTP, ports)
  {
    udpString, tcpString, sctpString := "", "", "";
    for i := 0 to |ports|
      invariant Holding(udpString, "udp", UDP, ports[..i])
      invariant Holding(tcpString, "tcp", TCP, ports[..i])
      invariant Holding(sctpString, "sctp", SCTP, ports[..i])
    {
      udpString, tcpString, sctpString := CollectPort(ports, i, udpString, tcpString, sctpString);
    }
    assert ports[..|ports|] == ports;
  }

  lemma {:induction false} AppendedPrints(ports: seq<PortEntry>, i: nat, name: string, l4: string, more: string)
    requires i < |PROTOCOLS| && name == ProtocolName(PROTOCOLS[i]) && IsWord(name)
    requires Printed(l4, ProtocolTerms(ports, PROTOCOLS[..i]))
    requires var c := Collected(ports, PROTOCOLS[i]);
             more == if c == Listed([]) then l4 else Joined(l4, ProtocolText(name, c))
    ensures Printed(more, ProtocolTerms(ports, PROTOCOLS[..i + 1]))
  {
    var c := Collected(ports, PROTOCOLS[i]);
    ProtocolTermsMore(ports, i);
    if c != Listed([]) {
      JoinProtocol(l4, ProtocolTerms(ports, PROTOCOLS[..i]), name, c);
    }
  }

  /** The loop over the three protocols. */
  method JoinProtocols(ports: seq<PortEntry>, udpString: string, tcpString: string, sctpString: string) returns (l4Match: string)
    requires Holding(udpString, "udp", UDP, ports)
    requires Holding(tcpString, "tcp", TCP, ports)
    requires Holding(sctpString, "sctp", SCTP, ports)
    ensures Printed(l4Match, ProtocolTerms(ports, PROTOCOLS))
  {
    var list := [("udp", udpString), ("tcp", tcpString), ("sctp", sctpString)];
    l4Match := "";
    for i := 0 to |list|
      invariant Printed(l4Match, ProtocolTerms(ports, PROTOCOLS[..i]))
    {
      assert list[i].0 == ProtocolName(PROTOCOLS[i]);
      assert Holding(list[i].1, list[i].0, PROTOCOLS[i], ports);
      var more := AppendProtocol(l4Match, list[i].0, list[i].1, Collected(ports, PROTOCOLS[i]));
      AppendedPrints(ports, i, list[i].0, l4Match, more);
      l4Match := more;
    }
    assert PROTOCOLS[..|list|] == PROTOCOLS;
  }

  /** generateMatch's condition on ports, whatever their order; without a known protocol it is malformed. */
  method EgressGetL4Match(ports: seq<PortEntry>) returns (text: string)
    ensures Lex(text) == if SomeKnown(ports) then TermTokens(L4Term(ports)) else [LParen, RParen]
    ensures Parse(text).Some? <==> SomeKnown(ports)
    ensures forall env, p :: Matches(env, text, p) <==> PortsAllow(ports, p)
  {
    var udpString, tcpString, sctpString := CollectPorts(ports);
    var l4Match := JoinProtocols(ports, udpString, tcpString, sctpString);
    text := "(" + l4Match + ")";
    L4Printed(ports, l4Match);
  }
}
