/** The match texts of pkg/ovn/gress_policy.go and what they mean. */
module GressPolicyMatch {
  import opened Wrappers
  import opened Cidr
  import opened OvnExpr
  import opened OvnText
  import opened OvnParts
  import opened EgressFirewallPorts
  import opened SortedNames

  /** A CIDR of the object and what net.ParseCIDR makes of it; the API server admits no text that does not parse. */
  datatype CIDR = CIDR(text: string, block: Subnet)

  /** A block of addresses with exceptions. */
  datatype IPBlock = IPBlock(cidr: CIDR, except: seq<CIDR>)

  /** One rule of a network policy: its direction, address modes, peers and ports. */
  datatype Policy = Policy(
    ingress: bool,
    ipv4Mode: bool,
    ipv6Mode: bool,
    v4Sets: set<string>,
    v6Sets: set<string>,
    ports: seq<PortEntry>,
    blocks: seq<IPBlock>)

  predicate HasSets(gp: Policy) {
    gp.v4Sets != {} || gp.v6Sets != {}
  }

  /** Address sets are named with a "$"; everything else is printed as it is. */
  predicate Plain(gp: Policy) {
    && (forall n <- gp.v4Sets + gp.v6Sets :: IsWord(n) && IsSetName(n))
    && (forall i | 0 <= i < |gp.blocks| :: PlainBlock(gp.blocks[i]))
  }

  predicate PlainBlock(b: IPBlock) {
    IsWord(b.cidr.text) && forall i | 0 <= i < |b.except| :: IsWord(b.except[i].text)
  }

  // ----- What a policy promises

  function Peer(gp: Policy, p: Packet): IP {
    if gp.ingress then p.src else p.dst
  }

  function LocalPort(gp: Policy, p: Packet): string {
    if gp.ingress then p.outport else p.inport
  }

  predicate InSets(env: Env, gp: Policy, p: Packet) {
    exists n <- if p.src.v6 then gp.v6Sets else gp.v4Sets :: IsAmong(env, n, Peer(gp, p))
  }

  predicate InBlock(gp: Policy, b: IPBlock, p: Packet) {
    Contains(b.cidr.block, Peer(gp, p)) && !InAny(b.except, Peer(gp, p))
  }

  predicate InAny(cidrs: seq<CIDR>, ip: IP) {
    exists i | 0 <= i < |cidrs| :: Contains(cidrs[i].block, ip)
  }

  predicate FamilyServed(gp: Policy, p: Packet) {
    if p.src.v6 then gp.ipv6Mode else gp.ipv4Mode || !gp.ipv6Mode
  }

  /** The peer is in one of the sets, or no peers are given at all. */
  predicate BySelector(env: Env, gp: Policy, p: Packet) {
    if HasSets(gp) then InSets(env, gp, p) else gp.blocks == [] && FamilyServed(gp, p)
  }

  predicate ByBlock(gp: Policy, p: Packet) {
    exists i | 0 <= i < |gp.blocks| :: InBlock(gp, gp.blocks[i], p)
  }

  predicate Allowed(env: Env, gp: Policy, group: string, p: Packet) {
    && (gp.ports == [] || PortsAllow(gp.ports, p))
    && (BySelector(env, gp, p) || ByBlock(gp, p))
    && LocalPort(gp, p) in env.groups(group)
  }

  // ----- What OVN can read of it

  /** OVN reads the text as net.ParseCIDR does, but takes it as a constant only without host bits. */
  predicate ReadsCIDR(env: Env, c: CIDR) {
    !IsSetName(c.text) && env.cidr(c.text) == Constant(Some(c.block))
  }

  predicate ReadsBlock(env: Env, b: IPBlock) {
    ReadsCIDR(env, b.cidr) && forall i | 0 <= i < |b.except| :: ReadsCIDR(env, b.except[i])
  }

  predicate Reads(env: Env, gp: Policy) {
    forall i | 0 <= i < |gp.blocks| :: ReadsBlock(env, gp.blocks[i])
  }

  predicate CIDRLegible(c: CIDR, v6: bool) {
    Masked(c.block) && c.block.v6 == v6
  }

  /** Neither the block nor any exception has host bits, and they are of one family. */
  predicate BlockLegible(b: IPBlock) {
    Masked(b.cidr.block) && forall i | 0 <= i < |b.except| :: CIDRLegible(b.except[i], b.cidr.block.v6)
  }

  predicate ByLegibleBlock(gp: Policy, p: Packet) {
    exists i | 0 <= i < |gp.blocks| :: BlockLegible(gp.blocks[i]) && InBlock(gp, gp.blocks[i], p)
  }

  /** What is allowed without the blocks that OVN cannot read. */
  predicate AllowedAsRead(env: Env, gp: Policy, group: string, p: Packet) {
    && (gp.ports == [] || PortsAllow(gp.ports, p))
    && (BySelector(env, gp, p) || ByLegibleBlock(gp, p))
    && LocalPort(gp, p) in env.groups(group)
  }

  lemma {:induction false} AsReadIsLess(env: Env, gp: Policy, group: string, p: Packet)
    ensures AllowedAsRead(env, gp, group, p) ==> Allowed(env, gp, group, p)
    ensures (forall i | 0 <= i < |gp.blocks| :: BlockLegible(gp.blocks[i])) ==>
              (Allowed(env, gp, group, p) <==> AllowedAsRead(env, gp, group, p))
  {
  }

  /** Beside blocks without host bits, one more block keeps its promise on every packet if and only if it has none
      either, its exceptions included; given some packet that only it allows. */
  lemma {:induction false} HostBitsIff(env: Env, gp: Policy, group: string, i: nat, p: Packet)
    requires i < |gp.blocks| && forall k | 0 <= k < |gp.blocks| && k != i :: BlockLegible(gp.blocks[k])
    requires Allowed(env, gp, group, p) && !BySelector(env, gp, p)
    requires forall k | 0 <= k < |gp.blocks| && k != i :: !InBlock(gp, gp.blocks[k], p)
    ensures (forall q: Packet :: AllowedAsRead(env, gp, group, q) <==> Allowed(env, gp, group, q)) <==> BlockLegible(gp.blocks[i])
  {
    if BlockLegible(gp.blocks[i]) {
      forall q: Packet
        ensures AllowedAsRead(env, gp, group, q) <==> Allowed(env, gp, group, q)
      {
        AsReadIsLess(env, gp, group, q);
      }
    } else {
      assert !ByLegibleBlock(gp, p);
    }
  }

  // ----- Texts

  const NONE_MATCH := "None"

  /** getL4Match: an unknown protocol is an error. */
  function GetL4Match(e: PortEntry): Option<string> {
    if e.protocol == OtherProtocol then None
    else
      var name := ProtocolName(e.protocol);
      Some(if e.port != 0 then name + " && " + name + ".dst==" + Decimal(e.port) else name)
  }

  function Side(gp: Policy): string {
    if gp.ingress then "src" else "dst"
  }

  /** strings.Join with a comma and a blank. */
  function Join(vs: seq<string>): string {
    if vs == [] then "" else if |vs| == 1 then vs[0] else vs[0] + ", " + Join(vs[1..])
  }

  function ConstructEmptyMatchString(ipv4Mode: bool, ipv6Mode: bool): string {
    if ipv4Mode && ipv6Mode then "(ip4 || ip6)" else if ipv6Mode then "ip6" else "ip4"
  }

  function SetsText(v6: bool, side: string, names: seq<string>): string {
    Field(v6, side) + " == {" + Join(names) + "}"
  }

  function ConstructMatchString(gp: Policy): string {
    var v4MatchStr, v6MatchStr := SetsText(false, Side(gp), List(gp.v4Sets)), SetsText(true, Side(gp), List(gp.v6Sets));
    if gp.v4Sets != {} && gp.v6Sets != {} then "(" + v4MatchStr + " || " + v6MatchStr + ")"
    else if gp.v6Sets != {} then v6MatchStr
    else if gp.v4Sets != {} then v4MatchStr
    else ""
  }

  function GetL3MatchFromAddressSet(gp: Policy): string {
    if !HasSets(gp) then ConstructEmptyMatchString(gp.ipv4Mode, gp.ipv6Mode) else ConstructMatchString(gp)
  }

  function LportMatch(gp: Policy, group: string): string {
    (if gp.ingress then "outport == @" else "inport == @") + group
  }

  function Texts(cidrs: seq<CIDR>): (r: seq<string>)
    ensures |r| == |cidrs| && forall i | 0 <= i < |r| :: r[i] == cidrs[i].text
  {
    seq(|cidrs|, i requires 0 <= i < |cidrs| => cidrs[i].text)
  }

  function BlockText(side: string, b: IPBlock): string {
    var field := Field(b.cidr.block.v6, side);
    if b.except == [] then field + " == " + b.cidr.text
    else field + " == " + b.cidr.text + " && " + field + " != {" + Join(Texts(b.except)) + "}"
  }

  /** The text of an ACL: peers, then ports unless there are none, then the local port. */
  function ACLText(peers: string, l4Match: string, lportMatch: string): string {
    if l4Match == NONE_MATCH then peers + " && " + lportMatch else peers + " && " + l4Match + " && " + lportMatch
  }

  // ----- The terms the texts stand for

  function SetsTerm(v6: bool, side: string, names: seq<string>): Term {
    Compare(Field(v6, side), true, names, true)
  }

  function L3Term(gp: Policy): Term {
    var t4, t6 := SetsTerm(false, Side(gp), List(gp.v4Sets)), SetsTerm(true, Side(gp), List(gp.v6Sets));
    if gp.v4Sets != {} && gp.v6Sets != {} then Paren(AnyOf([t4, t6]))
    else if gp.v6Sets != {} then t6
    else if gp.v4Sets != {} then t4
    else if gp.ipv4Mode && gp.ipv6Mode then Paren(AnyOf([Symbol("ip4"), Symbol("ip6")]))
    else Symbol(if gp.ipv6Mode then "ip6" else "ip4")
  }

  function BlockParts(side: string, b: IPBlock): seq<Part> {
    var field := Field(b.cidr.block.v6, side);
    [Good(Compare(field, true, [b.cidr.text], false))]
    + if b.except == [] then [] else [Good(Compare(field, false, Texts(b.except), true))]
  }

  /** No entry stands for all ports. */
  function L4Parts(e: Option<PortEntry>): seq<Part> {
    match e
    case None => []
    case Some(e) =>
      var name := ProtocolName(e.protocol);
      [Good(Symbol(name))] + if e.port != 0 then [Good(PortTerm(name, e.port))] else []
  }

  function L4Text(e: Option<PortEntry>): string
    requires e.Some? ==> e.value.protocol != OtherProtocol
  {
    match e
    case None => NONE_MATCH
    case Some(e) => GetL4Match(e).value
  }

  function LportTerm(gp: Policy, group: string): Term {
    Compare(if gp.ingress then "outport" else "inport", true, ["@" + group], false)
  }

  // ----- The texts lex to the terms

  lemma {:induction false} NameIsWord(proto: Protocol)
    requires proto != OtherProtocol
    ensures IsWord(ProtocolName(proto)) && IsWord(ProtocolName(proto) + ".dst") && ProtocolName(proto) != NONE_MATCH
  {
  }

  lemma {:induction false} LexEqual(field: string, value: string)
    requires IsWord(field) && IsWord(value)
    ensures Lex(field + "==" + value) == TermTokens(Compare(field, true, [value], false))
  {
    LexWord(field);
    LexWord(value);
    LexOperator();
    LexConcat(field, "==");
    LexConcat(field + "==", value);
    CompareTokens(field, true, value);
  }

  lemma {:induction false} LexOperator()
    ensures Lex("==") == [EqEq]
  {
    LexBlank("==");
    LexSpaced("==", EqEq);
    assert " " + "==" == " ==";
  }

  lemma {:induction false} LexL4(e: PortEntry)
    requires e.protocol != OtherProtocol
    ensures Lex(L4Text(Some(e))) == PartsTokens(L4Parts(Some(e)))
    ensures L4Text(Some(e)) != NONE_MATCH
  {
    var name := ProtocolName(e.protocol);
    NameIsWord(e.protocol);
    LexWord(name);
    var s := [Good(Symbol(name))];
    SinglePart(Symbol(name));
    if e.port != 0 {
      var t, one := PortTerm(name, e.port), name + ".dst" + "==" + Decimal(e.port);
      LexEqual(name + ".dst", Decimal(e.port));
      SinglePart(t);
      LexMoreParts(name, s, one, [Good(t)]);
      L4TextIs(e);
    } else {
      assert s + [] == s;
    }
    L4TextTells(e);
  }

  lemma {:induction false} L4TextIs(e: PortEntry)
    requires e.protocol != OtherProtocol && e.port != 0
    ensures var name := ProtocolName(e.protocol);
            L4Text(Some(e)) == name + " && " + (name + ".dst" + "==" + Decimal(e.port))
  {
    assert ".dst" + "==" == ".dst==";
  }

  /** No port text is the marker for no ports. */
  lemma {:induction false} L4TextTells(e: PortEntry)
    requires e.protocol != OtherProtocol
    ensures L4Text(Some(e)) != NONE_MATCH
  {
    assert L4Text(Some(e))[0] != NONE_MATCH[0];
  }

  lemma {:induction false} LexJoin(vs: seq<string>)
    requires vs != [] && forall i | 0 <= i < |vs| :: IsWord(vs[i])
    ensures Lex(Join(vs)) == ValueTokens(vs)
  {
    LexWord(vs[0]);
    if |vs| > 1 {
      var rest := Join(vs[1..]);
      LexJoin(vs[1..]);
      LexComma();
      LexAround(vs[0], ", ", rest);
      assert [Word(vs[0])] + [Comma] == [Word(vs[0]), Comma];
    }
  }

  lemma {:induction false} LexComma()
    ensures Lex(", ") == [Comma]
  {
    LexChar(",", Comma);
    LexTrailingBlank(",");
    assert "," + " " == ", ";
  }

  lemma {:induction false} LexBraces(vs: seq<string>)
    requires vs != [] && forall i | 0 <= i < |vs| :: IsWord(vs[i])
    ensures Lex("{" + Join(vs) + "}") == [LBrace] + ValueTokens(vs) + [RBrace]
  {
    LexJoin(vs);
    LexChar("{", LBrace);
    LexChar("}", RBrace);
    LexSurround("{", Join(vs), "}");
  }

  lemma {:induction false} LexBraced(field: string, equal: bool, vs: seq<string>, text: string)
    requires IsWord(field) && vs != [] && forall i | 0 <= i < |vs| :: IsWord(vs[i])
    requires text == field + (if equal then " == " else " != ") + ("{" + Join(vs) + "}")
    ensures Lex(text) == TermTokens(Compare(field, equal, vs, true))
  {
    LexRelation(equal);
    LexWord(field);
    LexBraces(vs);
    LexAround(field, if equal then " == " else " != ", "{" + Join(vs) + "}");
    BracedTokens(field, equal, vs);
  }

  lemma {:induction false} BracedTokens(field: string, equal: bool, vs: seq<string>)
    ensures TermTokens(Compare(field, equal, vs, true))
         == [Word(field)] + [if equal then EqEq else NotEq] + ([LBrace] + ValueTokens(vs) + [RBrace])
  {
  }

  lemma {:induction false} FieldIsWord(v6: bool, gp: Policy)
    ensures IsWord(Field(v6, Side(gp)))
  {
  }

  lemma {:induction false} LexSets(gp: Policy, v6: bool, names: set<string>)
    requires names != {} && forall n <- names :: IsWord(n)
    ensures Lex(SetsText(v6, Side(gp), List(names))) == TermTokens(SetsTerm(v6, Side(gp), List(names)))
  {
    var field, vs := Field(v6, Side(gp)), List(names);
    FieldIsWord(v6, gp);
    assert forall i | 0 <= i < |vs| :: vs[i] in names;
    assert SetsText(v6, Side(gp), vs) == field + " == " + ("{" + Join(vs) + "}") by {
      assert " == " + "{" == " == {";
    }
    LexBraced(field, true, vs, SetsText(v6, Side(gp), vs));
  }

  lemma {:induction false} LexEither(a: string, s: Term, b: string, t: Term)
    requires Lex(a) == TermTokens(s) && Lex(b) == TermTokens(t)
    ensures Lex("(" + a + " || " + b + ")") == TermTokens(Paren(AnyOf([s, t])))
  {
    LexOr();
    ChainSingle(false, [s]);
    LexAppendTerm(false, a, [s], " || ", b, t);
    assert [s] + [t] == [s, t];
    LexParen(a + " || " + b, AnyOf([s, t]));
    EitherText(a, b);
  }

  lemma {:induction false} EitherText(a: string, b: string)
    ensures "(" + (a + " || " + b) + ")" == "(" + a + " || " + b + ")"
  {
  }

  lemma {:induction false} LexL3(gp: Policy)
    requires Plain(gp)
    ensures Lex(GetL3MatchFromAddressSet(gp)) == TermTokens(L3Term(gp))
  {
    if gp.v4Sets != {} {
      LexSets(gp, false, gp.v4Sets);
    }
    if gp.v6Sets != {} {
      LexSets(gp, true, gp.v6Sets);
    }
    if gp.v4Sets != {} && gp.v6Sets != {} {
      LexEither(SetsText(false, Side(gp), List(gp.v4Sets)), SetsTerm(false, Side(gp), List(gp.v4Sets)),
                SetsText(true, Side(gp), List(gp.v6Sets)), SetsTerm(true, Side(gp), List(gp.v6Sets)));
    }
    if !HasSets(gp) {
      LexFamilies(gp.ipv4Mode, gp.ipv6Mode);
    }
  }

  lemma {:induction false} LexFamilies(ipv4Mode: bool, ipv6Mode: bool)
    ensures Lex(ConstructEmptyMatchString(ipv4Mode, ipv6Mode))
         == TermTokens(if ipv4Mode && ipv6Mode then Paren(AnyOf([Symbol("ip4"), Symbol("ip6")]))
                       else Symbol(if ipv6Mode then "ip6" else "ip4"))
  {
    LexWord("ip4");
    LexWord("ip6");
    if ipv4Mode && ipv6Mode {
      LexEither("ip4", Symbol("ip4"), "ip6", Symbol("ip6"));
      assert "(" + "ip4" + " || " + "ip6" + ")" == "(ip4 || ip6)";
    }
  }

  lemma {:induction false} LexBlock(gp: Policy, b: IPBlock)
    requires PlainBlock(b)
    ensures Lex(BlockText(Side(gp), b)) == PartsTokens(BlockParts(Side(gp), b))
  {
    var field, except := Field(b.cidr.block.v6, Side(gp)), Texts(b.except);
    var s, inside := Compare(field, true, [b.cidr.text], false), field + " == " + b.cidr.text;
    FieldIsWord(b.cidr.block.v6, gp);
    LexCompare(field, true, b.cidr.text);
    SinglePart(s);
    if b.except == [] {
      assert [Good(s)] + [] == [Good(s)];
    } else {
      var t, outside := Compare(field, false, except, true), field + " != " + ("{" + Join(except) + "}");
      LexBraced(field, false, except, outside);
      SinglePart(t);
      LexMoreParts(inside, [Good(s)], outside, [Good(t)]);
      BlockTextIs(Side(gp), b);
    }
  }

  lemma {:induction false} BlockTextIs(side: string, b: IPBlock)
    requires b.except != []
    ensures var field := Field(b.cidr.block.v6, side);
            BlockText(side, b) == field + " == " + b.cidr.text + " && " + (field + " != " + ("{" + Join(Texts(b.except)) + "}"))
  {
    assert " != " + "{" == " != {";
  }

  lemma {:induction false} LexLport(gp: Policy, group: string)
    requires IsWord(group)
    ensures Lex(LportMatch(gp, group)) == TermTokens(LportTerm(gp, group))
  {
    var value, field := "@" + group, if gp.ingress then "outport" else "inport";
    assert forall i | 1 <= i < |value| :: value[i] == group[i - 1];
    LexCompare(field, true, value);
    assert LportMatch(gp, group) == field + " == " + value;
  }

  lemma {:induction false} LexACL(gp: Policy, group: string, peers: string, peerParts: seq<Part>, e: Option<PortEntry>)
    requires IsWord(group) && peerParts != [] && Lex(peers) == PartsTokens(peerParts)
    requires e.Some? ==> e.value.protocol != OtherProtocol
    ensures Lex(ACLText(peers, L4Text(e), LportMatch(gp, group)))
         == PartsTokens(peerParts + L4Parts(e) + [Good(LportTerm(gp, group))])
  {
    var lport := [Good(LportTerm(gp, group))];
    LexLport(gp, group);
    SinglePart(LportTerm(gp, group));
    match e
    case None =>
      LexMoreParts(peers, peerParts, LportMatch(gp, group), lport);
      assert peerParts + [] + lport == peerParts + lport;
    case Some(e) =>
      LexL4(e);
      LexMoreParts(peers, peerParts, L4Text(Some(e)), L4Parts(Some(e)));
      LexMoreParts(peers + " && " + L4Text(Some(e)), peerParts + L4Parts(Some(e)), LportMatch(gp, group), lport);
  }

  // ----- What the texts mean

  predicate AmongAny(env: Env, names: seq<string>, ip: IP) {
    exists i | 0 <= i < |names| :: IsAmong(env, names[i], ip)
  }

  lemma {:induction false} PeerCompare(env: Env, gp: Policy, v6: bool, equal: bool, values: seq<string>, braced: bool, p: Packet)
    ensures TermTrue(env, Compare(Field(v6, Side(gp)), equal, values, braced), p)
       <==> p.src.v6 == v6 && equal == AmongAny(env, values, Peer(gp, p))
    ensures ReadableTerm(env, Compare(Field(v6, Side(gp)), equal, values, braced)) <==>
              forall i | 0 <= i < |values| && !IsSetName(values[i]) :: env.cidr(values[i]).Some? && env.cidr(values[i]).value.v6 == v6
  {
    var field := Field(v6, Side(gp));
    PeerFields(gp, v6);
    assert forall i | 0 <= i < |values| :: ReadableValue(env, field, values[i]) <==>
      (!IsSetName(values[i]) ==> env.cidr(values[i]).Some? && env.cidr(values[i]).value.v6 == v6);
    assert HasField(field, p) <==> p.src.v6 == v6;
    assert forall i | 0 <= i < |values| :: Holds(env, field, values[i], p) <==> IsAmong(env, values[i], Peer(gp, p));
  }

  lemma {:induction false} PeerFields(gp: Policy, v6: bool)
    ensures Field(v6, Side(gp)) == match (v6, gp.ingress)
            case (false, true) => "ip4.src"
            case (false, false) => "ip4.dst"
            case (true, true) => "ip6.src"
            case (true, false) => "ip6.dst"
  {
  }

  lemma {:induction false} SetsMeaning(env: Env, gp: Policy, v6: bool, names: set<string>, p: Packet)
    ensures TermTrue(env, SetsTerm(v6, Side(gp), List(names)), p)
       <==> p.src.v6 == v6 && exists n <- names :: IsAmong(env, n, Peer(gp, p))
    ensures (forall n <- names :: IsSetName(n)) ==> ReadableTerm(env, SetsTerm(v6, Side(gp), List(names)))
  {
    var values := List(names);
    PeerCompare(env, gp, v6, true, values, true, p);
    assert AmongAny(env, values, Peer(gp, p)) <==> exists n <- names :: IsAmong(env, n, Peer(gp, p)) by {
      assert forall i | 0 <= i < |values| :: values[i] in names;
      assert forall n <- names :: n in values;
    }
  }

  lemma {:induction false} EitherMeaning(env: Env, s: Term, t: Term, p: Packet)
    ensures TermTrue(env, Paren(AnyOf([s, t])), p) <==> TermTrue(env, s, p) || TermTrue(env, t, p)
    ensures WellFormed(s) && WellFormed(t) ==> WellFormed(Paren(AnyOf([s, t])))
    ensures ReadableTerm(env, s) && ReadableTerm(env, t) ==> ReadableTerm(env, Paren(AnyOf([s, t])))
  {
    var terms := [s, t];
    assert terms[0] == s && terms[1] == t;
    assert True(env, AnyOf(terms), p) <==> TermTrue(env, terms[0], p) || TermTrue(env, terms[1], p);
  }

  lemma {:induction false} L3Meaning(env: Env, gp: Policy, p: Packet)
    requires Plain(gp)
    ensures WellFormed(L3Term(gp)) && ReadableTerm(env, L3Term(gp))
    ensures TermTrue(env, L3Term(gp), p) <==> if HasSets(gp) then InSets(env, gp, p) else FamilyServed(gp, p)
  {
    SetsMeaning(env, gp, false, gp.v4Sets, p);
    SetsMeaning(env, gp, true, gp.v6Sets, p);
    EitherMeaning(env, SetsTerm(false, Side(gp), List(gp.v4Sets)), SetsTerm(true, Side(gp), List(gp.v6Sets)), p);
    EitherMeaning(env, Symbol("ip4"), Symbol("ip6"), p);
  }

  lemma {:induction false} BlockMeaning(env: Env, gp: Policy, b: IPBlock, p: Packet)
    requires ReadsBlock(env, b)
    ensures Sound(BlockParts(Side(gp), b))
    ensures AllReadable(env, BlockParts(Side(gp), b)) <==> BlockLegible(b)
    ensures BlockLegible(b) ==> (AllTrue(env, BlockParts(Side(gp), b), p) <==> InBlock(gp, b, p))
  {
    var parts, a, v6, except := BlockParts(Side(gp), b), Peer(gp, p), b.cidr.block.v6, Texts(b.except);
    PeerCompare(env, gp, v6, true, [b.cidr.text], false, p);
    PeerCompare(env, gp, v6, false, except, true, p);
    assert AmongAny(env, [b.cidr.text], a) <==> IsAmong(env, [b.cidr.text][0], a);
    assert ReadableTerm(env, parts[0].term) <==> Masked(b.cidr.block) by {
      assert [b.cidr.text][0] == b.cidr.text;
    }
    assert b.except != [] ==> (ReadableTerm(env, parts[1].term) <==> forall i | 0 <= i < |b.except| :: CIDRLegible(b.except[i], v6));
    assert AllReadable(env, parts) <==> ReadableTerm(env, parts[0].term) && (b.except != [] ==> ReadableTerm(env, parts[1].term));
    assert AllTrue(env, parts, p) <==>
      PartTrue(env, parts[0], p) && (b.except != [] ==> PartTrue(env, parts[1], p));
    if BlockLegible(b) {
      assert AmongAny(env, except, a) <==> InAny(b.except, a);
    }
  }

  /** The port condition of one entry, or of none. */
  predicate PortHit(e: Option<PortEntry>, p: Packet) {
    e.None? || (e.value.protocol == p.proto && (e.value.port == 0 || e.value.port == p.dstPort))
  }

  lemma {:induction false} L4PartsMeaning(env: Env, e: Option<PortEntry>, p: Packet)
    requires e.Some? ==> e.value.protocol != OtherProtocol
    ensures Sound(L4Parts(e)) && AllReadable(env, L4Parts(e))
    ensures (AllTrue(env, L4Parts(e), p) <==> PortHit(e, p))
  {
    if e.Some? {
      var proto, port := e.value.protocol, e.value.port;
      var name := ProtocolName(proto);
      FieldOf(proto, p);
      PortTermMeaning(env, name, proto, port, p);
      PortTermReadable(env, proto, port);
      var parts := L4Parts(e);
      assert AllTrue(env, parts, p) <==> PartTrue(env, parts[0], p) && (port != 0 ==> PartTrue(env, parts[1], p));
    }
  }

  lemma {:induction false} LportMeaning(env: Env, gp: Policy, group: string, p: Packet)
    ensures TermTrue(env, LportTerm(gp, group), p) <==> LocalPort(gp, p) in env.groups(group)
    ensures ReadableTerm(env, LportTerm(gp, group))
  {
    var values := ["@" + group];
    assert ("@" + group)[1..] == group;
    assert values[0] == "@" + group;
  }

  lemma {:induction false} ACLMeaning(env: Env, gp: Policy, group: string, peers: string, peerParts: seq<Part>,
                                      e: Option<PortEntry>, p: Packet)
    requires IsWord(group) && peerParts != [] && Sound(peerParts) && Lex(peers) == PartsTokens(peerParts)
    requires e.Some? ==> e.value.protocol != OtherProtocol
    ensures Matches(env, ACLText(peers, L4Text(e), LportMatch(gp, group)), p)
       <==> AllReadable(env, peerParts) && AllTrue(env, peerParts, p) && PortHit(e, p) && LocalPort(gp, p) in env.groups(group)
  {
    var lport := [Good(LportTerm(gp, group))];
    LexACL(gp, group, peers, peerParts, e);
    L4PartsMeaning(env, e, p);
    LportMeaning(env, gp, group, p);
    assert AllTrue(env, lport, p) <==> PartTrue(env, lport[0], p);
    AllTrueConcat(env, peerParts, L4Parts(e), p);
    AllTrueConcat(env, peerParts + L4Parts(e), lport, p);
    TextMeaning(env, ACLText(peers, L4Text(e), LportMatch(gp, group)), peerParts + L4Parts(e) + lport, p);
  }

  /** The ACL for the selectors allows what they select, on the entry's port, at the group's ports. */
  lemma {:induction false} SelectorACLMeaning(env: Env, gp: Policy, group: string, e: Option<PortEntry>, p: Packet)
    requires IsWord(group) && Plain(gp) && (e.Some? ==> e.value.protocol != OtherProtocol)
    ensures Matches(env, ACLText(GetL3MatchFromAddressSet(gp), L4Text(e), LportMatch(gp, group)), p)
       <==> (if HasSets(gp) then InSets(env, gp, p) else FamilyServed(gp, p))
            && PortHit(e, p) && LocalPort(gp, p) in env.groups(group)
  {
    var parts := [Good(L3Term(gp))];
    LexL3(gp);
    L3Meaning(env, gp, p);
    SinglePart(L3Term(gp));
    assert AllTrue(env, parts, p) <==> PartTrue(env, parts[0], p);
    assert AllReadable(env, parts) && Sound(parts);
    ACLMeaning(env, gp, group, GetL3MatchFromAddressSet(gp), parts, e, p);
  }

  /** The ACL for a block without host bits allows what lies in it outside its exceptions; with host bits, in the
      block or in an exception, it allows nothing. */
  lemma {:induction false} BlockACLMeaning(env: Env, gp: Policy, group: string, b: IPBlock, e: Option<PortEntry>, p: Packet)
    requires IsWord(group) && PlainBlock(b) && ReadsBlock(env, b) && (e.Some? ==> e.value.protocol != OtherProtocol)
    ensures Matches(env, ACLText(BlockText(Side(gp), b), L4Text(e), LportMatch(gp, group)), p)
       <==> BlockLegible(b) && InBlock(gp, b, p) && PortHit(e, p) && LocalPort(gp, p) in env.groups(group)
  {
    LexBlock(gp, b);
    BlockMeaning(env, gp, b, p);
    ACLMeaning(env, gp, group, BlockText(Side(gp), b), BlockParts(Side(gp), b), e, p);
  }
}
