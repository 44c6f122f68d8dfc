/** generateMatch of pkg/ovn/egressfirewall.go: the whole match of one rule and what it means. */
module EgressFirewallMatch {
  import opened Wrappers
  import opened Cidr
  import opened OvnExpr
  import opened OvnText
  import opened OvnParts
  import opened EgressFirewallPorts

  // ----- Configuration and destinations

  datatype MatchKind = V4CIDR | V6CIDR | V4AddressSet | V6AddressSet

  datatype MatchTarget = MatchTarget(kind: MatchKind, value: string)

  /** The address modes, the gateway mode and the printed cluster subnets. */
  datatype Config = Config(ipv4Mode: bool, ipv6Mode: bool, localGateway: bool, clusterSubnets: seq<ClusterSubnet>)

  /** A cluster subnet with its printed text; parsing has cleared its host bits. */
  datatype ClusterSubnet = ClusterSubnet(block: Subnet, text: string)

  predicate ForV6(kind: MatchKind) {
    kind == V6CIDR || kind == V6AddressSet
  }

  predicate ByCIDR(kind: MatchKind) {
    kind == V4CIDR || kind == V6CIDR
  }

  /** The text a target compares with: an address constant, or the name of an address set. */
  function TargetText(t: MatchTarget): string {
    if ByCIDR(t.kind) then t.value else "$" + t.value
  }

  function ToExpr(t: MatchTarget): string {
    match t.kind
    case V4CIDR => "ip4.dst == " + t.value
    case V6CIDR => "ip6.dst == " + t.value
    case V4AddressSet => if t.value != "" then "ip4.dst == $" + t.value else ""
    case V6AddressSet => if t.value != "" then "ip6.dst == $" + t.value else ""
  }

  function TargetTerm(t: MatchTarget): Term {
    Compare(Field(ForV6(t.kind), "dst"), true, [TargetText(t)], false)
  }

  /** Targets without a value are skipped. */
  function TargetTerms(targets: seq<MatchTarget>): seq<Term> {
    if targets == [] then []
    else
      var before, last := TargetTerms(targets[..|targets| - 1]), targets[|targets| - 1];
      if last.value == "" then before else before + [TargetTerm(last)]
  }

  function DstPart(targets: seq<MatchTarget>): Part {
    if TargetTerms(targets) == [] then Hollow else Good(Paren(AnyOf(TargetTerms(targets))))
  }

  function SourceTerm(v6: bool, name: string): Term {
    Compare(Field(v6, "src"), true, ["$" + name], false)
  }

  function SrcPart(config: Config, v4: string, v6: string): Part {
    if config.ipv4Mode && config.ipv6Mode then Good(Paren(AnyOf([SourceTerm(false, v4), SourceTerm(true, v6)])))
    else if config.ipv4Mode then Good(SourceTerm(false, v4))
    else if config.ipv6Mode then Good(SourceTerm(true, v6))
    else Missing
  }

  function L4Part(ports: seq<PortEntry>): Part {
    if SomeKnown(ports) then Good(L4Term(ports)) else Hollow
  }

  const CLUSTER_ROUTER_PORT := "jtor-ovn_cluster_router"

  function ExclusionTerm(s: ClusterSubnet): Term {
    Compare(Field(s.block.v6, "dst"), false, [s.text], false)
  }

  function ExclusionParts(subnets: seq<ClusterSubnet>): seq<Part> {
    seq(|subnets|, i requires 0 <= i < |subnets| => Good(ExclusionTerm(subnets[i])))
  }

  function ExtraParts(config: Config): seq<Part> {
    if !config.localGateway then [Good(Compare("inport", true, ["\"" + CLUSTER_ROUTER_PORT + "\""], false))]
    else if config.clusterSubnets == [] then [Missing]
    else ExclusionParts(config.clusterSubnets)
  }

  function MatchParts(config: Config, v4: string, v6: string, targets: seq<MatchTarget>, ports: seq<PortEntry>): seq<Part> {
    [DstPart(targets)] + [SrcPart(config, v4, v6)] + (if ports == [] then [] else [L4Part(ports)]) + ExtraParts(config)
  }

  // ----- What a rule's match should mean

  /** The destination is in the target's block, as net.ParseCIDR reads it, or in its address set. */
  predicate TargetHit(env: Env, parse: CidrParser, t: MatchTarget, p: Packet) {
    && t.value != "" && p.dst.v6 == ForV6(t.kind)
    && if ByCIDR(t.kind) then parse(t.value).Some? && Contains(parse(t.value).value, p.dst) else p.dst in env.sets(t.value)
  }

  predicate ReachesTarget(env: Env, parse: CidrParser, targets: seq<MatchTarget>, p: Packet) {
    exists i | 0 <= i < |targets| :: TargetHit(env, parse, targets[i], p)
  }

  /** OVN takes the target's block as a constant of its family: no host bits are set. */
  predicate TargetLegible(parse: CidrParser, t: MatchTarget) {
    t.value != "" && ByCIDR(t.kind) ==> Constant(parse(t.value)).Some? && parse(t.value).value.v6 == ForV6(t.kind)
  }

  predicate Legible(parse: CidrParser, targets: seq<MatchTarget>) {
    forall i | 0 <= i < |targets| :: TargetLegible(parse, targets[i])
  }

  /** OVN and net.ParseCIDR read the same texts, except for blocks with host bits. */
  ghost predicate ReadsTexts(env: Env, parse: CidrParser) {
    forall s :: env.cidr(s) == Constant(parse(s))
  }

  /** OVN reads the printed cluster subnets back. */
  predicate ReadsSubnets(env: Env, subnets: seq<ClusterSubnet>) {
    forall i | 0 <= i < |subnets| :: !IsSetName(subnets[i].text) && env.cidr(subnets[i].text) == Some(subnets[i].block)
  }

  predicate FromSource(env: Env, config: Config, v4: string, v6: string, p: Packet) {
    if p.src.v6 then config.ipv6Mode && p.src in env.sets(v6) else config.ipv4Mode && p.src in env.sets(v4)
  }

  /** The packet's destination lies in none of the cluster's subnets. */
  predicate LeavesCluster(subnets: seq<ClusterSubnet>, p: Packet) {
    forall i | 0 <= i < |subnets| :: !Contains(subnets[i].block, p.dst)
  }

  /** Where firewalled traffic is seen: at the cluster router's port, or on its way out of the cluster. */
  predicate OnPath(config: Config, p: Packet) {
    if config.localGateway then LeavesCluster(config.clusterSubnets, p) else p.inport == CLUSTER_ROUTER_PORT
  }

  predicate AllOf(subnets: seq<ClusterSubnet>, v6: bool) {
    subnets != [] && forall i | 0 <= i < |subnets| :: subnets[i].block.v6 == v6
  }

  /** Whether matches can apply to a family at all: in local gateway mode every printed exclusion has to be of it. */
  predicate Matchable(config: Config, v6: bool) {
    config.localGateway ==> AllOf(config.clusterSubnets, v6)
  }

  predicate Intended(env: Env, parse: CidrParser, config: Config, v4: string, v6: string, targets: seq<MatchTarget>,
                     ports: seq<PortEntry>, p: Packet)
  {
    && ReachesTarget(env, parse, targets, p)
    && FromSource(env, config, v4, v6, p)
    && (ports == [] || PortsAllow(ports, p))
    && OnPath(config, p)
  }

  /** Names and constants are printed as they are, so they must be words. */
  predicate Plain(config: Config, v4: string, v6: string, targets: seq<MatchTarget>) {
    && IsWord(v4) && IsWord(v6)
    && AllPlain(targets)
    && (forall i | 0 <= i < |config.clusterSubnets| :: IsWord(config.clusterSubnets[i].text))
  }

  predicate AllPlain(targets: seq<MatchTarget>) {
    forall i | 0 <= i < |targets| && targets[i].value != "" ::
      IsWord(targets[i].value) && (ByCIDR(targets[i].kind) ==> !IsSetName(targets[i].value))
  }

  // ----- The printed match has the intended meaning

  lemma {:induction false} CompareMeaning(env: Env, field: string, equal: bool, value: string, p: Packet)
    ensures TermTrue(env, Compare(field, equal, [value], false), p)
       <==> HasField(field, p) && equal == Holds(env, field, value, p)
  {
    var values := [value];
    assert values[0] == value;
  }

  lemma {:induction false} FieldNames(v6: bool)
    ensures Field(v6, "dst") == if v6 then "ip6.dst" else "ip4.dst"
    ensures Field(v6, "src") == if v6 then "ip6.src" else "ip4.src"
    ensures IsWord(Field(v6, "dst")) && IsWord(Field(v6, "src"))
  {
  }

  lemma {:induction false} CompareReadable(env: Env, field: string, equal: bool, value: string)
    ensures ReadableTerm(env, Compare(field, equal, [value], false)) <==> ReadableValue(env, field, value)
  {
    var values := [value];
    assert values[0] == value;
  }

  lemma {:induction false} TargetMeaning(env: Env, parse: CidrParser, t: MatchTarget, p: Packet)
    requires ReadsTexts(env, parse) && t.value != "" && (ByCIDR(t.kind) ==> !IsSetName(t.value))
    ensures ReadableTerm(env, TargetTerm(t)) <==> TargetLegible(parse, t)
    ensures TargetLegible(parse, t) ==> (TermTrue(env, TargetTerm(t), p) <==> TargetHit(env, parse, t, p))
  {
    FieldNames(ForV6(t.kind));
    CompareMeaning(env, Field(ForV6(t.kind), "dst"), true, TargetText(t), p);
    CompareReadable(env, Field(ForV6(t.kind), "dst"), true, TargetText(t));
    assert ("$" + t.value)[1..] == t.value;
  }

  lemma {:induction false} ReachesMore(env: Env, parse: CidrParser, targets: seq<MatchTarget>, t: MatchTarget, p: Packet)
    ensures ReachesTarget(env, parse, targets + [t], p) <==> ReachesTarget(env, parse, targets, p) || TargetHit(env, parse, t, p)
    ensures Legible(parse, targets + [t]) <==> Legible(parse, targets) && TargetLegible(parse, t)
    ensures AllPlain(targets + [t]) ==> AllPlain(targets)
  {
    var more := targets + [t];
    assert more[|targets|] == t && forall i | 0 <= i < |targets| :: more[i] == targets[i];
    if i :| 0 <= i < |targets| && TargetHit(env, parse, targets[i], p) {
      assert TargetHit(env, parse, more[i], p);
    }
    if TargetHit(env, parse, t, p) {
      assert TargetHit(env, parse, more[|targets|], p);
    }
  }

  ghost predicate TermsReadable(env: Env, terms: seq<Term>) {
    forall i | 0 <= i < |terms| :: ReadableTerm(env, terms[i])
  }

  lemma {:induction false} TargetTermsSound(targets: seq<MatchTarget>)
    ensures forall i | 0 <= i < |TargetTerms(targets)| :: WellFormed(TargetTerms(targets)[i])
  {
    if targets != [] {
      TargetTermsSound(targets[..|targets| - 1]);
    }
  }

  lemma {:induction false} LastTermReadable(env: Env, terms: seq<Term>, t: Term)
    ensures TermsReadable(env, terms + [t]) <==> TermsReadable(env, terms) && ReadableTerm(env, t)
  {
    var more := terms + [t];
    assert more[|terms|] == t && forall i | 0 <= i < |terms| :: more[i] == terms[i];
  }

  lemma {:induction false} TargetsMeaning(env: Env, parse: CidrParser, targets: seq<MatchTarget>, p: Packet)
    requires ReadsTexts(env, parse) && AllPlain(targets)
    ensures TermsReadable(env, TargetTerms(targets)) <==> Legible(parse, targets)
    ensures Legible(parse, targets) ==> (SomeTrue(env, TargetTerms(targets), p) <==> ReachesTarget(env, parse, targets, p))
  {
    if targets != [] {
      var before, last := targets[..|targets| - 1], targets[|targets| - 1];
      assert targets == before + [last];
      ReachesMore(env, parse, before, last, p);
      TargetsMeaning(env, parse, before, p);
      if last.value != "" {
        TargetMeaning(env, parse, last, p);
        LastTermOr(env, TargetTerms(before), TargetTerm(last), p);
        LastTermReadable(env, TargetTerms(before), TargetTerm(last));
      }
    }
  }

  lemma {:induction false} AnyOfMeaning(env: Env, terms: seq<Term>, p: Packet)
    requires terms != []
    ensures TermTrue(env, Paren(AnyOf(terms)), p) <==> SomeTrue(env, terms, p)
    ensures ReadableTerm(env, Paren(AnyOf(terms))) <==> TermsReadable(env, terms)
  {
    if |terms| == 1 {
      assert True(env, AnyOf(terms), p) <==> TermTrue(env, terms[0], p);
    }
    assert Readable(env, AnyOf(terms)) <==> TermsReadable(env, terms);
  }

  lemma {:induction false} DstMeaning(env: Env, parse: CidrParser, targets: seq<MatchTarget>, p: Packet)
    requires ReadsTexts(env, parse) && AllPlain(targets)
    ensures AllReadable(env, [DstPart(targets)]) <==> Legible(parse, targets)
    ensures Legible(parse, targets) ==> (PartTrue(env, DstPart(targets), p) <==> ReachesTarget(env, parse, targets, p))
  {
    TargetsMeaning(env, parse, targets, p);
    var parts := [DstPart(targets)];
    assert parts[0] == DstPart(targets);
    if TargetTerms(targets) != [] {
      AnyOfMeaning(env, TargetTerms(targets), p);
      assert AllReadable(env, parts) <==> ReadableTerm(env, parts[0].term);
    }
  }

  lemma {:induction false} SourceMeaning(env: Env, v6: bool, name: string, p: Packet)
    ensures TermTrue(env, SourceTerm(v6, name), p) <==> p.src.v6 == v6 && p.src in env.sets(name)
    ensures ReadableTerm(env, SourceTerm(v6, name))
  {
    FieldNames(v6);
    CompareReadable(env, Field(v6, "src"), true, "$" + name);
    CompareMeaning(env, Field(v6, "src"), true, "$" + name, p);
    assert ("$" + name)[1..] == name;
  }

  lemma {:induction false} SrcMeaning(env: Env, config: Config, v4: string, v6: string, p: Packet)
    ensures PartTrue(env, SrcPart(config, v4, v6), p) <==> FromSource(env, config, v4, v6, p)
    ensures Sound([SrcPart(config, v4, v6)]) && AllReadable(env, [SrcPart(config, v4, v6)])
  {
    SourceMeaning(env, false, v4, p);
    SourceMeaning(env, true, v6, p);
    var terms := [SourceTerm(false, v4), SourceTerm(true, v6)];
    AnyOfMeaning(env, terms, p);
    assert SomeTrue(env, terms, p) <==> TermTrue(env, terms[0], p) || TermTrue(env, terms[1], p);
    assert WellFormed(terms[0]) && WellFormed(terms[1]);
    assert ReadableTerm(env, terms[0]) && ReadableTerm(env, terms[1]);
  }

  lemma {:induction false} L4PartMeaning(env: Env, ports: seq<PortEntry>, p: Packet)
    ensures PartTrue(env, L4Part(ports), p) <==> PortsAllow(ports, p)
    ensures Sound([L4Part(ports)]) && AllReadable(env, [L4Part(ports)])
  {
    if SomeKnown(ports) {
      L4Meaning(env, ports, p);
      L4Readable(env, ports);
    }
  }

  lemma {:induction false} ExtraMeaning(env: Env, config: Config, p: Packet)
    requires ReadsSubnets(env, config.clusterSubnets)
    ensures AllReadable(env, ExtraParts(config))
    ensures AllTrue(env, ExtraParts(config), p) <==> OnPath(config, p) && Matchable(config, p.dst.v6)
  {
    var parts := ExtraParts(config);
    if !config.localGateway {
      InportMeaning(env, p);
      assert AllTrue(env, parts, p) <==> PartTrue(env, parts[0], p);
    } else if config.clusterSubnets == [] {
      assert !PartTrue(env, parts[0], p);
    } else {
      forall i | 0 <= i < |parts|
        ensures ReadableTerm(env, parts[i].term)
        ensures PartTrue(env, parts[i], p) <==>
                  config.clusterSubnets[i].block.v6 == p.dst.v6 && !Contains(config.clusterSubnets[i].block, p.dst)
      {
        var s := config.clusterSubnets[i];
        FieldNames(s.block.v6);
        CompareMeaning(env, Field(s.block.v6, "dst"), false, s.text, p);
        CompareReadable(env, Field(s.block.v6, "dst"), false, s.text);
      }
    }
  }

  lemma {:induction false} InportMeaning(env: Env, p: Packet)
    ensures TermTrue(env, Compare("inport", true, ["\"" + CLUSTER_ROUTER_PORT + "\""], false), p)
       <==> p.inport == CLUSTER_ROUTER_PORT
    ensures ReadableTerm(env, Compare("inport", true, ["\"" + CLUSTER_ROUTER_PORT + "\""], false))
  {
    var value := "\"" + CLUSTER_ROUTER_PORT + "\"";
    CompareMeaning(env, "inport", true, value, p);
    QuoteInjective(CLUSTER_ROUTER_PORT, p.inport);
  }

  lemma {:induction false} QuoteInjective(a: string, b: string)
    ensures "\"" + a + "\"" == "\"" + b + "\"" <==> a == b
  {
    var x, y := "\"" + a + "\"", "\"" + b + "\"";
    assert x[1..|x| - 1] == a && y[1..|y| - 1] == b;
  }

  lemma {:induction false} PartsSound(config: Config, v4: string, v6: string, targets: seq<MatchTarget>, ports: seq<PortEntry>)
    ensures Sound(MatchParts(config, v4, v6, targets, ports)) && ExtraParts(config) != []
  {
    var env := Env(_ => {}, _ => {}, _ => None);
    var p: Packet := RawPacket.Packet(IP(false, 0), IP(false, 0), OtherProtocol, 0, "", "");
    var d, s, x := [DstPart(targets)], [SrcPart(config, v4, v6)], ExtraParts(config);
    var l := if ports == [] then [] else [L4Part(ports)];
    TargetTermsSound(targets);
    SrcMeaning(env, config, v4, v6, p);
    L4PartMeaning(env, ports, p);
    assert forall i | 0 <= i < |x| && x[i].Good? :: WellFormed(x[i].term);
    AllTrueConcat(env, d, s, p);
    AllTrueConcat(env, d + s, l, p);
    AllTrueConcat(env, d + s + l, x, p);
  }

  /** OVN reads the parts if and only if it reads the targets; then they are true of the packets meant,
      as far as matches can apply to them. */
  lemma {:induction false} PartsMeaning(env: Env, parse: CidrParser, config: Config, v4: string, v6: string, targets: seq<MatchTarget>,
                                        ports: seq<PortEntry>, p: Packet)
    requires ReadsTexts(env, parse) && ReadsSubnets(env, config.clusterSubnets) && AllPlain(targets)
    ensures AllReadable(env, MatchParts(config, v4, v6, targets, ports)) <==> Legible(parse, targets)
    ensures Legible(parse, targets) ==>
              (AllTrue(env, MatchParts(config, v4, v6, targets, ports), p)
               <==> Intended(env, parse, config, v4, v6, targets, ports, p) && Matchable(config, p.dst.v6))
  {
    var d, s, x := [DstPart(targets)], [SrcPart(config, v4, v6)], ExtraParts(config);
    var l := if ports == [] then [] else [L4Part(ports)];
    DstMeaning(env, parse, targets, p);
    SrcMeaning(env, config, v4, v6, p);
    L4PartMeaning(env, ports, p);
    ExtraMeaning(env, config, p);
    AllTrueConcat(env, d, s, p);
    AllTrueConcat(env, d + s, l, p);
    AllTrueConcat(env, d + s + l, x, p);
    assert AllTrue(env, d, p) <==> PartTrue(env, d[0], p);
    assert AllTrue(env, s, p) <==> PartTrue(env, s[0], p);
    assert ports != [] ==> (AllTrue(env, l, p) <==> PartTrue(env, l[0], p));
  }

  /** The printed text parses exactly when it has a destination, a source, known ports and an exclusion. */
  lemma {:induction false} ParsesIff(config: Config, v4: string, v6: string, targets: seq<MatchTarget>, ports: seq<PortEntry>, text: string)
    requires Lex(text) == PartsTokens(MatchParts(config, v4, v6, targets, ports))
    ensures Parse(text).Some? <==>
              && (exists i | 0 <= i < |targets| :: targets[i].value != "")
              && (config.ipv4Mode || config.ipv6Mode)
              && (ports == [] || SomeKnown(ports))
              && (config.localGateway ==> config.clusterSubnets != [])
  {
    var parts := MatchParts(config, v4, v6, targets, ports);
    PartsSound(config, v4, v6, targets, ports);
    TextParse(text, parts);
    TargetTermsEmpty(targets);
    GoodParts(config, v4, v6, targets, ports);
  }

  lemma {:induction false} GoodConcat(a: seq<Part>, b: seq<Part>)
    ensures AllGood(a + b) <==> AllGood(a) && AllGood(b)
  {
    var ab := a + b;
    assert forall i | 0 <= i < |a| :: ab[i] == a[i];
    assert forall i | 0 <= i < |b| :: ab[|a| + i] == b[i];
  }

  lemma {:induction false} GoodParts(config: Config, v4: string, v6: string, targets: seq<MatchTarget>, ports: seq<PortEntry>)
    ensures AllGood(MatchParts(config, v4, v6, targets, ports)) <==>
              && DstPart(targets).Good? && SrcPart(config, v4, v6).Good?
              && (ports == [] || L4Part(ports).Good?)
              && AllGood(ExtraParts(config))
    ensures AllGood(ExtraParts(config)) <==> (config.localGateway ==> config.clusterSubnets != [])
  {
    var d, s, x := [DstPart(targets)], [SrcPart(config, v4, v6)], ExtraParts(config);
    var l := if ports == [] then [] else [L4Part(ports)];
    GoodConcat(d, s);
    GoodConcat(d + s, l);
    GoodConcat(d + s + l, x);
    assert AllGood(d) <==> d[0].Good?;
    assert AllGood(s) <==> s[0].Good?;
    assert ports != [] ==> (AllGood(l) <==> l[0].Good?);
    assert AllGood(x) ==> x[0].Good?;
  }

  lemma {:induction false} TargetTermsEmpty(targets: seq<MatchTarget>)
    ensures TargetTerms(targets) != [] <==> exists i | 0 <= i < |targets| :: targets[i].value != ""
  {
    if targets != [] {
      var before := targets[..|targets| - 1];
      TargetTermsEmpty(before);
      assert targets == before + [targets[|targets| - 1]];
    }
  }

  lemma {:induction false} DualStackNeverMatches(env: Env, config: Config, v4: string, v6: string, targets: seq<MatchTarget>,
                              ports: seq<PortEntry>, i: nat, j: nat, text: string, p: Packet)
    requires config.localGateway && i < |config.clusterSubnets| && j < |config.clusterSubnets|
    requires config.clusterSubnets[i].block.v6 != config.clusterSubnets[j].block.v6
    requires Lex(text) == PartsTokens(MatchParts(config, v4, v6, targets, ports))
    ensures !Matches(env, text, p)
  {
    var parts, x := MatchParts(config, v4, v6, targets, ports), ExtraParts(config);
    PartsSound(config, v4, v6, targets, ports);
    TextMeaning(env, text, parts, p);
    var k := if config.clusterSubnets[i].block.v6 == p.dst.v6 then j else i;
    var other := config.clusterSubnets[k];
    FieldNames(other.block.v6);
    CompareMeaning(env, Field(other.block.v6, "dst"), false, other.text, p);
    assert !PartTrue(env, x[k], p) && parts[|parts| - |x| + k] == x[k];
  }

  lemma {:induction false} LexField(v6: bool, side: string, equal: bool, value: string, text: string)
    requires (side == "src" || side == "dst") && IsWord(value)
    requires text == Field(v6, side) + (if equal then " == " else " != ") + value
    ensures Lex(text) == TermTokens(Compare(Field(v6, side), equal, [value], false)) && text != ""
  {
    FieldNames(v6);
    LexCompare(Field(v6, side), equal, value);
  }

  lemma {:induction false} DollarWord(name: string)
    requires IsWord(name)
    ensures IsWord("$" + name)
  {
    var w := "$" + name;
    assert forall i | 1 <= i < |w| :: w[i] == name[i - 1];
  }

  lemma {:induction false} LexTarget(t: MatchTarget)
    requires IsWord(t.value)
    ensures Lex(ToExpr(t)) == TermTokens(TargetTerm(t)) && ToExpr(t) != ""
  {
    DollarWord(t.value);
    FieldNames(ForV6(t.kind));
    LexField(ForV6(t.kind), "dst", true, TargetText(t), Field(ForV6(t.kind), "dst") + " == " + TargetText(t));
    assert ToExpr(t) == Field(ForV6(t.kind), "dst") + " == " + TargetText(t);
  }

  /** One more alternative. */
  lemma {:induction false} PrintedMore(text: string, terms: seq<Term>, more: string, t: Term)
    requires Printed(text, terms) && Lex(more) == TermTokens(t) && more != ""
    ensures Printed(Joined(text, more), terms + [t])
  {
    ChainSingle(false, [t]);
    if text == "" {
      assert terms + [t] == [t];
    } else {
      LexOr();
      LexAppendTerm(false, text, terms, " || ", more, t);
    }
  }

  method DestinationText(targets: seq<MatchTarget>) returns (dst: string)
    requires AllPlain(targets)
    ensures Printed(dst, TargetTerms(targets))
  {
    dst := "";
    for i := 0 to |targets|
      invariant Printed(dst, TargetTerms(targets[..i]))
    {
      assert targets[..i + 1][..i] == targets[..i];
      if targets[i].value == "" {
        continue;
      }
      LexTarget(targets[i]);
      var ipDst := ToExpr(targets[i]);
      PrintedMore(dst, TargetTerms(targets[..i]), ipDst, TargetTerm(targets[i]));
      if dst == "" {
        dst := ipDst;
      } else {
        dst := dst + " || " + ipDst;
      }
    }
    assert targets[..|targets|] == targets;
  }

  lemma {:induction false} LexDst(dst: string, targets: seq<MatchTarget>)
    requires Printed(dst, TargetTerms(targets))
    ensures Lex("(" + dst + ")") == PartTokens(DstPart(targets))
  {
    var terms := TargetTerms(targets);
    if terms == [] {
      NothingPrinted("(" + dst + ")");
    } else {
      AnyOfTokens(terms);
      LexParen(dst, AnyOf(terms));
    }
  }

  lemma {:induction false} LexSource(v6: bool, name: string, text: string)
    requires IsWord(name) && text == (if v6 then "ip6.src == $" else "ip4.src == $") + name
    ensures Lex(text) == TermTokens(SourceTerm(v6, name)) && text != ""
  {
    DollarWord(name);
    FieldNames(v6);
    assert text == Field(v6, "src") + " == " + ("$" + name);
    LexField(v6, "src", true, "$" + name, text);
  }

  lemma {:induction false} BothSourcesText(v4: string, v6: string)
    ensures "(" + (("ip4.src == $" + v4) + " || " + ("ip6.src == $" + v6)) + ")"
         == "(ip4.src == $" + v4 + " || ip6.src == $" + v6 + ")"
  {
    var a := "ip4.src == $" + v4;
    assert "(" + a == "(ip4.src == $" + v4;
    assert " || " + ("ip6.src == $" + v6) == " || ip6.src == $" + v6;
  }

  lemma {:induction false} LexBothSources(v4: string, v6: string)
    requires IsWord(v4) && IsWord(v6)
    ensures Lex("(ip4.src == $" + v4 + " || ip6.src == $" + v6 + ")")
         == TermTokens(Paren(AnyOf([SourceTerm(false, v4), SourceTerm(true, v6)])))
  {
    var a, b := "ip4.src == $" + v4, "ip6.src == $" + v6;
    var s, t := SourceTerm(false, v4), SourceTerm(true, v6);
    LexSource(false, v4, a);
    LexSource(true, v6, b);
    ChainSingle(false, [s]);
    PrintedMore(a, [s], b, t);
    assert [s] + [t] == [s, t];
    LexParen(a + " || " + b, AnyOf([s, t]));
    BothSourcesText(v4, v6);
  }

  method SourceText(config: Config, ipv4Source: string, ipv6Source: string) returns (src: string)
    requires IsWord(ipv4Source) && IsWord(ipv6Source)
    ensures Lex(src) == PartTokens(SrcPart(config, ipv4Source, ipv6Source))
  {
    src := "";
    if config.ipv4Mode && config.ipv6Mode {
      src := "(ip4.src == $" + ipv4Source + " || ip6.src == $" + ipv6Source + ")";
      LexBothSources(ipv4Source, ipv6Source);
    } else if config.ipv4Mode {
      src := "ip4.src == $" + ipv4Source;
      LexSource(false, ipv4Source, src);
    } else if config.ipv6Mode {
      src := "ip6.src == $" + ipv6Source;
      LexSource(true, ipv6Source, src);
    }
  }

  /** The exclusion text of the first subnets. */
  predicate Excluding(text: string, subnets: seq<ClusterSubnet>) {
    (text == "" <==> subnets == []) && Lex(text) == PartsTokens(ExclusionParts(subnets))
  }

  lemma {:induction false} ExcludingMore(text: string, subnets: seq<ClusterSubnet>, s: ClusterSubnet, one: string)
    requires Excluding(text, subnets) && IsWord(s.text)
    requires one == Field(s.block.v6, "dst") + " != " + s.text
    ensures Excluding(if text == "" then one else text + " && " + one, subnets + [s])
  {
    var parts, part := ExclusionParts(subnets), Good(ExclusionTerm(s));
    LexField(s.block.v6, "dst", false, s.text, one);
    assert ExclusionParts(subnets + [s]) == parts + [part];
    assert PartsTokens([part]) == PartTokens(part);
    if text == "" {
      assert parts + [part] == [part];
    } else {
      LexMoreParts(text, parts, one, [part]);
    }
  }

  method GetClusterSubnetsExclusion(subnets: seq<ClusterSubnet>) returns (exclusion: string)
    requires forall i | 0 <= i < |subnets| :: IsWord(subnets[i].text)
    ensures Excluding(exclusion, subnets)
  {
    exclusion := "";
    for i := 0 to |subnets|
      invariant Excluding(exclusion, subnets[..i])
    {
      var s := subnets[i];
      assert subnets[..i + 1] == subnets[..i] + [s];
      ghost var was := exclusion;
      ExcludingMore(was, subnets[..i], s, Field(s.block.v6, "dst") + " != " + s.text);
      if exclusion != "" {
        exclusion := exclusion + " && ";
      }
      exclusion := exclusion + (Field(s.block.v6, "dst") + " != " + s.text);
      assert was == "" ==> exclusion == Field(s.block.v6, "dst") + " != " + s.text;
    }
    assert subnets[..|subnets|] == subnets;
  }

  lemma {:induction false} LexInport(text: string)
    requires text == "inport == \"" + CLUSTER_ROUTER_PORT + "\""
    ensures Lex(text) == TermTokens(Compare("inport", true, ["\"" + CLUSTER_ROUTER_PORT + "\""], false))
  {
    var value := "\"" + CLUSTER_ROUTER_PORT + "\"";
    PortIsWord();
    LexCompare("inport", true, value);
    InportText(value);
  }

  lemma {:induction false} PortIsWord()
    ensures IsWord("\"" + CLUSTER_ROUTER_PORT + "\"") && IsWord("inport")
  {
  }

  lemma {:induction false} InportText(value: string)
    requires value == "\"" + CLUSTER_ROUTER_PORT + "\""
    ensures "inport == \"" + CLUSTER_ROUTER_PORT + "\"" == "inport" + " == " + value
  {
    assert "inport == \"" == "inport" + " == " + "\"";
  }

  method ExtraText(config: Config) returns (extra: string)
    requires forall i | 0 <= i < |config.clusterSubnets| :: IsWord(config.clusterSubnets[i].text)
    ensures Lex(extra) == PartsTokens(ExtraParts(config))
  {
    if config.localGateway {
      extra := GetClusterSubnetsExclusion(config.clusterSubnets);
    } else {
      extra := "inport == \"" + "jtor-" + "ovn_cluster_router" + "\"";
      LexInport(extra);
    }
  }

  /** Destinations and source. */
  method EndpointsText(config: Config, ipv4Source: string, ipv6Source: string, destinations: seq<MatchTarget>)
      returns (text: string)
    requires Plain(config, ipv4Source, ipv6Source, destinations)
    ensures Lex(text) == PartsTokens([DstPart(destinations)] + [SrcPart(config, ipv4Source, ipv6Source)])
  {
    var src := SourceText(config, ipv4Source, ipv6Source);
    var dst := DestinationText(destinations);
    LexDst(dst, destinations);
    text := "(" + dst + ")" + " && " + src;
    LexMoreParts("(" + dst + ")", [DstPart(destinations)], src, [SrcPart(config, ipv4Source, ipv6Source)]);
  }

  /** The condition on ports, if ports are given. */
  method AppendL4(text: string, ghost parts: seq<Part>, dstPorts: seq<PortEntry>) returns (r: string)
    requires parts != [] && Lex(text) == PartsTokens(parts)
    ensures Lex(r) == PartsTokens(parts + if dstPorts == [] then [] else [L4Part(dstPorts)])
  {
    r := text;
    if dstPorts != [] {
      var l4 := EgressGetL4Match(dstPorts);
      LexMoreParts(text, parts, l4, [L4Part(dstPorts)]);
      r := text + " && " + l4;
    } else {
      assert parts + [] == parts;
    }
  }

  lemma {:induction false} ExtraNotEmpty(config: Config)
    ensures ExtraParts(config) != []
  {
  }

  /** The whole match, for targets, ports and cluster subnets of any number and order. */
  method GenerateMatch(config: Config, ipv4Source: string, ipv6Source: string, destinations: seq<MatchTarget>,
                       dstPorts: seq<PortEntry>) returns (text: string)
    requires Plain(config, ipv4Source, ipv6Source, destinations)
    ensures Lex(text) == PartsTokens(MatchParts(config, ipv4Source, ipv6Source, destinations, dstPorts))
    ensures TextMatches(text, config, ipv4Source, ipv6Source, destinations, dstPorts)
  {
    ghost var ends := [DstPart(destinations)] + [SrcPart(config, ipv4Source, ipv6Source)];
    text := EndpointsText(config, ipv4Source, ipv6Source, destinations);
    text := AppendL4(text, ends, dstPorts);
    var extra := ExtraText(config);
    ExtraNotEmpty(config);
    LexMoreParts(text, ends + if dstPorts == [] then [] else [L4Part(dstPorts)], extra, ExtraParts(config));
    text := text + " && " + extra;
    MatchMeans(text, config, ipv4Source, ipv6Source, destinations, dstPorts);
  }

  /** For any reading of constants in which the cluster subnets read as they are printed, the text matches exactly
      the packets meant, as far as matches can apply to them, or nothing when a target has host bits. */
  ghost predicate TextMatches(text: string, config: Config, v4: string, v6: string, targets: seq<MatchTarget>, ports: seq<PortEntry>) {
    forall env, parse, p | ReadsTexts(env, parse) && ReadsSubnets(env, config.clusterSubnets) ::
      Matches(env, text, p) <==>
        Intended(env, parse, config, v4, v6, targets, ports, p) && Matchable(config, p.dst.v6) && Legible(parse, targets)
  }

  lemma {:induction false} MatchMeans(text: string, config: Config, v4: string, v6: string, targets: seq<MatchTarget>, ports: seq<PortEntry>)
    requires Lex(text) == PartsTokens(MatchParts(config, v4, v6, targets, ports)) && AllPlain(targets)
    ensures TextMatches(text, config, v4, v6, targets, ports)
  {
    forall env, parse, p | ReadsTexts(env, parse) && ReadsSubnets(env, config.clusterSubnets)
      ensures Matches(env, text, p) <==>
                Intended(env, parse, config, v4, v6, targets, ports, p) && Matchable(config, p.dst.v6) && Legible(parse, targets)
    {
      PartsSound(config, v4, v6, targets, ports);
      PartsMeaning(env, parse, config, v4, v6, targets, ports, p);
      TextMeaning(env, text, MatchParts(config, v4, v6, targets, ports), p);
    }
  }

  /** The printed match agrees with its intent on a whole address family, of which it should match some packet,
      if and only if no target has host bits and, in local gateway mode, there are cluster subnets and all are of that family. */
  lemma {:induction false} MatchIsExactIff(env: Env, parse: CidrParser, text: string, config: Config, v4: string, v6: string,
                                           targets: seq<MatchTarget>, ports: seq<PortEntry>, q: Packet)
    requires Lex(text) == PartsTokens(MatchParts(config, v4, v6, targets, ports)) && AllPlain(targets)
    requires ReadsTexts(env, parse) && ReadsSubnets(env, config.clusterSubnets)
    requires Intended(env, parse, config, v4, v6, targets, ports, q)
    ensures (forall p: Packet | p.dst.v6 == q.dst.v6 ::
               Matches(env, text, p) <==> Intended(env, parse, config, v4, v6, targets, ports, p))
       <==> Legible(parse, targets) && (config.localGateway ==> AllOf(config.clusterSubnets, q.dst.v6))
  {
    MatchMeans(text, config, v4, v6, targets, ports);
  }

  lemma {:induction false} ExclusionMeans(env: Env, text: string, subnets: seq<ClusterSubnet>, p: Packet)
    requires Excluding(text, subnets) && ReadsSubnets(env, subnets)
    ensures Matches(env, text, p) <==> AllOf(subnets, p.dst.v6) && LeavesCluster(subnets, p)
  {
    var local := Config(true, true, true, subnets);
    ExtraMeaning(env, local, p);
    if subnets == [] {
      assert Parse(text).None?;
    } else {
      TextMeaning(env, text, ExclusionParts(subnets), p);
    }
  }

  /** The printed exclusion lets a family's packets that leave the cluster pass, and no others, if and only if
      there are cluster subnets and all are of that family. */
  lemma {:induction false} ExclusionIsExactIff(env: Env, text: string, subnets: seq<ClusterSubnet>, q: Packet)
    requires Excluding(text, subnets) && ReadsSubnets(env, subnets) && LeavesCluster(subnets, q)
    ensures (forall p: Packet | p.dst.v6 == q.dst.v6 :: Matches(env, text, p) <==> LeavesCluster(subnets, p))
       <==> AllOf(subnets, q.dst.v6)
  {
    forall p: Packet
      ensures Matches(env, text, p) <==> AllOf(subnets, p.dst.v6) && LeavesCluster(subnets, p)
    {
      ExclusionMeans(env, text, subnets, p);
    }
  }
}
