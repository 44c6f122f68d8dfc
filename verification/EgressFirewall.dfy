/** A firewall object of pkg/ovn/egressfirewall.go: what it promises, its numbered rules and the text of each. */
module EgressFirewall {
  import opened Wrappers
  import opened Cidr
  import opened OvnExpr
  import opened EgressFirewallPorts
  import opened EgressFirewallMatch

  const START_PRIORITY: nat := 10000
  const MINIMUM_RESERVED_PRIORITY: nat := 2000

  datatype Action = Allow | Drop

  /** A rule as the object spells it: a DNS name, if there is one, or else a CIDR. */
  datatype Spec = Spec(allow: bool, cidrSelector: string, dnsName: string, ports: seq<PortEntry>)

  datatype Rule = Rule(id: nat, allow: bool, cidrSelector: string, dnsName: string, ports: seq<PortEntry>)

  datatype ACL = ACL(priority: nat, text: string, action: Action, namespace: string, switches: set<string>)

  /** What adding one command to a transaction does first: nothing, or commit what is pending because it got too
      long, which can fail. */
  datatype Commit = Pending | Committed | CommitFails

  /** What the compiler is given: configuration, address parsing, the address sets of a DNS name (None when adding it
      fails), the nodes (None when listing fails), which "find" commands succeed, and when transactions commit. */
  datatype World = World(
    config: Config,
    parse: CidrParser,
    dns: string -> Option<(string, string)>,
    nodes: Option<seq<string>>,
    finds: nat -> bool,
    commits: nat -> Commit)

  ghost predicate Usual(world: World) {
    && (forall s :: world.parse(s).Some? ==> IsWord(s) && !IsSetName(s))
    && (forall s :: world.dns(s).Some? ==> SetName(world.dns(s).value.0) && SetName(world.dns(s).value.1))
    && (forall i | 0 <= i < |world.config.clusterSubnets| :: IsWord(world.config.clusterSubnets[i].text))
  }

  /** OVN's reading of constants agrees with the compiler's, but for host bits. */
  ghost predicate Reads(env: Env, world: World) {
    ReadsTexts(env, world.parse) && ReadsSubnets(env, world.config.clusterSubnets)
  }

  predicate SetName(s: string) {
    s == "" || IsWord(s)
  }

  // ----- What the object promises

  function Verdict(allow: bool): Action {
    if allow then Allow else Drop
  }

  /** The packet's destination is what the rule names: a DNS name's addresses, or any CIDR the code accepts. */
  predicate Reaches(env: Env, world: World, cidrSelector: string, dnsName: string, p: Packet) {
    if dnsName != "" then
      world.dns(dnsName).Some?
      && (var (v4, v6) := world.dns(dnsName).value;
          if p.dst.v6 then v6 != "" && p.dst in env.sets(v6) else v4 != "" && p.dst in env.sets(v4))
    else world.parse(cidrSelector).Some? && Contains(world.parse(cidrSelector).value, p.dst)
  }

  predicate SpecHits(env: Env, world: World, s: Spec, p: Packet) {
    Reaches(env, world, s.cidrSelector, s.dnsName, p) && (s.ports == [] || PortsAllow(s.ports, p))
  }

  /** The first rule in the object's order that applies decides. */
  function FirstMatch(env: Env, world: World, specs: seq<Spec>, p: Packet): Option<Action> {
    if specs == [] then None
    else if SpecHits(env, world, specs[0], p) then Some(Verdict(specs[0].allow))
    else FirstMatch(env, world, specs[1..], p)
  }

  /** Traffic of the namespace, seen where the firewall looks. */
  predicate InScope(env: Env, world: World, v4: string, v6: string, p: Packet) {
    FromSource(env, world.config, v4, v6, p) && OnPath(world.config, p)
  }

  /** The blocks as OVN takes them: those with host bits are no constants. */
  function AsRead(world: World): World {
    world.(parse := s => Constant(world.parse(s)))
  }

  /** No host bits: OVN can read the rule. */
  predicate SpecLegible(world: World, s: Spec) {
    s.dnsName != "" || (world.parse(s.cidrSelector).Some? ==> Masked(world.parse(s.cidrSelector).value))
  }

  predicate RuleLegible(world: World, rule: Rule) {
    rule.dnsName != "" || (world.parse(rule.cidrSelector).Some? ==> Masked(world.parse(rule.cidrSelector).value))
  }

  lemma {:induction false} HitsAsRead(env: Env, world: World, s: Spec, p: Packet)
    ensures SpecHits(env, AsRead(world), s, p) <==> SpecHits(env, world, s, p) && SpecLegible(world, s)
  {
  }

  lemma {:induction false} RuleHitsAsRead(env: Env, world: World, rule: Rule, p: Packet)
    ensures RuleHits(env, AsRead(world), rule, p) <==> RuleHits(env, world, rule, p) && RuleLegible(world, rule)
  {
  }

  /** There are only so many reserved priorities; the rules after them are ignored. */
  function Considered(specs: seq<Spec>): (r: seq<Spec>)
    ensures r <= specs && (|specs| <= 8001 ==> r == specs) && (|specs| > 8001 ==> |r| == 8001)
  {
    var limit := START_PRIORITY - MINIMUM_RESERVED_PRIORITY + 1;
    if |specs| <= limit then specs else specs[..limit]
  }

  // ----- What a set of ACLs does

  predicate Applies(env: Env, row: ACL, ns: string, w: string, p: Packet) {
    row.namespace == ns && w in row.switches && Matches(env, row.text, p)
  }

  /** Every ACL of the highest priority that applies has this action; equal priorities may come in any order. */
  ghost predicate Decides(env: Env, rows: seq<ACL>, ns: string, w: string, p: Packet, action: Action) {
    exists i | 0 <= i < |rows| :: Applies(env, rows[i], ns, w, p) && rows[i].action == action
      && forall k | 0 <= k < |rows| && Applies(env, rows[k], ns, w, p) ::
           rows[k].priority < rows[i].priority || (rows[k].priority == rows[i].priority && rows[k].action == action)
  }

  ghost predicate Untouched(env: Env, rows: seq<ACL>, ns: string, w: string, p: Packet) {
    forall k | 0 <= k < |rows| :: !Applies(env, rows[k], ns, w, p)
  }

  // ----- Rules

  function NewRule(world: World, s: Spec, id: nat): Option<Rule> {
    if s.dnsName != "" then Some(Rule(id, s.allow, "", s.dnsName, s.ports))
    else if world.parse(s.cidrSelector).Some? then Some(Rule(id, s.allow, s.cidrSelector, "", s.ports))
    else None
  }

  function Targets(world: World, rule: Rule): Option<seq<MatchTarget>> {
    if rule.cidrSelector != "" then
      var v6 := world.parse(rule.cidrSelector).Some? && world.parse(rule.cidrSelector).value.v6;
      Some([MatchTarget(if v6 then V6CIDR else V4CIDR, rule.cidrSelector)])
    else match world.dns(rule.dnsName)
      case None => None
      case Some((v4, v6)) =>
        Some((if v4 != "" then [MatchTarget(V4AddressSet, v4)] else [])
             + (if v6 != "" then [MatchTarget(V6AddressSet, v6)] else []))
  }

  /** The rules are the valid specs in order, numbered by their place. */
  ghost predicate Numbered(world: World, specs: seq<Spec>, rules: seq<Rule>) {
    && (forall j | 0 <= j < |rules| :: rules[j].id < |specs| && NewRule(world, specs[rules[j].id], rules[j].id) == Some(rules[j]))
    && (forall j, k | 0 <= j < k < |rules| :: rules[j].id < rules[k].id)
    && (forall i | 0 <= i < |specs| && NewRule(world, specs[i], i).Some? :: Listed(rules, i))
  }

  ghost predicate Listed(rules: seq<Rule>, id: nat) {
    exists j | 0 <= j < |rules| :: rules[j].id == id
  }

  predicate RuleHits(env: Env, world: World, rule: Rule, p: Packet) {
    Reaches(env, world, rule.cidrSelector, rule.dnsName, p) && (rule.ports == [] || PortsAllow(rule.ports, p))
  }

  ghost predicate FirstRule(env: Env, world: World, rules: seq<Rule>, j: nat, p: Packet) {
    j < |rules| && RuleHits(env, world, rules[j], p) && forall k | 0 <= k < j :: !RuleHits(env, world, rules[k], p)
  }

  /** The same world, or one in which fewer texts parse. */
  ghost predicate Narrows(world: World, reading: World) {
    reading.dns == world.dns && forall s :: reading.parse(s).Some? ==> reading.parse(s) == world.parse(s)
  }

  lemma {:induction false} RuleOfSpec(env: Env, world: World, reading: World, s: Spec, id: nat, p: Packet)
    requires Narrows(world, reading)
    ensures match NewRule(world, s, id)
            case Some(rule) => RuleHits(env, reading, rule, p) == SpecHits(env, reading, s, p)
            case None => !SpecHits(env, reading, s, p)
  {
  }

  lemma {:induction false} FirstMatchIs(env: Env, world: World, specs: seq<Spec>, p: Packet)
    ensures match FirstMatch(env, world, specs, p)
            case None => forall i | 0 <= i < |specs| :: !SpecHits(env, world, specs[i], p)
            case Some(a) => FirstSpec(env, world, specs, p, a)
  {
    if specs == [] || SpecHits(env, world, specs[0], p) {
    } else {
      var rest := specs[1..];
      FirstMatchIs(env, world, rest, p);
      assert specs == [specs[0]] + rest;
      if FirstMatch(env, world, rest, p).Some? {
        var a := FirstMatch(env, world, rest, p).value;
        assert FirstSpec(env, world, rest, p, a);
        var i :| 0 <= i < |rest| && FirstSpecAt(env, world, rest, i, p) && Verdict(rest[i].allow) == a;
        assert FirstSpecAt(env, world, specs, i + 1, p);
      }
    }
  }

  ghost predicate FirstSpec(env: Env, world: World, specs: seq<Spec>, p: Packet, a: Action) {
    exists i | 0 <= i < |specs| :: FirstSpecAt(env, world, specs, i, p) && Verdict(specs[i].allow) == a
  }

  ghost predicate FirstSpecAt(env: Env, world: World, specs: seq<Spec>, i: nat, p: Packet) {
    i < |specs| && SpecHits(env, world, specs[i], p) && forall k | 0 <= k < i :: !SpecHits(env, world, specs[k], p)
  }

  /** The first spec that applies decides: an allow rule allows, a deny rule drops; those that do not apply are passed over. */
  lemma {:induction false} FirstSpecDecides(env: Env, world: World, before: seq<Spec>, s: Spec, rest: seq<Spec>, p: Packet)
    requires SpecHits(env, world, s, p) && forall i | 0 <= i < |before| :: !SpecHits(env, world, before[i], p)
    ensures FirstMatch(env, world, before + [s] + rest, p) == Some(if s.allow then Allow else Drop)
  {
    var specs := before + [s] + rest;
    if before == [] {
      assert specs[0] == s;
    } else {
      FirstSpecDecides(env, world, before[1..], s, rest, p);
      assert specs[0] == before[0] && specs[1..] == before[1..] + [s] + rest;
    }
  }

  /** The first valid rule that applies carries the verdict of the first spec that applies, whether the world's
      blocks are taken as they are parsed or as OVN reads them. */
  lemma {:induction false} RulesKeepVerdict(env: Env, world: World, reading: World, specs: seq<Spec>, rules: seq<Rule>, p: Packet)
    requires Numbered(world, specs, rules) && Narrows(world, reading)
    ensures match FirstMatch(env, reading, specs, p)
            case None => forall j | 0 <= j < |rules| :: !RuleHits(env, reading, rules[j], p)
            case Some(a) => exists j | 0 <= j < |rules| :: FirstRule(env, reading, rules, j, p) && Verdict(rules[j].allow) == a
  {
    FirstMatchIs(env, reading, specs, p);
    forall j | 0 <= j < |rules|
      ensures RuleHits(env, reading, rules[j], p) == SpecHits(env, reading, specs[rules[j].id], p)
      ensures rules[j].allow == specs[rules[j].id].allow
    {
      RuleOfSpec(env, world, reading, specs[rules[j].id], rules[j].id, p);
    }
    if FirstMatch(env, reading, specs, p).Some? {
      var a := FirstMatch(env, reading, specs, p).value;
      var i :| 0 <= i < |specs| && FirstSpecAt(env, reading, specs, i, p) && Verdict(specs[i].allow) == a;
      RuleOfSpec(env, world, reading, specs[i], i, p);
      assert Listed(rules, i);
      var j :| 0 <= j < |rules| && rules[j].id == i;
      assert FirstRule(env, reading, rules, j, p);
    }
  }

  // ----- The match of a rule

  lemma {:induction false} TargetsReach(env: Env, world: World, rule: Rule, p: Packet)
    requires Usual(world) && Targets(world, rule).Some? && Valid(world, rule)
    ensures ReachesTarget(env, world.parse, Targets(world, rule).value, p)
       <==> Reaches(env, world, rule.cidrSelector, rule.dnsName, p)
    ensures Legible(world.parse, Targets(world, rule).value) <==> RuleLegible(world, rule)
  {
    var targets := Targets(world, rule).value;
    if rule.cidrSelector != "" {
      assert ReachesTarget(env, world.parse, targets, p) <==> TargetHit(env, world.parse, targets[0], p);
      assert Legible(world.parse, targets) <==> TargetLegible(world.parse, targets[0]);
    } else {
      var (v4, v6) := world.dns(rule.dnsName).value;
      var t4, t6 := MatchTarget(V4AddressSet, v4), MatchTarget(V6AddressSet, v6);
      assert ReachesTarget(env, world.parse, targets, p) <==>
        TargetHit(env, world.parse, t4, p) || TargetHit(env, world.parse, t6, p) by {
        assert forall i | 0 <= i < |targets| :: targets[i] == t4 || targets[i] == t6;
        assert v4 != "" ==> targets[0] == t4;
        assert v6 != "" ==> targets[|targets| - 1] == t6;
      }
    }
  }

  /** The text has the rule's meaning within scope, if the rule has no host bits and for families that matches can
      apply to; otherwise it matches nothing. */
  ghost predicate TextMeans(text: string, world: World, v4: string, v6: string, rule: Rule) {
    forall env: Env, p: Packet | Reads(env, world) ::
      Matches(env, text, p) <==>
        && RuleHits(env, world, rule, p) && InScope(env, world, v4, v6, p)
        && Matchable(world.config, p.dst.v6) && RuleLegible(world, rule)
  }

  predicate Valid(world: World, rule: Rule) {
    if rule.dnsName != "" then rule.cidrSelector == "" else world.parse(rule.cidrSelector).Some?
  }

  /** The match of one rule; None when its DNS name cannot be added. */
  method RuleText(world: World, v4: string, v6: string, rule: Rule) returns (text: Option<string>)
    requires Usual(world) && Valid(world, rule) && IsWord(v4) && IsWord(v6)
    ensures text.Some? <==> rule.dnsName == "" || world.dns(rule.dnsName).Some?
    ensures text.Some? ==> TextMeans(text.value, world, v4, v6, rule)
  {
    var targets := Targets(world, rule);
    if targets.None? {
      return None;
    }
    PlainTargets(world, v4, v6, rule);
    var t := GenerateMatch(world.config, v4, v6, targets.value, rule.ports);
    MatchIsRule(world, v4, v6, rule, t);
    return Some(t);
  }

  lemma {:induction false} MatchIsRule(world: World, v4: string, v6: string, rule: Rule, text: string)
    requires Usual(world) && Valid(world, rule) && Targets(world, rule).Some?
    requires TextMatches(text, world.config, v4, v6, Targets(world, rule).value, rule.ports)
    ensures TextMeans(text, world, v4, v6, rule)
  {
    var targets := Targets(world, rule).value;
    forall env: Env, p: Packet | Reads(env, world)
      ensures Matches(env, text, p) <==>
                && RuleHits(env, world, rule, p) && InScope(env, world, v4, v6, p)
                && Matchable(world.config, p.dst.v6) && RuleLegible(world, rule)
    {
      TargetsReach(env, world, rule, p);
      assert Matches(env, text, p) <==>
        && Intended(env, world.parse, world.config, v4, v6, targets, rule.ports, p)
        && Matchable(world.config, p.dst.v6) && Legible(world.parse, targets);
    }
  }

  lemma {:induction false} PlainTargets(world: World, v4: string, v6: string, rule: Rule)
    requires Usual(world) && Valid(world, rule) && IsWord(v4) && IsWord(v6) && Targets(world, rule).Some?
    ensures Plain(world.config, v4, v6, Targets(world, rule).value)
  {
  }

  // ----- Numbering

  ghost predicate Increasing(rules: seq<Rule>) {
    && (forall j, k | 0 <= j < k < |rules| :: rules[j].id < rules[k].id)
    && (forall j | 0 <= j < |rules| :: rules[j].id <= START_PRIORITY - MINIMUM_RESERVED_PRIORITY)
  }

  /** The rules of the first n specs. */
  ghost predicate NumberedUpTo(world: World, specs: seq<Spec>, n: nat, rules: seq<Rule>) {
    && n <= |specs|
    && (forall j | 0 <= j < |rules| :: rules[j].id < n && NewRule(world, specs[rules[j].id], rules[j].id) == Some(rules[j]))
    && (forall j, k | 0 <= j < k < |rules| :: rules[j].id < rules[k].id)
    && (forall i | 0 <= i < n && NewRule(world, specs[i], i).Some? :: Listed(rules, i))
  }

  lemma {:induction false} NumberedPrefix(world: World, specs: seq<Spec>, n: nat, rules: seq<Rule>)
    requires NumberedUpTo(world, specs, n, rules)
    ensures Numbered(world, specs[..n], rules)
  {
    assert forall i | 0 <= i < n :: specs[..n][i] == specs[i];
  }

  /** The first rules are the first specs. */
  lemma {:induction false} FirstSpecs(world: World, specs: seq<Spec>, rules: seq<Rule>, n: nat) returns (m: nat)
    requires Numbered(world, specs, rules) && n <= |rules|
    ensures m <= |specs| && Numbered(world, specs[..m], rules[..n])
  {
    m := if n == |rules| then |specs| else rules[n].id;
    forall i | 0 <= i < m && NewRule(world, specs[..m][i], i).Some?
      ensures Listed(rules[..n], i)
    {
      assert specs[..m][i] == specs[i] && Listed(rules, i);
      var j :| 0 <= j < |rules| && rules[j].id == i;
      assert j < n && rules[..n][j].id == i;
    }
  }

  lemma {:induction false} ListedMore(rules: seq<Rule>, rule: Rule)
    ensures Listed(rules + [rule], rule.id) && forall id | Listed(rules, id) :: Listed(rules + [rule], id)
  {
    var more := rules + [rule];
    assert more[|rules|] == rule;
    forall id | Listed(rules, id)
      ensures Listed(more, id)
    {
      var j :| 0 <= j < |rules| && rules[j].id == id;
      assert more[j].id == id;
    }
  }

  /** The loop over the object's rules: invalid ones are skipped, those over the limit ignored. */
  method NumberRules(world: World, specs: seq<Spec>) returns (rules: seq<Rule>)
    ensures Numbered(world, Considered(specs), rules) && Increasing(rules)
    ensures forall j | 0 <= j < |rules| :: Valid(world, rules[j])
  {
    rules := [];
    for i := 0 to |specs|
      invariant i <= START_PRIORITY - MINIMUM_RESERVED_PRIORITY + 1
      invariant NumberedUpTo(world, specs, i, rules)
      invariant forall j | 0 <= j < |rules| :: Valid(world, rules[j])
    {
      if i > START_PRIORITY - MINIMUM_RESERVED_PRIORITY {
        NumberedPrefix(world, specs, i, rules);
        return;
      }
      var rule := NewRule(world, specs[i], i);
      if rule.None? {
        continue;
      }
      ListedMore(rules, rule.value);
      rules := rules + [rule.value];
    }
    NumberedPrefix(world, specs, |specs|, rules);
    assert specs[..|specs|] == specs;
  }
}
