/** addEgressFirewall of pkg/ovn/egressfirewall.go and its caller: ACLs written through a transaction that may
    commit itself, or fail to, at any command. */
module EgressFirewallController {
  import opened Wrappers
  import opened OvnExpr
  import opened EgressFirewall
  import opened EgressFirewallTable

  datatype Result = Done | AlreadyThere | NoAddressSet | NoNodes | NoDNS | NoFind | NotCommitted

  /** The database may lag behind the transaction: it has fewer ACLs, on fewer switches. */
  ghost predicate Behind(db: seq<ACL>, rows: seq<ACL>) {
    |db| <= |rows| && forall i | 0 <= i < |db| :: rows[i] == db[i].(switches := rows[i].switches)
  }

  function FoundACLs(rows: seq<ACL>, rule: Rule, text: string, ns: string): set<nat> {
    set i | 0 <= i < |rows| && Found(rows[i], rule, text, ns)
  }

  /** Nothing found: one new ACL a switch. */
  ghost predicate Creates(rows: seq<ACL>, after: seq<ACL>, rule: Rule, text: string, ns: string, switches: seq<string>) {
    && rule.id <= START_PRIORITY && |after| == |rows| + |switches|
    && (forall i | 0 <= i < |rows| :: after[i] == rows[i])
    && (forall k | 0 <= k < |switches| :: after[|rows| + k] == NewACL(rule, text, ns, switches[k]))
  }

  function Elements(switches: seq<string>): set<string> {
    set w | w in switches
  }

  /** The found ACLs are attached to these switches. */
  ghost predicate Reuses(rows: seq<ACL>, after: seq<ACL>, uuids: set<nat>, switches: set<string>) {
    && |after| == |rows|
    && forall i | 0 <= i < |rows| :: after[i] == if i in uuids then rows[i].(switches := rows[i].switches + switches) else rows[i]
  }

  lemma {:induction false} ReusesMore(rows: seq<ACL>, now: seq<ACL>, after: seq<ACL>, uuids: set<nat>, switches: set<string>, w: string)
    requires Reuses(rows, now, uuids, switches) && Reuses(now, after, uuids, {w})
    ensures Reuses(rows, after, uuids, switches + {w})
  {
    forall i | 0 <= i < |rows| && i in uuids
      ensures after[i] == rows[i].(switches := rows[i].switches + (switches + {w}))
    {
      assert rows[i].switches + switches + {w} == rows[i].switches + (switches + {w});
    }
  }

  /** One more found ACL is attached to the switch. */
  lemma {:induction false} ReusesOne(rows: seq<ACL>, now: seq<ACL>, after: seq<ACL>, uuids: set<nat>, uuid: nat, w: string)
    requires Reuses(rows, now, uuids, {w}) && Attaches(now, after, uuid, w) && uuid !in uuids
    ensures Reuses(rows, after, uuids + {uuid}, {w})
  {
  }

  ghost predicate AllFound(rows: seq<ACL>, uuids: set<nat>, rule: Rule, text: string, ns: string) {
    forall i <- uuids :: i < |rows| && Found(rows[i], rule, text, ns)
  }

  lemma {:induction false} AttachedFound(rows: seq<ACL>, after: seq<ACL>, uuids: set<nat>, rule: Rule, text: string, ns: string, uuid: nat, w: string)
    requires AllFound(rows, uuids, rule, text, ns) && Attaches(rows, after, uuid, w)
    ensures AllFound(after, uuids, rule, text, ns)
  {
  }

  ghost predicate InProgress(rows: seq<ACL>, db: seq<ACL>, job: Job, texts: seq<string>, k: nat, done: set<string>) {
    && Increasing(job.rules) && Staged(rows, job, texts, k, done)
    && Behind(db, rows) && |job.before| <= |db| && Prefixed(db, job, texts)
  }

  lemma {:induction false} InProgressCreated(rows: seq<ACL>, after: seq<ACL>, db: seq<ACL>, job: Job, texts: seq<string>, done: set<string>, w: string)
    requires texts != [] && InProgress(rows, db, job, texts, |texts| - 1, done) && w in job.switches && (|job.switches| <= 1 ==> done == {})
    requires after == rows + [NewACL(job.rules[|texts| - 1], texts[|texts| - 1], job.ns, w)]
    ensures InProgress(after, db, job, texts, |texts| - 1, done + {w})
  {
    CreateStaged(rows, after, job, texts, done, w);
    assert forall i | 0 <= i < |rows| :: after[i] == rows[i];
  }

  lemma {:induction false} InProgressAttached(rows: seq<ACL>, after: seq<ACL>, db: seq<ACL>, job: Job, texts: seq<string>, done: set<string>,
                                              i: nat, w: string)
    requires texts != [] && InProgress(rows, db, job, texts, |texts| - 1, done) && w in job.switches && Attaches(rows, after, i, w)
    requires i < |rows| && Found(rows[i], job.rules[|texts| - 1], texts[|texts| - 1], job.ns)
    ensures InProgress(after, db, job, texts, |texts| - 1, done + {w})
  {
    assert i >= |job.before|;
    AttachStaged(rows, after, job, texts, done, i, w);
  }

  lemma {:induction false} CreatesMore(rows: seq<ACL>, now: seq<ACL>, after: seq<ACL>, rule: Rule, text: string, ns: string,
                                       switches: seq<string>, k: nat)
    requires k < |switches| && Creates(rows, now, rule, text, ns, switches[..k])
    requires after == now + [NewACL(rule, text, ns, switches[k])]
    ensures Creates(rows, after, rule, text, ns, switches[..k + 1])
  {
  }

  lemma {:induction false} ElementsMore(switches: seq<string>, k: nat)
    requires k < |switches|
    ensures Elements(switches[..k + 1]) == Elements(switches[..k]) + {switches[k]}
  {
    assert switches[..k + 1] == switches[..k] + [switches[k]];
  }

  /** No commit failed at these commands. */
  predicate NoFailure(world: World, from: nat, upto: nat) {
    forall n | from <= n < upto :: !world.commits(n).CommitFails?
  }

  class FirewallController {
    /** The ACLs as they will be once the transaction has committed, and as the database shows them. */
    var acls: seq<ACL>
    var db: seq<ACL>
    var commands: nat
    var egressFirewalls: map<string, seq<Rule>>

    constructor ()
      ensures acls == db == [] && commands == 0 && egressFirewalls == map[]
    {
      acls, db, commands, egressFirewalls := [], [], 0, map[];
    }

    /** The object is being compiled: the transaction has the first k rules on every switch, those done one more;
        the database has some first rules on each. */
    ghost predicate Compiling(job: Job, texts: seq<string>, k: nat, done: set<string>)
      reads this`acls, this`db
    {
      InProgress(acls, db, job, texts, k, done)
    }

    /** AddOrCommit, before it adds the command: a long transaction is committed; if that fails, it is given up. */
    method CommitIfLong(world: World, ghost job: Job, ghost texts: seq<string>, ghost k: nat, ghost done: set<string>) returns (ok: bool)
      requires Compiling(job, texts, k, done)
      modifies this`db, this`commands
      ensures Compiling(job, texts, k, done)
      ensures ok == !world.commits(old(commands)).CommitFails? && commands == old(commands) + 1
      ensures db == if world.commits(old(commands)).Committed? then acls else old(db)
    {
      var answer := world.commits(commands);
      commands := commands + 1;
      if answer == Committed {
        StagedIsPrefixed(acls, job, texts, k, done);
        db := acls;
      }
      ok := answer != CommitFails;
    }

    method CreateOn(world: World, rule: Rule, text: string, ns: string, w: string,
                    ghost job: Job, ghost texts: seq<string>, ghost done: set<string>) returns (ok: bool)
      requires texts != [] && Compiling(job, texts, |texts| - 1, done) && w in job.switches && (|job.switches| <= 1 ==> done == {})
      requires rule == job.rules[|texts| - 1] && text == texts[|texts| - 1] && ns == job.ns
      modifies this`acls, this`db, this`commands
      ensures Compiling(job, texts, |texts| - 1, if ok then done + {w} else done)
      ensures acls == if ok then old(acls) + [NewACL(rule, text, ns, w)] else old(acls)
      ensures commands == old(commands) + 1 && (ok <==> NoFailure(world, old(commands), commands))
    {
      ok := CommitIfLong(world, job, texts, |texts| - 1, done);
      if ok {
        ghost var rows := acls;
        acls := acls + [ACL(START_PRIORITY - rule.id, text, Verdict(rule.allow), ns, {w})];
        InProgressCreated(rows, acls, db, job, texts, done, w);
      }
    }

    method AttachOne(world: World, uuid: nat, w: string, ghost job: Job, ghost texts: seq<string>, ghost done: set<string>) returns (ok: bool)
      requires texts != [] && Compiling(job, texts, |texts| - 1, done) && w in job.switches
      requires uuid < |acls| && Found(acls[uuid], job.rules[|texts| - 1], texts[|texts| - 1], job.ns)
      modifies this`acls, this`db, this`commands
      ensures Compiling(job, texts, |texts| - 1, if ok then done + {w} else done)
      ensures |acls| == |old(acls)| && (ok ==> Attaches(old(acls), acls, uuid, w)) && (!ok ==> acls == old(acls))
      ensures commands == old(commands) + 1 && (ok <==> NoFailure(world, old(commands), commands))
    {
      ok := CommitIfLong(world, job, texts, |texts| - 1, done);
      if ok {
        ghost var rows := acls;
        acls := acls[uuid := acls[uuid].(switches := acls[uuid].switches + {w})];
        InProgressAttached(rows, acls, db, job, texts, done, uuid, w);
      }
    }

    /** The inner loop over the found ACLs. */
    method AttachTo(world: World, uuids: set<nat>, w: string, ghost job: Job, ghost texts: seq<string>, ghost done: set<string>)
        returns (ok: bool, ghost some: set<string>)
      requires texts != [] && Compiling(job, texts, |texts| - 1, done) && w in job.switches && uuids != {}
      requires AllFound(acls, uuids, job.rules[|texts| - 1], texts[|texts| - 1], job.ns)
      modifies this`acls, this`db, this`commands
      ensures ok ==> Compiling(job, texts, |texts| - 1, done + {w}) && Reuses(old(acls), acls, uuids, {w})
      ensures !ok ==> Compiling(job, texts, |texts| - 1, some)
      ensures commands >= old(commands) && (ok <==> NoFailure(world, old(commands), commands))
    {
      var todo := uuids;
      some := done;
      while todo != {}
        invariant todo <= uuids && some == (if todo == uuids then done else done + {w})
        invariant Compiling(job, texts, |texts| - 1, some)
        invariant AllFound(acls, uuids, job.rules[|texts| - 1], texts[|texts| - 1], job.ns)
        invariant Reuses(old(acls), acls, uuids - todo, {w})
        invariant commands >= old(commands) && NoFailure(world, old(commands), commands)
      {
        var uuid :| uuid in todo;
        ghost var rows := acls;
        ok := AttachOne(world, uuid, w, job, texts, some);
        if !ok {
          return;
        }
        AttachedFound(rows, acls, uuids, job.rules[|texts| - 1], texts[|texts| - 1], job.ns, uuid, w);
        ReusesOne(old(acls), rows, acls, uuids - todo, uuid, w);
        assert uuids - (todo - {uuid}) == uuids - todo + {uuid};
        todo := todo - {uuid};
        some := done + {w};
      }
      assert uuids - {} == uuids;
      ok := true;
    }

    /** One new ACL on every switch. */
    method CreateAll(world: World, rule: Rule, text: string, ns: string, switches: seq<string>, ghost job: Job, ghost texts: seq<string>)
        returns (ok: bool, ghost done: set<string>)
      requires texts != [] && Compiling(job, texts, |texts| - 1, {}) && switches == job.switches
      requires rule == job.rules[|texts| - 1] && text == texts[|texts| - 1] && ns == job.ns
      modifies this`acls, this`db, this`commands
      ensures Compiling(job, texts, |texts| - 1, done) && (ok ==> done == Elements(switches))
      ensures ok ==> Creates(old(acls), acls, rule, text, ns, switches)
      ensures commands >= old(commands) && (ok <==> NoFailure(world, old(commands), commands))
    {
      ok, done := true, {};
      for k := 0 to |switches|
        invariant ok && done == Elements(switches[..k]) && Compiling(job, texts, |texts| - 1, done)
        invariant Creates(old(acls), acls, rule, text, ns, switches[..k])
        invariant commands >= old(commands) && NoFailure(world, old(commands), commands)
      {
        ghost var now := acls;
        ElementsMore(switches, k);
        ok := CreateOn(world, rule, text, ns, switches[k], job, texts, done);
        if !ok {
          return;
        }
        CreatesMore(old(acls), now, acls, rule, text, ns, switches, k);
        done := done + {switches[k]};
      }
      assert switches[..|switches|] == switches;
    }

    /** The found ACLs are attached to every switch. */
    method ReuseAll(world: World, uuids: set<nat>, switches: seq<string>, ghost job: Job, ghost texts: seq<string>)
        returns (ok: bool, ghost done: set<string>)
      requires texts != [] && Compiling(job, texts, |texts| - 1, {}) && switches == job.switches && uuids != {}
      requires AllFound(acls, uuids, job.rules[|texts| - 1], texts[|texts| - 1], job.ns)
      modifies this`acls, this`db, this`commands
      ensures Compiling(job, texts, |texts| - 1, done) && (ok ==> done == Elements(switches))
      ensures ok ==> Reuses(old(acls), acls, uuids, Elements(switches))
      ensures commands >= old(commands) && (ok <==> NoFailure(world, old(commands), commands))
    {
      ok, done := true, {};
      for k := 0 to |switches|
        invariant ok && done == Elements(switches[..k]) && Compiling(job, texts, |texts| - 1, done)
        invariant Reuses(old(acls), acls, uuids, done)
        invariant commands >= old(commands) && NoFailure(world, old(commands), commands)
      {
        ghost var now := acls;
        ElementsMore(switches, k);
        ghost var some;
        ok, some := AttachTo(world, uuids, switches[k], job, texts, done);
        if !ok {
          done := some;
          return;
        }
        ReusesMore(old(acls), now, acls, uuids, done, switches[k]);
        done := done + {switches[k]};
      }
      assert switches[..|switches|] == switches;
    }

    /** One ACL a switch, unless the database shows equal ones: those are attached to every switch. */
    method CreateEgressFirewallRules(world: World, rule: Rule, text: string, ns: string, switches: seq<string>,
                                     ghost job: Job, ghost texts: seq<string>) returns (ok: bool)
      requires texts != [] && Compiling(job, texts, |texts| - 1, {}) && switches == job.switches
      requires rule == job.rules[|texts| - 1] && text == texts[|texts| - 1] && ns == job.ns
      modifies this`acls, this`db, this`commands
      ensures ok ==> Compiling(job, texts, |texts|, {})
      ensures ok ==> var uuids := FoundACLs(old(db), rule, text, ns);
                     if uuids == {} then Creates(old(acls), acls, rule, text, ns, switches)
                     else Reuses(old(acls), acls, uuids, Elements(switches))
      ensures Prefixed(db, job, texts)
      ensures commands >= old(commands) && (ok <==> NoFailure(world, old(commands), commands))
    {
      var uuids := FoundACLs(db, rule, text, ns);
      ghost var done;
      if uuids == {} {
        ok, done := CreateAll(world, rule, text, ns, switches, job, texts);
      } else {
        ok, done := ReuseAll(world, uuids, switches, job, texts);
      }
      if ok {
        EndRule(acls, job, texts, done);
      }
    }

    /** The switches that carry the ACLs: every node's, or the join switch. */
    function Switches(world: World): (r: Option<seq<string>>)
      ensures r == None <==> world.config.localGateway && world.nodes == None
      ensures r.Some? ==> forall w :: w in r.value <==> if world.config.localGateway then w in world.nodes.value else w == "join"
    {
      if world.config.localGateway then world.nodes else Some(["join"])
    }

    /** Why a rule could not be compiled before its commands were given. */
    function Failure(world: World, rule: Rule): Result {
      if rule.dnsName != "" && world.dns(rule.dnsName).None? then NoDNS
      else if Switches(world).None? then NoNodes
      else NoFind
    }

    /** The rule's DNS name can be added, there are switches, and the database can be searched. */
    predicate CanCompile(world: World, rule: Rule) {
      (rule.dnsName == "" || world.dns(rule.dnsName).Some?) && Switches(world).Some? && world.finds(rule.id)
    }

    /** One rule: its error, or its ACLs in the transaction. */
    method AddRule(world: World, v4: string, v6: string, job: Job, rule: Rule, ghost texts: seq<string>)
        returns (r: Result, ghost more: seq<string>)
      requires Usual(world) && IsWord(v4) && IsWord(v6) && Valid(world, rule)
      requires Compiling(job, texts, |texts|, {}) && TextsMean(world, v4, v6, job.rules, texts)
      requires |texts| < |job.rules| && job.rules[|texts|] == rule
      requires Switches(world).Some? ==> job.switches == Switches(world).value
      modifies this`acls, this`db, this`commands
      ensures TextsMean(world, v4, v6, job.rules, more) && Prefixed(db, job, more)
      ensures r == Done ==> |more| == |texts| + 1 && Switches(world).Some? && Compiling(job, more, |more|, {})
      ensures r == Done || r == NotCommitted || (r == Failure(world, rule) && more == texts)
      ensures commands >= old(commands) && (r == Done <==> CanCompile(world, rule) && NoFailure(world, old(commands), commands))
    {
      more := texts;
      var text := RuleText(world, v4, v6, rule);
      var known := Switches(world);
      if text.None? {
        return NoDNS, texts;
      }
      if known.None? {
        return NoNodes, texts;
      }
      if !world.finds(rule.id) {
        return NoFind, texts;
      }
      more := texts + [text.value];
      BeginRule(acls, job, texts, text.value);
      PrefixedMore(db, job, texts, text.value);
      var ok := CreateEgressFirewallRules(world, rule, text.value, job.ns, known.value, job, more);
      r := if ok then Done else NotCommitted;
    }

    /** Rules in order, up to the first error. */
    method AddEgressFirewallRules(world: World, job: Job, v4: string, v6: string) returns (r: Result, ghost texts: seq<string>)
      requires Usual(world) && IsWord(v4) && IsWord(v6) && Compiling(job, [], 0, {})
      requires forall j | 0 <= j < |job.rules| :: Valid(world, job.rules[j])
      requires Switches(world).Some? ==> job.switches == Switches(world).value
      modifies this`acls, this`db, this`commands
      ensures TextsMean(world, v4, v6, job.rules, texts) && Prefixed(db, job, texts)
      ensures r == Done ==> |texts| == |job.rules| && (texts != [] ==> Switches(world).Some?) && Compiling(job, texts, |texts|, {})
      ensures r == Done || r == NotCommitted || (|texts| < |job.rules| && r == Failure(world, job.rules[|texts|]))
      ensures commands >= old(commands)
      ensures r == Done <==> (forall j | 0 <= j < |job.rules| :: CanCompile(world, job.rules[j])) && NoFailure(world, old(commands), commands)
    {
      texts := [];
      for k := 0 to |job.rules|
        invariant |texts| == k && (k > 0 ==> Switches(world).Some?)
        invariant TextsMean(world, v4, v6, job.rules, texts) && Compiling(job, texts, |texts|, {})
        invariant forall j | 0 <= j < k :: CanCompile(world, job.rules[j])
        invariant commands >= old(commands) && NoFailure(world, old(commands), commands)
      {
        var done;
        done, texts := AddRule(world, v4, v6, job, job.rules[k], texts);
        if done != Done {
          return done, texts;
        }
      }
      r := Done;
    }

    /** All rules of the object can be compiled, and no commit failed since. */
    predicate Compiles(world: World, firewalls: map<string, seq<Rule>>, ns: string, since: nat)
      reads this`commands
    {
      && ns in firewalls && (forall j | 0 <= j < |firewalls[ns]| :: CanCompile(world, firewalls[ns][j]))
      && NoFailure(world, since, commands)
    }

    /** The object and the ACLs beside it. */
    ghost predicate Fresh(ns: string)
      reads this`acls, this`db
    {
      acls == db && forall i | 0 <= i < |acls| :: acls[i].namespace != ns
    }

    /** A namespace without ACLs: success means that the transaction will enforce its object on every switch;
        whatever fails, the database already enforces first rules of it in order. */
    method AddEgressFirewall(world: World, ns: string, v4: string, v6: string, specs: seq<Spec>, addressSet: bool) returns (r: Result)
      requires Usual(world) && IsWord(v4) && IsWord(v6) && Fresh(ns)
      modifies this
      ensures r == AlreadyThere <==> ns in old(egressFirewalls)
      ensures r == AlreadyThere ==> egressFirewalls == old(egressFirewalls)
      ensures r == NoAddressSet <==> ns !in old(egressFirewalls) && !addressSet
      ensures commands >= old(commands)
      ensures r == Done <==> ns !in old(egressFirewalls) && addressSet && Compiles(world, egressFirewalls, ns, old(commands))
      ensures r == AlreadyThere || r == NoAddressSet ==> acls == db == old(db)
      ensures r != AlreadyThere ==>
                egressFirewalls.Keys == old(egressFirewalls).Keys + {ns}
                && Numbered(world, Considered(specs), egressFirewalls[ns])
                && egressFirewalls - {ns} == old(egressFirewalls)
      ensures r == Done && Switches(world).None? ==> egressFirewalls[ns] == []
      ensures r == Done ==> Grown(old(db), acls, if Switches(world).Some? then |Switches(world).value| else 0)
      ensures Grown(old(db), db, if Switches(world).Some? then |Switches(world).value| else 0)
      ensures r == Done && Switches(world).Some? ==>
                forall w <- Switches(world).value :: EnforcesAll(world, acls, ns, v4, v6, Considered(specs), w)
      ensures Switches(world).Some? ==>
                forall w <- Switches(world).value :: EnforcesFirst(world, db, ns, v4, v6, Considered(specs), w)
    {
      forall w: string
        ensures EnforcesFirst(world, db, ns, v4, v6, Considered(specs), w)
      {
        NothingEnforced(world, db, ns, v4, v6, Considered(specs), w);
      }
      if ns in egressFirewalls {
        return AlreadyThere;
      }
      var rules := NumberRules(world, specs);
      egressFirewalls := egressFirewalls[ns := rules];
      if !addressSet {
        return NoAddressSet;
      }
      var known := Switches(world);
      var job := Job(ns, if known.Some? then known.value else [], rules, db);
      NothingStaged(job);
      StagedIsPrefixed(acls, job, [], 0, {});
      ghost var texts;
      r, texts := AddEgressFirewallRules(world, job, v4, v6);
      ExtendsGrown(db, job, texts);
      SwitchesEnforceFirst(world, db, job, v4, v6, Considered(specs), texts);
      if r == Done {
        ExtendsGrown(acls, job, texts);
        SwitchesEnforce(world, acls, job, v4, v6, Considered(specs), texts);
      }
    }

    /** The handler of a new object: it commits the transaction at the end, and drops it after an error. */
    method HandleAdd(world: World, ns: string, v4: string, v6: string, specs: seq<Spec>, addressSet: bool, commits: bool)
        returns (applied: bool)
      requires Usual(world) && IsWord(v4) && IsWord(v6) && Fresh(ns)
      modifies this
      ensures acls == db && Grown(old(db), db, if Switches(world).Some? then |Switches(world).value| else 0)
      ensures Switches(world).Some? ==> forall w <- Switches(world).value ::
                if applied then EnforcesAll(world, db, ns, v4, v6, Considered(specs), w)
                else EnforcesFirst(world, db, ns, v4, v6, Considered(specs), w)
      ensures applied <==> ns !in old(egressFirewalls) && addressSet && Compiles(world, egressFirewalls, ns, old(commands)) && commits
      ensures ns !in old(egressFirewalls) ==> ns in egressFirewalls && Numbered(world, Considered(specs), egressFirewalls[ns])
    {
      var r := AddEgressFirewall(world, ns, v4, v6, specs, addressSet);
      applied := r == Done && commits;
      if applied {
        db := acls;
      } else {
        acls := db;
      }
    }
  }

  /** New ACLs follow the old ones, in the range of priorities; equal priorities mean one text and one action,
      and on a single switch priorities fall strictly. */
  ghost predicate Grown(before: seq<ACL>, after: seq<ACL>, switches: nat) {
    && |before| <= |after| && after[..|before|] == before
    && PrioritiesInRange(after, |before|) && Agreeing(after, |before|) && Descending(after, |before|, switches <= 1)
  }

  lemma {:induction false} ExtendsGrown(rows: seq<ACL>, job: Job, texts: seq<string>)
    requires Extends(rows, job, texts) && Increasing(job.rules)
    ensures Grown(job.before, rows, |job.switches|)
  {
    ExtendsInRange(rows, job, texts);
    ExtendsAgrees(rows, job, texts);
    assert rows[..|job.before|] == job.before;
  }
}
