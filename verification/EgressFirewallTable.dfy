/** The ACLs of one firewall object while its rules are compiled, command by command, and what they enforce. */
module EgressFirewallTable {
  import opened Wrappers
  import opened Cidr
  import opened OvnExpr
  import opened EgressFirewallMatch
  import opened EgressFirewall

  /** One compilation: the namespace, the switches, the rules, and the ACLs there were before. */
  datatype Job = Job(ns: string, switches: seq<string>, rules: seq<Rule>, before: seq<ACL>)

  predicate Priority(row: ACL, rule: Rule) {
    row.priority + rule.id == START_PRIORITY
  }

  /** What "find" looks for: an ACL of the namespace with this match and action. */
  predicate Found(row: ACL, rule: Rule, text: string, ns: string) {
    row.text == text && row.action == Verdict(rule.allow) && row.namespace == ns
  }

  predicate RowOf(row: ACL, job: Job, rule: Rule, text: string) {
    && Found(row, rule, text, job.ns) && Priority(row, rule)
    && row.switches != {} && forall w <- row.switches :: w in job.switches
  }

  /** The ACL was made for one of the first n rules. */
  ghost predicate FromRule(row: ACL, job: Job, texts: seq<string>, n: nat) {
    exists j | 0 <= j < n && j < |job.rules| && j < |texts| :: RowOf(row, job, job.rules[j], texts[j])
  }

  predicate RowServes(row: ACL, ns: string, w: string, rule: Rule, text: string) {
    Found(row, rule, text, ns) && w in row.switches && row.priority + rule.id >= START_PRIORITY
  }

  /** Some ACL on the switch does what the rule says, at its priority or a higher one. */
  ghost predicate Served(rows: seq<ACL>, job: Job, w: string, rule: Rule, text: string) {
    exists i | |job.before| <= i < |rows| :: RowServes(rows[i], job.ns, w, rule, text)
  }

  /** The switch carries ACLs for the first n rules and for no others. */
  ghost predicate OnSwitch(rows: seq<ACL>, job: Job, texts: seq<string>, w: string, n: nat) {
    && n <= |texts| <= |job.rules|
    && (forall i {:trigger FromRule(rows[i], job, texts, n)} | |job.before| <= i < |rows| && w in rows[i].switches ::
          FromRule(rows[i], job, texts, n))
    && (forall j {:trigger Served(rows, job, w, job.rules[j], texts[j])} | 0 <= j < n ::
          Served(rows, job, w, job.rules[j], texts[j]))
  }

  /** Later ACLs have lower priorities; with a single switch, no two are equal. */
  predicate Descending(rows: seq<ACL>, base: nat, single: bool) {
    forall i, k | base <= i < k < |rows| ::
      rows[k].priority < rows[i].priority || (!single && rows[k].priority == rows[i].priority)
  }

  /** ACLs of one priority are all for one rule. */
  predicate Agreeing(rows: seq<ACL>, base: nat) {
    forall i, k | base <= i < |rows| && base <= k < |rows| && rows[i].priority == rows[k].priority ::
      rows[i].text == rows[k].text && rows[i].action == rows[k].action && rows[i].namespace == rows[k].namespace
  }

  predicate PrioritiesInRange(rows: seq<ACL>, base: nat) {
    forall i | base <= i < |rows| :: MINIMUM_RESERVED_PRIORITY <= rows[i].priority <= START_PRIORITY
  }

  ghost predicate Foreign(rows: seq<ACL>, job: Job) {
    && |job.before| <= |rows|
    && forall i | 0 <= i < |job.before| :: rows[i] == job.before[i] && rows[i].namespace != job.ns
  }

  ghost predicate AllFrom(rows: seq<ACL>, job: Job, texts: seq<string>) {
    forall i {:trigger FromRule(rows[i], job, texts, |texts|)} | |job.before| <= i < |rows| ::
      FromRule(rows[i], job, texts, |texts|)
  }

  /** The ACLs that were there are the same and of other namespaces; the others are the object's. */
  ghost predicate Extends(rows: seq<ACL>, job: Job, texts: seq<string>) {
    Foreign(rows, job) && AllFrom(rows, job, texts) && Descending(rows, |job.before|, |job.switches| <= 1)
  }

  /** Every switch carries the first k rules, those already done one more. */
  ghost predicate Staged(rows: seq<ACL>, job: Job, texts: seq<string>, k: nat, done: set<string>) {
    && Extends(rows, job, texts) && k <= |texts| <= k + 1 && |texts| <= |job.rules| && (done != {} ==> |texts| == k + 1)
    && forall w <- job.switches :: OnSwitch(rows, job, texts, w, if w in done then k + 1 else k)
  }

  ghost predicate SomeRules(rows: seq<ACL>, job: Job, texts: seq<string>, w: string) {
    exists n: nat :: OnSwitch(rows, job, texts, w, n)
  }

  /** Every switch carries some first rules. */
  ghost predicate Prefixed(rows: seq<ACL>, job: Job, texts: seq<string>) {
    Extends(rows, job, texts) && forall w <- job.switches :: SomeRules(rows, job, texts, w)
  }

  function NewACL(rule: Rule, text: string, ns: string, w: string): ACL
    requires rule.id <= START_PRIORITY
  {
    ACL(START_PRIORITY - rule.id, text, Verdict(rule.allow), ns, {w})
  }

  function Attached(row: ACL, w: string): ACL {
    row.(switches := row.switches + {w})
  }

  // ----- One command after the other

  lemma {:induction false} NothingStaged(job: Job)
    requires forall i | 0 <= i < |job.before| :: job.before[i].namespace != job.ns
    ensures Staged(job.before, job, [], 0, {})
  {
  }

  lemma {:induction false} FromMore(row: ACL, job: Job, texts: seq<string>, text: string, n: nat)
    requires n <= |texts| && FromRule(row, job, texts, n)
    ensures FromRule(row, job, texts + [text], n) && FromRule(row, job, texts + [text], n + 1)
  {
    var j :| 0 <= j < n && j < |job.rules| && j < |texts| && RowOf(row, job, job.rules[j], texts[j]);
    assert (texts + [text])[j] == texts[j];
  }

  lemma {:induction false} SwitchMore(rows: seq<ACL>, job: Job, texts: seq<string>, text: string, w: string, n: nat)
    requires OnSwitch(rows, job, texts, w, n) && |texts| < |job.rules|
    ensures OnSwitch(rows, job, texts + [text], w, n)
  {
    forall i | |job.before| <= i < |rows| && w in rows[i].switches
      ensures FromRule(rows[i], job, texts + [text], n)
    {
      FromMore(rows[i], job, texts, text, n);
    }
  }

  lemma {:induction false} ExtendsMore(rows: seq<ACL>, job: Job, texts: seq<string>, text: string)
    requires Extends(rows, job, texts)
    ensures Extends(rows, job, texts + [text])
  {
    forall i | |job.before| <= i < |rows|
      ensures FromRule(rows[i], job, texts + [text], |texts + [text]|)
    {
      FromMore(rows[i], job, texts, text, |texts|);
    }
  }

  /** The next rule's text is known, nothing is done for it yet. */
  lemma {:induction false} BeginRule(rows: seq<ACL>, job: Job, texts: seq<string>, text: string)
    requires Staged(rows, job, texts, |texts|, {}) && |texts| < |job.rules|
    ensures Staged(rows, job, texts + [text], |texts|, {})
  {
    ExtendsMore(rows, job, texts, text);
    forall w | w in job.switches
      ensures OnSwitch(rows, job, texts + [text], w, |texts|)
    {
      SwitchMore(rows, job, texts, text, w, |texts|);
    }
  }

  lemma {:induction false} EndRule(rows: seq<ACL>, job: Job, texts: seq<string>, done: set<string>)
    requires texts != [] && Staged(rows, job, texts, |texts| - 1, done) && forall w <- job.switches :: w in done
    ensures Staged(rows, job, texts, |texts|, {})
  {
  }

  lemma {:induction false} StagedIsPrefixed(rows: seq<ACL>, job: Job, texts: seq<string>, k: nat, done: set<string>)
    requires Staged(rows, job, texts, k, done)
    ensures Prefixed(rows, job, texts)
  {
    forall w | w in job.switches
      ensures SomeRules(rows, job, texts, w)
    {
      assert OnSwitch(rows, job, texts, w, if w in done then k + 1 else k);
    }
  }

  lemma {:induction false} PrefixedMore(rows: seq<ACL>, job: Job, texts: seq<string>, text: string)
    requires Prefixed(rows, job, texts) && |texts| < |job.rules|
    ensures Prefixed(rows, job, texts + [text])
  {
    ExtendsMore(rows, job, texts, text);
    forall w | w in job.switches
      ensures SomeRules(rows, job, texts + [text], w)
    {
      assert SomeRules(rows, job, texts, w);
      var n: nat :| OnSwitch(rows, job, texts, w, n);
      SwitchMore(rows, job, texts, text, w, n);
    }
  }

  /** Every ACL so far is for a rule up to this one. */
  lemma {:induction false} EarlierIsHigher(row: ACL, job: Job, texts: seq<string>, n: nat)
    requires 0 < n <= |job.rules| && Increasing(job.rules) && FromRule(row, job, texts, n)
    ensures row.priority + job.rules[n - 1].id >= START_PRIORITY
    ensures !FromRule(row, job, texts, n - 1) ==>
              n <= |texts| && RowOf(row, job, job.rules[n - 1], texts[n - 1])
  {
  }

  lemma {:induction false} FromFirst(row: ACL, job: Job, texts: seq<string>, n: nat)
    requires 0 < n <= |job.rules| && Increasing(job.rules) && FromRule(row, job, texts, n - 1)
    ensures row.priority + job.rules[n - 1].id > START_PRIORITY && FromRule(row, job, texts, n)
  {
  }

  /** ACLs may only be appended or attached to more switches. */
  ghost predicate Grows(rows: seq<ACL>, after: seq<ACL>) {
    |rows| <= |after| && forall i | 0 <= i < |rows| ::
      after[i] == rows[i].(switches := after[i].switches) && rows[i].switches <= after[i].switches
  }

  lemma {:induction false} ServedKept(rows: seq<ACL>, after: seq<ACL>, job: Job, w: string, rule: Rule, text: string)
    requires Served(rows, job, w, rule, text) && Grows(rows, after)
    ensures Served(after, job, w, rule, text)
  {
    var i :| |job.before| <= i < |rows| && RowServes(rows[i], job.ns, w, rule, text);
    assert RowServes(after[i], job.ns, w, rule, text);
  }

  /** A switch that the command is not about keeps what it has. */
  lemma {:induction false} OtherSwitch(rows: seq<ACL>, after: seq<ACL>, job: Job, texts: seq<string>, w: string, n: nat)
    requires OnSwitch(rows, job, texts, w, n) && Grows(rows, after)
    requires forall i | |job.before| <= i < |after| && w in after[i].switches :: i < |rows| && w in rows[i].switches
    requires forall i | |job.before| <= i < |rows| && w in rows[i].switches :: FromRule(after[i], job, texts, n)
    ensures OnSwitch(after, job, texts, w, n)
  {
    forall j | 0 <= j < n
      ensures Served(after, job, w, job.rules[j], texts[j])
    {
      ServedKept(rows, after, job, w, job.rules[j], texts[j]);
    }
  }

  /** The command's switch now carries the rule, too. */
  lemma {:induction false} ThisSwitch(rows: seq<ACL>, after: seq<ACL>, job: Job, texts: seq<string>, w: string, n: nat, i: nat)
    requires OnSwitch(rows, job, texts, w, n) && Grows(rows, after) && |texts| - 1 <= n && texts != []
    requires forall k | |job.before| <= k < |after| :: FromRule(after[k], job, texts, |texts|)
    requires |job.before| <= i < |after| && |texts| <= |job.rules| && RowServes(after[i], job.ns, w, job.rules[|texts| - 1], texts[|texts| - 1])
    ensures OnSwitch(after, job, texts, w, |texts|)
  {
    forall j | 0 <= j < |texts|
      ensures Served(after, job, w, job.rules[j], texts[j])
    {
      if j < |texts| - 1 {
        ServedKept(rows, after, job, w, job.rules[j], texts[j]);
      }
    }
  }

  /** With a single switch, an ACL made before the rule's has a higher priority. */
  lemma {:induction false} SingleIsHigher(rows: seq<ACL>, job: Job, texts: seq<string>, i: nat)
    requires texts != [] && Increasing(job.rules) && Staged(rows, job, texts, |texts| - 1, {})
    requires |job.before| <= i < |rows| && |job.switches| <= 1
    ensures rows[i].priority + job.rules[|texts| - 1].id > START_PRIORITY
  {
    assert FromRule(rows[i], job, texts, |texts|);
    var j :| 0 <= j < |texts| && RowOf(rows[i], job, job.rules[j], texts[j]);
    var v :| v in rows[i].switches;
    assert v in job.switches && OnSwitch(rows, job, texts, v, |texts| - 1);
    FromFirst(rows[i], job, texts, |texts|);
  }

  lemma {:induction false} NewRanksLast(rows: seq<ACL>, job: Job, texts: seq<string>, done: set<string>, i: nat)
    requires texts != [] && Increasing(job.rules) && Staged(rows, job, texts, |texts| - 1, done)
    requires (|job.switches| <= 1 ==> done == {}) && |job.before| <= i < |rows|
    ensures var priority := START_PRIORITY - job.rules[|texts| - 1].id;
            priority < rows[i].priority || (|job.switches| > 1 && priority == rows[i].priority)
  {
    assert FromRule(rows[i], job, texts, |texts|);
    EarlierIsHigher(rows[i], job, texts, |texts|);
    if |job.switches| <= 1 {
      SingleIsHigher(rows, job, texts, i);
    }
  }

  /** One more ACL. */
  predicate Appends(rows: seq<ACL>, after: seq<ACL>, row: ACL) {
    |after| == |rows| + 1 && after[|rows|] == row && forall k | 0 <= k < |rows| :: after[k] == rows[k]
  }

  lemma {:induction false} CreatedDescends(rows: seq<ACL>, after: seq<ACL>, job: Job, texts: seq<string>, done: set<string>, w: string)
    requires texts != [] && Increasing(job.rules) && Staged(rows, job, texts, |texts| - 1, done)
    requires |job.switches| <= 1 ==> done == {}
    requires Appends(rows, after, NewACL(job.rules[|texts| - 1], texts[|texts| - 1], job.ns, w))
    ensures Descending(after, |job.before|, |job.switches| <= 1)
  {
    forall i | |job.before| <= i < |rows|
      ensures after[|rows|].priority < rows[i].priority || (|job.switches| > 1 && after[|rows|].priority == rows[i].priority)
    {
      NewRanksLast(rows, job, texts, done, i);
    }
  }

  lemma {:induction false} CreatedFrom(rows: seq<ACL>, after: seq<ACL>, job: Job, texts: seq<string>, w: string)
    requires texts != [] && |texts| <= |job.rules| && Increasing(job.rules) && AllFrom(rows, job, texts) && w in job.switches
    requires Appends(rows, after, NewACL(job.rules[|texts| - 1], texts[|texts| - 1], job.ns, w))
    ensures AllFrom(after, job, texts)
  {
    assert RowOf(after[|rows|], job, job.rules[|texts| - 1], texts[|texts| - 1]);
  }

  lemma {:induction false} CreatedOnSwitch(rows: seq<ACL>, after: seq<ACL>, job: Job, texts: seq<string>, v: string, n: nat, w: string)
    requires texts != [] && Increasing(job.rules) && OnSwitch(rows, job, texts, v, n) && |texts| - 1 <= n
    requires Appends(rows, after, NewACL(job.rules[|texts| - 1], texts[|texts| - 1], job.ns, w))
    requires |job.before| <= |rows| && AllFrom(after, job, texts)
    ensures OnSwitch(after, job, texts, v, if v == w then |texts| else n)
  {
    assert Grows(rows, after);
    if v == w {
      assert RowServes(after[|rows|], job.ns, w, job.rules[|texts| - 1], texts[|texts| - 1]);
      ThisSwitch(rows, after, job, texts, w, n, |rows|);
    } else {
      OtherSwitch(rows, after, job, texts, v, n);
    }
  }

  /** A new ACL for the rule on one switch. */
  lemma {:induction false} CreateStaged(rows: seq<ACL>, after: seq<ACL>, job: Job, texts: seq<string>, done: set<string>, w: string)
    requires texts != [] && Increasing(job.rules) && Staged(rows, job, texts, |texts| - 1, done) && w in job.switches
    requires |job.switches| <= 1 ==> done == {}
    requires Appends(rows, after, NewACL(job.rules[|texts| - 1], texts[|texts| - 1], job.ns, w))
    ensures Staged(after, job, texts, |texts| - 1, done + {w})
  {
    var n := |texts|;
    CreatedDescends(rows, after, job, texts, done, w);
    CreatedFrom(rows, after, job, texts, w);
    forall v | v in job.switches
      ensures OnSwitch(after, job, texts, v, if v in done + {w} then n else n - 1)
    {
      CreatedOnSwitch(rows, after, job, texts, v, if v in done then n else n - 1, w);
    }
  }

  lemma {:induction false} FromAttached(row: ACL, job: Job, texts: seq<string>, n: nat, w: string)
    requires FromRule(row, job, texts, n) && w in job.switches
    ensures FromRule(Attached(row, w), job, texts, n)
  {
    var j :| 0 <= j < n && j < |job.rules| && j < |texts| && RowOf(row, job, job.rules[j], texts[j]);
    assert RowOf(Attached(row, w), job, job.rules[j], texts[j]);
  }

  /** One ACL is attached to one more switch. */
  predicate Attaches(rows: seq<ACL>, after: seq<ACL>, i: nat, w: string) {
    |after| == |rows| && forall k | 0 <= k < |rows| :: after[k] == if k == i then Attached(rows[k], w) else rows[k]
  }

  lemma {:induction false} AttachedFrom(rows: seq<ACL>, after: seq<ACL>, job: Job, texts: seq<string>, i: nat, w: string)
    requires AllFrom(rows, job, texts) && |job.before| <= i && w in job.switches && Attaches(rows, after, i, w)
    ensures AllFrom(after, job, texts)
  {
    forall k | |job.before| <= k < |after|
      ensures FromRule(after[k], job, texts, |texts|)
    {
      FromAttached(rows[k], job, texts, |texts|, w);
    }
  }

  lemma {:induction false} AttachOther(rows: seq<ACL>, after: seq<ACL>, job: Job, texts: seq<string>, v: string, n: nat, i: nat, w: string)
    requires OnSwitch(rows, job, texts, v, n) && w in job.switches && v != w && Attaches(rows, after, i, w)
    ensures OnSwitch(after, job, texts, v, n)
  {
    forall k | |job.before| <= k < |rows| && v in rows[k].switches
      ensures FromRule(after[k], job, texts, n)
    {
      FromAttached(rows[k], job, texts, n, w);
    }
    OtherSwitch(rows, after, job, texts, v, n);
  }

  lemma {:induction false} AttachThis(rows: seq<ACL>, after: seq<ACL>, job: Job, texts: seq<string>, n: nat, i: nat, w: string)
    requires texts != [] && Increasing(job.rules) && OnSwitch(rows, job, texts, w, n) && |texts| - 1 <= n
    requires |job.before| <= i < |rows| && FromRule(rows[i], job, texts, |texts|)
    requires Found(rows[i], job.rules[|texts| - 1], texts[|texts| - 1], job.ns)
    requires Attaches(rows, after, i, w) && AllFrom(after, job, texts)
    ensures OnSwitch(after, job, texts, w, |texts|)
  {
    EarlierIsHigher(rows[i], job, texts, |texts|);
    assert RowServes(after[i], job.ns, w, job.rules[|texts| - 1], texts[|texts| - 1]);
    ThisSwitch(rows, after, job, texts, w, n, i);
  }

  /** An equal ACL, made for an earlier rule or for this one on another switch, is attached to one switch. */
  lemma {:induction false} AttachStaged(rows: seq<ACL>, after: seq<ACL>, job: Job, texts: seq<string>, done: set<string>, i: nat, w: string)
    requires texts != [] && Increasing(job.rules) && Staged(rows, job, texts, |texts| - 1, done) && w in job.switches
    requires |job.before| <= i < |rows| && Found(rows[i], job.rules[|texts| - 1], texts[|texts| - 1], job.ns)
    requires Attaches(rows, after, i, w)
    ensures Staged(after, job, texts, |texts| - 1, done + {w})
  {
    var n := |texts|;
    AttachedFrom(rows, after, job, texts, i, w);
    assert Foreign(after, job) && Descending(after, |job.before|, |job.switches| <= 1);
    forall v | v in job.switches
      ensures OnSwitch(after, job, texts, v, if v in done + {w} then n else n - 1)
    {
      var m := if v in done then n else n - 1;
      if v == w {
        AttachThis(rows, after, job, texts, m, i, w);
      } else {
        AttachOther(rows, after, job, texts, v, m, i, w);
      }
    }
  }

  // ----- What is known of the ACLs together

  lemma {:induction false} ExtendsInRange(rows: seq<ACL>, job: Job, texts: seq<string>)
    requires Extends(rows, job, texts) && Increasing(job.rules)
    ensures PrioritiesInRange(rows, |job.before|)
  {
    forall i | |job.before| <= i < |rows|
      ensures MINIMUM_RESERVED_PRIORITY <= rows[i].priority <= START_PRIORITY
    {
      assert FromRule(rows[i], job, texts, |texts|);
    }
  }

  /** Wherever compilation stops, ACLs of equal priority carry one text and one action. */
  lemma {:induction false} ExtendsAgrees(rows: seq<ACL>, job: Job, texts: seq<string>)
    requires Extends(rows, job, texts) && Increasing(job.rules)
    ensures Agreeing(rows, |job.before|)
  {
    forall i, k | |job.before| <= i < |rows| && |job.before| <= k < |rows| && rows[i].priority == rows[k].priority
      ensures rows[i].text == rows[k].text && rows[i].action == rows[k].action && rows[i].namespace == rows[k].namespace
    {
      assert FromRule(rows[i], job, texts, |texts|) && FromRule(rows[k], job, texts, |texts|);
      var j :| 0 <= j < |texts| && j < |job.rules| && RowOf(rows[i], job, job.rules[j], texts[j]);
      var l :| 0 <= l < |texts| && l < |job.rules| && RowOf(rows[k], job, job.rules[l], texts[l]);
      assert job.rules[j].id == job.rules[l].id;
      assert j == l;
    }
  }

  // ----- What the ACLs of a switch enforce

  /** What is known of the texts of the compiled rules. */
  ghost predicate TextsMean(world: World, v4: string, v6: string, rules: seq<Rule>, texts: seq<string>) {
    |texts| <= |rules| && forall j | 0 <= j < |texts| :: TextMeans(texts[j], world, v4, v6, rules[j])
  }

  /** The switch carries the first n rules, whose texts mean what they should. */
  ghost predicate Carries(rows: seq<ACL>, job: Job, world: World, v4: string, v6: string, texts: seq<string>, w: string, n: nat) {
    && Increasing(job.rules) && Extends(rows, job, texts) && OnSwitch(rows, job, texts, w, n)
    && TextsMean(world, v4, v6, job.rules, texts)
  }

  /** An ACL of the namespace that applies comes from a rule that applies and that OVN can read. */
  lemma {:induction false} AppliesMeansHits(env: Env, world: World, rows: seq<ACL>, job: Job, v4: string, v6: string, texts: seq<string>,
                         w: string, n: nat, i: nat, p: Packet)
    requires Reads(env, world) && Carries(rows, job, world, v4, v6, texts, w, n)
    requires i < |rows| && Applies(env, rows[i], job.ns, w, p)
    ensures InScope(env, world, v4, v6, p) && Matchable(world.config, p.dst.v6)
    ensures exists j | 0 <= j < n :: RowOf(rows[i], job, job.rules[j], texts[j]) && RuleHits(env, AsRead(world), job.rules[j], p)
  {
    assert FromRule(rows[i], job, texts, n);
    var j :| 0 <= j < n && j < |job.rules| && j < |texts| && RowOf(rows[i], job, job.rules[j], texts[j]);
    assert TextMeans(texts[j], world, v4, v6, job.rules[j]);
    RuleHitsAsRead(env, world, job.rules[j], p);
  }

  lemma {:induction false} LaterRanksLower(row: ACL, job: Job, texts: seq<string>, f: nat, j: nat)
    requires Increasing(job.rules) && f <= j < |job.rules| && j < |texts| && RowOf(row, job, job.rules[j], texts[j])
    ensures row.priority + job.rules[f].id <= START_PRIORITY
    ensures row.priority + job.rules[f].id == START_PRIORITY ==> row.action == Verdict(job.rules[f].allow)
  {
    assert j > f ==> job.rules[f].id < job.rules[j].id;
  }

  /** No ACL that applies outranks the one serving the first rule that applies. */
  lemma {:induction false} NoneOutranks(env: Env, world: World, rows: seq<ACL>, job: Job, v4: string, v6: string, texts: seq<string>,
                     w: string, n: nat, f: nat, p: Packet, k: nat)
    requires Reads(env, world) && Carries(rows, job, world, v4, v6, texts, w, n)
    requires FirstRule(env, AsRead(world), job.rules[..n], f, p) && k < |rows| && Applies(env, rows[k], job.ns, w, p)
    ensures rows[k].priority + job.rules[f].id <= START_PRIORITY
    ensures rows[k].priority + job.rules[f].id == START_PRIORITY ==> rows[k].action == Verdict(job.rules[f].allow)
  {
    AppliesMeansHits(env, world, rows, job, v4, v6, texts, w, n, k, p);
    var j :| 0 <= j < n && RowOf(rows[k], job, job.rules[j], texts[j]) && RuleHits(env, AsRead(world), job.rules[j], p);
    assert job.rules[..n][j] == job.rules[j];
    LaterRanksLower(rows[k], job, texts, f, j);
  }

  lemma {:induction false} FirstRuleDecides(env: Env, world: World, rows: seq<ACL>, job: Job, v4: string, v6: string, texts: seq<string>,
                         w: string, n: nat, f: nat, p: Packet)
    requires Reads(env, world) && Carries(rows, job, world, v4, v6, texts, w, n)
    requires InScope(env, world, v4, v6, p) && Matchable(world.config, p.dst.v6)
    requires FirstRule(env, AsRead(world), job.rules[..n], f, p)
    ensures Decides(env, rows, job.ns, w, p, Verdict(job.rules[f].allow))
  {
    var rule := job.rules[f];
    assert job.rules[..n][f] == rule && Served(rows, job, w, rule, texts[f]);
    var i :| |job.before| <= i < |rows| && RowServes(rows[i], job.ns, w, rule, texts[f]);
    assert TextMeans(texts[f], world, v4, v6, rule);
    RuleHitsAsRead(env, world, rule, p);
    assert Applies(env, rows[i], job.ns, w, p);
    NoneOutranks(env, world, rows, job, v4, v6, texts, w, n, f, p, i);
    forall k | 0 <= k < |rows| && Applies(env, rows[k], job.ns, w, p)
      ensures rows[k].priority < rows[i].priority
           || (rows[k].priority == rows[i].priority && rows[k].action == Verdict(rule.allow))
    {
      NoneOutranks(env, world, rows, job, v4, v6, texts, w, n, f, p, k);
    }
  }

  lemma {:induction false} NoRuleLeavesUntouched(env: Env, world: World, rows: seq<ACL>, job: Job, v4: string, v6: string,
                              texts: seq<string>, w: string, n: nat, p: Packet)
    requires Reads(env, world) && Carries(rows, job, world, v4, v6, texts, w, n)
    requires !InScope(env, world, v4, v6, p) || !Matchable(world.config, p.dst.v6)
          || forall j | 0 <= j < n :: !RuleHits(env, AsRead(world), job.rules[j], p)
    ensures Untouched(env, rows, job.ns, w, p)
  {
    forall k | 0 <= k < |rows|
      ensures !Applies(env, rows[k], job.ns, w, p)
    {
      if Applies(env, rows[k], job.ns, w, p) {
        AppliesMeansHits(env, world, rows, job, v4, v6, texts, w, n, k, p);
        assert false;
      }
    }
  }

  /** The verdict on one packet is the object's. */
  ghost predicate Enforces(env: Env, world: World, rows: seq<ACL>, ns: string, v4: string, v6: string,
                           specs: seq<Spec>, w: string, p: Packet)
  {
    match FirstMatch(env, world, specs, p)
    case Some(a) =>
      if InScope(env, world, v4, v6, p) then Decides(env, rows, ns, w, p, a) else Untouched(env, rows, ns, w, p)
    case None => Untouched(env, rows, ns, w, p)
  }

  /** For an address family that matches can apply to, evaluating the ACLs by priority is evaluating, in the order
      they are written, those rules of the object that OVN can read. */
  lemma {:induction false} FirstMatchSurvives(env: Env, world: World, rows: seq<ACL>, job: Job, v4: string, v6: string,
                           specs: seq<Spec>, texts: seq<string>, w: string, n: nat, p: Packet)
    requires Reads(env, world) && Carries(rows, job, world, v4, v6, texts, w, n)
    requires Numbered(world, specs, job.rules[..n]) && Matchable(world.config, p.dst.v6)
    ensures Enforces(env, AsRead(world), rows, job.ns, v4, v6, specs, w, p)
  {
    RulesKeepVerdict(env, world, AsRead(world), specs, job.rules[..n], p);
    var verdict := FirstMatch(env, AsRead(world), specs, p);
    if verdict.None? || !InScope(env, world, v4, v6, p) {
      assert forall j | 0 <= j < n :: job.rules[..n][j] == job.rules[j];
      NoRuleLeavesUntouched(env, world, rows, job, v4, v6, texts, w, n, p);
    } else {
      var f :| 0 <= f < |job.rules[..n]| && FirstRule(env, AsRead(world), job.rules[..n], f, p)
        && Verdict(job.rules[..n][f].allow) == verdict.value;
      FirstRuleDecides(env, world, rows, job, v4, v6, texts, w, n, f, p);
    }
  }

  /** The object has something to say about the packet. */
  predicate Concerns(env: Env, world: World, v4: string, v6: string, specs: seq<Spec>, p: Packet) {
    InScope(env, world, v4, v6, p) && FirstMatch(env, world, specs, p).Some?
  }

  /** The first rule that applies, and the first that applies and that OVN can read, have the same verdict. */
  predicate SameVerdict(env: Env, world: World, specs: seq<Spec>, p: Packet) {
    FirstMatch(env, AsRead(world), specs, p) == FirstMatch(env, world, specs, p)
  }

  lemma {:induction false} NoMatchAsRead(env: Env, world: World, specs: seq<Spec>, p: Packet)
    ensures FirstMatch(env, world, specs, p).None? ==> FirstMatch(env, AsRead(world), specs, p).None?
    ensures (forall i | 0 <= i < |specs| :: SpecLegible(world, specs[i])) ==> SameVerdict(env, world, specs, p)
  {
    if specs != [] {
      HitsAsRead(env, world, specs[0], p);
      NoMatchAsRead(env, world, specs[1..], p);
    }
  }

  /** A table has at most one verdict on a packet. */
  lemma {:induction false} OneVerdict(env: Env, rows: seq<ACL>, ns: string, w: string, p: Packet, a: Action, b: Action)
    requires Decides(env, rows, ns, w, p, a)
    ensures !Untouched(env, rows, ns, w, p) && (Decides(env, rows, ns, w, p, b) ==> a == b)
  {
  }

  /** The object is enforced on a packet if and only if it does not concern it, or matches can apply to its family
      and the first rule that applies has the verdict of the first one that OVN can read. */
  lemma {:induction false} FirstMatchSurvivesIff(env: Env, world: World, rows: seq<ACL>, job: Job, v4: string, v6: string,
                           specs: seq<Spec>, texts: seq<string>, w: string, n: nat, p: Packet)
    requires Reads(env, world) && Carries(rows, job, world, v4, v6, texts, w, n) && Numbered(world, specs, job.rules[..n])
    ensures Enforces(env, world, rows, job.ns, v4, v6, specs, w, p)
       <==> (Concerns(env, world, v4, v6, specs, p) ==> Matchable(world.config, p.dst.v6) && SameVerdict(env, world, specs, p))
  {
    NoMatchAsRead(env, world, specs, p);
    if Matchable(world.config, p.dst.v6) {
      FirstMatchSurvives(env, world, rows, job, v4, v6, specs, texts, w, n, p);
      var a, b := FirstMatch(env, AsRead(world), specs, p), FirstMatch(env, world, specs, p);
      if InScope(env, world, v4, v6, p) && a.Some? && b.Some? {
        OneVerdict(env, rows, job.ns, w, p, a.value, b.value);
      }
    } else {
      NoRuleLeavesUntouched(env, world, rows, job, v4, v6, texts, w, n, p);
    }
  }

  /** On this switch the object's rules take effect in the order they are written, on every packet they concern whose
      address family matches can apply to and whose verdict does not rest on a block with host bits, and only on those. */
  ghost predicate EnforcesAll(world: World, rows: seq<ACL>, ns: string, v4: string, v6: string, specs: seq<Spec>, w: string) {
    forall env: Env, p: Packet | Reads(env, world) ::
      Enforces(env, world, rows, ns, v4, v6, specs, w, p)
      <==> (Concerns(env, world, v4, v6, specs, p) ==> Matchable(world.config, p.dst.v6) && SameVerdict(env, world, specs, p))
  }

  lemma {:induction false} CarriesEnforces(world: World, rows: seq<ACL>, job: Job, v4: string, v6: string, specs: seq<Spec>,
                                           texts: seq<string>, w: string, n: nat)
    requires Carries(rows, job, world, v4, v6, texts, w, n) && Numbered(world, specs, job.rules[..n])
    ensures EnforcesAll(world, rows, job.ns, v4, v6, specs, w)
  {
    forall env: Env, p: Packet | Reads(env, world)
      ensures Enforces(env, world, rows, job.ns, v4, v6, specs, w, p)
         <==> (Concerns(env, world, v4, v6, specs, p) ==> Matchable(world.config, p.dst.v6) && SameVerdict(env, world, specs, p))
    {
      FirstMatchSurvivesIff(env, world, rows, job, v4, v6, specs, texts, w, n, p);
    }
  }

  // ----- After a failure

  /** On this switch the first rules of the object take effect in order. */
  ghost predicate EnforcesFirst(world: World, rows: seq<ACL>, ns: string, v4: string, v6: string, specs: seq<Spec>, w: string) {
    exists m: nat :: m <= |specs| && EnforcesAll(world, rows, ns, v4, v6, specs[..m], w)
  }

  /** Wherever compilation stops, each switch enforces the first rules of the object: none is overtaken by a later one. */
  lemma {:induction false} PrefixEnforces(world: World, rows: seq<ACL>, job: Job, v4: string, v6: string, specs: seq<Spec>,
                                          texts: seq<string>, w: string)
    requires Increasing(job.rules) && Prefixed(rows, job, texts) && TextsMean(world, v4, v6, job.rules, texts)
    requires Numbered(world, specs, job.rules) && w in job.switches
    ensures EnforcesFirst(world, rows, job.ns, v4, v6, specs, w)
  {
    assert SomeRules(rows, job, texts, w);
    var n: nat :| OnSwitch(rows, job, texts, w, n);
    var m := FirstSpecs(world, specs, job.rules, n);
    CarriesEnforces(world, rows, job, v4, v6, specs[..m], texts, w, n);
  }

  /** No ACLs enforce no rules. */
  lemma {:induction false} NothingEnforced(world: World, rows: seq<ACL>, ns: string, v4: string, v6: string, specs: seq<Spec>, w: string)
    requires forall i | 0 <= i < |rows| :: rows[i].namespace != ns
    ensures EnforcesFirst(world, rows, ns, v4, v6, specs, w)
  {
    assert specs[..0] == [];
    assert EnforcesAll(world, rows, ns, v4, v6, specs[..0], w);
  }

  lemma {:induction false} SwitchesEnforceFirst(world: World, rows: seq<ACL>, job: Job, v4: string, v6: string, specs: seq<Spec>,
                                                texts: seq<string>)
    requires Increasing(job.rules) && Prefixed(rows, job, texts) && TextsMean(world, v4, v6, job.rules, texts)
    requires Numbered(world, specs, job.rules)
    ensures forall w <- job.switches :: EnforcesFirst(world, rows, job.ns, v4, v6, specs, w)
  {
    forall w | w in job.switches
      ensures EnforcesFirst(world, rows, job.ns, v4, v6, specs, w)
    {
      PrefixEnforces(world, rows, job, v4, v6, specs, texts, w);
    }
  }

  lemma {:induction false} SwitchesEnforce(world: World, rows: seq<ACL>, job: Job, v4: string, v6: string, specs: seq<Spec>,
                                           texts: seq<string>)
    requires Increasing(job.rules) && Staged(rows, job, texts, |texts|, {}) && TextsMean(world, v4, v6, job.rules, texts)
    requires Numbered(world, specs, job.rules) && |texts| == |job.rules|
    ensures forall w <- job.switches :: EnforcesAll(world, rows, job.ns, v4, v6, specs, w)
  {
    assert job.rules[..|texts|] == job.rules;
    forall w | w in job.switches
      ensures EnforcesAll(world, rows, job.ns, v4, v6, specs, w)
    {
      CarriesEnforces(world, rows, job, v4, v6, specs, texts, w, |texts|);
    }
  }

  // ----- Whole objects

  /** The object is enforced on every packet of a family that matches can apply to. */
  ghost predicate Enforced(world: World, rows: seq<ACL>, ns: string, v4: string, v6: string, specs: seq<Spec>, w: string) {
    forall env: Env, p: Packet | Reads(env, world) && Matchable(world.config, p.dst.v6) ::
      Enforces(env, world, rows, ns, v4, v6, specs, w, p)
  }

  /** Where a rule with host bits would decide, a later rule that OVN can read decides alike. */
  ghost predicate BackedUp(world: World, v4: string, v6: string, specs: seq<Spec>) {
    forall env: Env, p: Packet, i: nat |
      && Reads(env, world) && Matchable(world.config, p.dst.v6) && InScope(env, world, v4, v6, p)
      && FirstSpecAt(env, world, specs, i, p) && !SpecLegible(world, specs[i]) ::
      FirstMatch(env, AsRead(world), specs[i + 1..], p) == Some(Verdict(specs[i].allow))
  }

  lemma {:induction false} FirstMatchAfter(env: Env, world: World, specs: seq<Spec>, p: Packet, i: nat)
    requires i < |specs| && forall k | 0 <= k < i :: !SpecHits(env, world, specs[k], p)
    ensures FirstMatch(env, world, specs, p) == FirstMatch(env, world, specs[i..], p)
    decreases i
  {
    if i > 0 {
      var rest := specs[1..];
      assert forall k | 0 <= k < i - 1 :: rest[k] == specs[k + 1];
      FirstMatchAfter(env, world, rest, p, i - 1);
      assert rest[i - 1..] == specs[i..];
    }
  }

  /** What the first rule that applies, and what OVN reads of the object, say about a packet. */
  lemma {:induction false} DecidedAt(env: Env, world: World, specs: seq<Spec>, p: Packet, i: nat)
    requires FirstSpecAt(env, world, specs, i, p)
    ensures FirstMatch(env, world, specs, p) == Some(Verdict(specs[i].allow))
    ensures FirstMatch(env, AsRead(world), specs, p)
         == if SpecLegible(world, specs[i]) then Some(Verdict(specs[i].allow)) else FirstMatch(env, AsRead(world), specs[i + 1..], p)
  {
    forall k | 0 <= k <= i
      ensures SpecHits(env, AsRead(world), specs[k], p) <==> k == i && SpecLegible(world, specs[i])
    {
      HitsAsRead(env, world, specs[k], p);
    }
    FirstMatchAfter(env, world, specs, p, i);
    FirstMatchAfter(env, AsRead(world), specs, p, i);
    assert specs[i..][0] == specs[i] && specs[i..][1..] == specs[i + 1..];
  }

  /** A compiled object is enforced throughout if and only if its rules with host bits are backed up. */
  lemma {:induction false} EnforcedIff(world: World, rows: seq<ACL>, ns: string, v4: string, v6: string, specs: seq<Spec>, w: string)
    requires EnforcesAll(world, rows, ns, v4, v6, specs, w)
    ensures Enforced(world, rows, ns, v4, v6, specs, w) <==> BackedUp(world, v4, v6, specs)
  {
    if Enforced(world, rows, ns, v4, v6, specs, w) {
      forall env: Env, p: Packet, i: nat |
        && Reads(env, world) && Matchable(world.config, p.dst.v6) && InScope(env, world, v4, v6, p)
        && FirstSpecAt(env, world, specs, i, p) && !SpecLegible(world, specs[i])
        ensures FirstMatch(env, AsRead(world), specs[i + 1..], p) == Some(Verdict(specs[i].allow))
      {
        DecidedAt(env, world, specs, p, i);
        assert Enforces(env, world, rows, ns, v4, v6, specs, w, p);
      }
    }
    if BackedUp(world, v4, v6, specs) {
      forall env: Env, p: Packet | Reads(env, world) && Matchable(world.config, p.dst.v6)
        ensures Enforces(env, world, rows, ns, v4, v6, specs, w, p)
      {
        BackedUpAgrees(env, world, v4, v6, specs, p);
      }
    }
  }

  lemma {:induction false} BackedUpAgrees(env: Env, world: World, v4: string, v6: string, specs: seq<Spec>, p: Packet)
    requires BackedUp(world, v4, v6, specs) && Reads(env, world) && Matchable(world.config, p.dst.v6)
    ensures Concerns(env, world, v4, v6, specs, p) ==> SameVerdict(env, world, specs, p)
  {
    FirstMatchIs(env, world, specs, p);
    if Concerns(env, world, v4, v6, specs, p) {
      var a := FirstMatch(env, world, specs, p).value;
      var i :| 0 <= i < |specs| && FirstSpecAt(env, world, specs, i, p) && Verdict(specs[i].allow) == a;
      DecidedAt(env, world, specs, p, i);
    }
  }

  /** Without host bits there is nothing to back up; a rule on its own, which could apply to some packet, is enforced
      if and only if it has none. */
  lemma {:induction false} HostBitsIff(env: Env, world: World, rows: seq<ACL>, ns: string, v4: string, v6: string, s: Spec,
                                       rest: seq<Spec>, w: string, p: Packet)
    requires EnforcesAll(world, rows, ns, v4, v6, [s] + rest, w) && forall i | 0 <= i < |rest| :: SpecLegible(world, rest[i])
    requires Reads(env, world) && Matchable(world.config, p.dst.v6) && InScope(env, world, v4, v6, p)
    requires SpecHits(env, world, s, p) && FirstMatch(env, world, rest, p) != Some(Verdict(s.allow))
    ensures Enforced(world, rows, ns, v4, v6, [s] + rest, w) <==> SpecLegible(world, s)
  {
    var specs := [s] + rest;
    assert specs[0] == s && specs[1..] == rest;
    EnforcedIff(world, rows, ns, v4, v6, specs, w);
    NoMatchAsRead(env, world, rest, p);
    assert FirstSpecAt(env, world, specs, 0, p);
    if SpecLegible(world, s) {
      assert forall i | 0 <= i < |specs| :: SpecLegible(world, specs[i]);
    }
  }

  // ----- A lost rule

  const HOST_BITS := "10.0.0.5/8"

  /** Shared gateway mode and IPv4; one text parses, and it has host bits. */
  function HostBitWorld(): (world: World)
    ensures world.parse(HOST_BITS).Some? && Constant(world.parse(HOST_BITS)).None?
  {
    Bytes();
    var block: Subnet := RawSubnet.Subnet(false, 0x0a00_0005, 8);
    World(Config(true, false, false, []), s => if s == HOST_BITS then Some(block) else None, _ => None, None, _ => true, _ => Pending)
  }

  function HostBitPacket(): (p: Packet)
    ensures Contains(HostBitWorld().parse(HOST_BITS).value, p.dst)
  {
    Bytes();
    var ip: IP := RawIP.IP(false, 0x0a00_0005);
    RawPacket.Packet(ip, ip, OtherProtocol, 0, CLUSTER_ROUTER_PORT, "")
  }

  function HostBitEnv(): Env {
    Env(_ => {HostBitPacket().src}, _ => {}, s => Constant(HostBitWorld().parse(s)))
  }

  /** A lone rule that denies 10.0.0.5/8: the object says drop
      for a packet to 10.0.0.5, which no table that compiles the rule drops. */
  lemma {:induction false} HostBitDenyIsLost(rows: seq<ACL>, ns: string, w: string)
    requires EnforcesAll(HostBitWorld(), rows, ns, "a", "b", [Spec(false, HOST_BITS, "", [])], w)
    ensures Usual(HostBitWorld()) && Reads(HostBitEnv(), HostBitWorld())
    ensures FirstMatch(HostBitEnv(), HostBitWorld(), [Spec(false, HOST_BITS, "", [])], HostBitPacket()) == Some(Drop)
    ensures InScope(HostBitEnv(), HostBitWorld(), "a", "b", HostBitPacket())
    ensures !Decides(HostBitEnv(), rows, ns, w, HostBitPacket(), Drop)
  {
    var env, world, p, deny := HostBitEnv(), HostBitWorld(), HostBitPacket(), Spec(false, HOST_BITS, "", []);
    var specs := [deny];
    assert SpecHits(env, world, specs[0], p) && !SpecLegible(world, deny);
    HitsAsRead(env, world, deny, p);
    assert FirstMatch(env, AsRead(world), specs, p) == FirstMatch(env, AsRead(world), specs[1..], p) == None;
    assert !SameVerdict(env, world, specs, p) && Concerns(env, world, "a", "b", specs, p);
    assert !Enforces(env, world, rows, ns, "a", "b", specs, w, p);
  }
}
