/** localPodSetACL and addOrModifyACLAllow of pkg/ovn/gress_policy.go: a policy kept as ACLs. */
module GressPolicy {
  import opened Wrappers
  import opened Cidr
  import opened OvnExpr
  import opened EgressFirewallPorts
  import opened GressPolicyMatch

  // ----- The ACL table, found by key

  datatype Owner = Owner(namespace: string, policy: string, ingress: bool, idx: nat)

  datatype Key = Key(owner: Owner, l4Match: string, ipBlockCIDR: string)

  datatype Row = Row(key: Key, text: string)

  /** The first row with this key, or the length of the table. */
  function Find(rows: seq<Row>, key: Key): (i: nat)
    ensures i <= |rows| && (i < |rows| ==> rows[i].key == key)
    ensures forall k | 0 <= k < i :: rows[k].key != key
  {
    if rows == [] || rows[0].key == key then 0
    else
      var i := Find(rows[1..], key);
      assert forall k | 1 <= k < 1 + i :: rows[k] == rows[1..][k - 1];
      1 + i
  }

  function Lookup(rows: seq<Row>, key: Key): Option<string> {
    var i := Find(rows, key);
    if i < |rows| then Some(rows[i].text) else None
  }

  function Put(rows: seq<Row>, e: Row): seq<Row> {
    var i := Find(rows, e.key);
    if i < |rows| then rows[i := e] else rows + [e]
  }

  function Run(rows: seq<Row>, es: seq<Row>): seq<Row> {
    if es == [] then rows else Put(Run(rows, es[..|es| - 1]), es[|es| - 1])
  }

  predicate Unique(rows: seq<Row>) {
    forall i, k | 0 <= i < k < |rows| :: rows[i].key != rows[k].key
  }

  /** Equal keys are written with equal texts. */
  predicate Consistent(es: seq<Row>) {
    forall i, k | 0 <= i < |es| && 0 <= k < |es| && es[i].key == es[k].key :: es[i].text == es[k].text
  }

  predicate HasKey(es: seq<Row>, key: Key) {
    exists i | 0 <= i < |es| :: es[i].key == key
  }

  lemma {:induction false} FindIs(rows: seq<Row>, key: Key, i: nat)
    requires i <= |rows| && (i < |rows| ==> rows[i].key == key)
    requires forall k | 0 <= k < i :: rows[k].key != key
    ensures Find(rows, key) == i
  {
  }

  lemma {:induction false} PutLookup(rows: seq<Row>, e: Row, key: Key)
    ensures Lookup(Put(rows, e), key) == if key == e.key then Some(e.text) else Lookup(rows, key)
  {
    var i, j := Find(rows, e.key), Find(rows, key);
    var after := Put(rows, e);
    if key == e.key {
      FindIs(after, key, i);
    } else {
      assert forall k | 0 <= k < j && k != i :: after[k] == rows[k];
      if i == |rows| && j == |rows| {
        FindIs(after, key, |after|);
      } else {
        FindIs(after, key, j);
      }
    }
  }

  lemma {:induction false} PutUnique(rows: seq<Row>, e: Row)
    requires Unique(rows)
    ensures Unique(Put(rows, e))
  {
  }

  lemma {:induction false} RunConcat(rows: seq<Row>, a: seq<Row>, b: seq<Row>)
    ensures Run(rows, a + b) == Run(Run(rows, a), b)
  {
    if b == [] {
      assert a + b == a;
    } else {
      var b' := b[..|b| - 1];
      RunConcat(rows, a, b');
      assert (a + b)[..|a + b| - 1] == a + b';
    }
  }

  /** The last write of a key decides; other keys are as before. */
  lemma {:induction false} RunStores(rows: seq<Row>, es: seq<Row>, key: Key)
    ensures HasKey(es, key) ==> exists i | 0 <= i < |es| :: es[i].key == key && Lookup(Run(rows, es), key) == Some(es[i].text)
    ensures !HasKey(es, key) ==> Lookup(Run(rows, es), key) == Lookup(rows, key)
  {
    if es != [] {
      var before, last := es[..|es| - 1], es[|es| - 1];
      RunStores(rows, before, key);
      PutLookup(Run(rows, before), last, key);
      assert HasKey(es, key) <==> HasKey(before, key) || last.key == key by {
        assert es == before + [last];
      }
      if HasKey(before, key) && last.key != key {
        var i :| 0 <= i < |before| && before[i].key == key && Lookup(Run(rows, before), key) == Some(before[i].text);
        assert es[i] == before[i];
      }
    }
  }

  /** One row a key, before and after. */
  lemma {:induction false} RunUnique(rows: seq<Row>, es: seq<Row>)
    requires Unique(rows)
    ensures Unique(Run(rows, es))
  {
    if es != [] {
      RunUnique(rows, es[..|es| - 1]);
      PutUnique(Run(rows, es[..|es| - 1]), es[|es| - 1]);
    }
  }

  lemma {:induction false} RunNothingNew(rows: seq<Row>, es: seq<Row>)
    requires forall i | 0 <= i < |es| :: Lookup(rows, es[i].key) == Some(es[i].text)
    ensures Run(rows, es) == rows
  {
    if es != [] {
      var last := es[|es| - 1];
      RunNothingNew(rows, es[..|es| - 1]);
      assert rows[Find(rows, last.key)] == last;
    }
  }

  /** Writing the same entries a second time changes nothing. */
  lemma {:induction false} RunTwice(rows: seq<Row>, es: seq<Row>)
    requires Consistent(es)
    ensures Run(Run(rows, es), es) == Run(rows, es)
  {
    forall i | 0 <= i < |es|
      ensures Lookup(Run(rows, es), es[i].key) == Some(es[i].text)
    {
      RunStores(rows, es, es[i].key);
    }
    RunNothingNew(Run(rows, es), es);
  }

  lemma {:induction false} RowIsLookup(rows: seq<Row>, i: nat)
    requires Unique(rows) && i < |rows|
    ensures Lookup(rows, rows[i].key) == Some(rows[i].text)
  {
    FindIs(rows, rows[i].key, i);
  }

  // ----- The entries of a policy

  /** "false" for the selectors' ACL, "true" for the first block's, then numbers. */
  function IPBlockCIDRString(i: nat): string {
    if i == 0 then "false" else if i == 1 then "true" else Decimal(i)
  }

  lemma {:induction false} IndexInjective(i: nat, k: nat)
    ensures IPBlockCIDRString(i) == IPBlockCIDRString(k) <==> i == k
  {
    NumberOfDecimal(i);
    NumberOfDecimal(k);
    assert Number("false").None? && Number("true").None?;
  }

  /** A policy where it is kept: its owner and the group of its local ports. */
  datatype Place = Place(owner: Owner, group: string)

  predicate SelectsPeers(gp: Policy) {
    HasSets(gp) || gp.blocks == []
  }

  predicate Known(e: Option<PortEntry>) {
    e.Some? ==> e.value.protocol != OtherProtocol
  }

  function SelectorEntry(gp: Policy, at: Place, e: Option<PortEntry>): Row
    requires Known(e)
  {
    Row(Key(at.owner, L4Text(e), IPBlockCIDRString(0)),
        ACLText(GetL3MatchFromAddressSet(gp), L4Text(e), LportMatch(gp, at.group)))
  }

  function BlockEntry(gp: Policy, at: Place, e: Option<PortEntry>, i: nat): Row
    requires Known(e) && i < |gp.blocks|
  {
    Row(Key(at.owner, L4Text(e), IPBlockCIDRString(i + 1)),
        ACLText(BlockText(Side(gp), gp.blocks[i]), L4Text(e), LportMatch(gp, at.group)))
  }

  function BlockEntries(gp: Policy, at: Place, e: Option<PortEntry>, n: nat): seq<Row>
    requires Known(e) && n <= |gp.blocks|
  {
    seq(n, i requires 0 <= i < n => BlockEntry(gp, at, e, i))
  }

  function PortEntries(gp: Policy, at: Place, e: Option<PortEntry>): seq<Row>
    requires Known(e)
  {
    BlockEntries(gp, at, e, |gp.blocks|) + if SelectsPeers(gp) then [SelectorEntry(gp, at, e)] else []
  }

  /** The entries of one port; an unknown protocol gives none. */
  function EntriesAt(gp: Policy, at: Place, i: nat): seq<Row>
    requires i < |gp.ports|
  {
    if gp.ports[i].protocol == OtherProtocol then [] else PortEntries(gp, at, Some(gp.ports[i]))
  }

  /** The entries of the first n ports. */
  function ListedEntries(gp: Policy, at: Place, n: nat): seq<Row>
    requires n <= |gp.ports|
  {
    if n == 0 then [] else ListedEntries(gp, at, n - 1) + EntriesAt(gp, at, n - 1)
  }

  function Entries(gp: Policy, at: Place): seq<Row> {
    (if gp.ports == [] then PortEntries(gp, at, None) else []) + ListedEntries(gp, at, |gp.ports|)
  }

  /** The ports an ACL can stand for. */
  predicate Offers(gp: Policy, e: Option<PortEntry>) {
    Known(e) && if e.Some? then e.value in gp.ports else gp.ports == []
  }

  ghost predicate IsSelectorEntry(gp: Policy, at: Place, r: Row) {
    exists e :: Offers(gp, e) && r == SelectorEntry(gp, at, e)
  }

  ghost predicate IsBlockEntry(gp: Policy, at: Place, r: Row) {
    exists e, i :: Offers(gp, e) && 0 <= i < |gp.blocks| && r == BlockEntry(gp, at, e, i)
  }

  ghost predicate IsEntry(gp: Policy, at: Place, r: Row) {
    IsBlockEntry(gp, at, r) || (SelectsPeers(gp) && IsSelectorEntry(gp, at, r))
  }

  lemma {:induction false} PortEntriesAre(gp: Policy, at: Place, e: Option<PortEntry>, r: Row)
    requires Offers(gp, e) && r in PortEntries(gp, at, e)
    ensures IsEntry(gp, at, r)
  {
    if r in BlockEntries(gp, at, e, |gp.blocks|) {
      var i :| 0 <= i < |gp.blocks| && r == BlockEntry(gp, at, e, i);
    } else {
      assert SelectsPeers(gp) && r == SelectorEntry(gp, at, e);
    }
  }

  lemma {:induction false} ListedEntriesAre(gp: Policy, at: Place, n: nat, r: Row)
    requires n <= |gp.ports| && r in ListedEntries(gp, at, n)
    ensures IsEntry(gp, at, r)
  {
    if r in ListedEntries(gp, at, n - 1) {
      ListedEntriesAre(gp, at, n - 1, r);
    } else {
      assert Offers(gp, Some(gp.ports[n - 1]));
      PortEntriesAre(gp, at, Some(gp.ports[n - 1]), r);
    }
  }

  lemma {:induction false} EntriesAre(gp: Policy, at: Place, r: Row)
    requires r in Entries(gp, at)
    ensures IsEntry(gp, at, r)
  {
    if gp.ports == [] && r in PortEntries(gp, at, None) {
      PortEntriesAre(gp, at, None, r);
    } else {
      ListedEntriesAre(gp, at, |gp.ports|, r);
    }
  }

  lemma {:induction false} ListedEntriesHave(gp: Policy, at: Place, n: nat, k: nat, r: Row)
    requires k < n <= |gp.ports| && r in EntriesAt(gp, at, k)
    ensures r in ListedEntries(gp, at, n)
  {
    if k < n - 1 {
      ListedEntriesHave(gp, at, n - 1, k, r);
    }
    InSum(r, ListedEntries(gp, at, n - 1), EntriesAt(gp, at, n - 1));
  }

  lemma {:induction false} InSum(r: Row, a: seq<Row>, b: seq<Row>)
    ensures r in a + b <==> r in a || r in b
  {
  }

  lemma {:induction false} PortEntriesHave(gp: Policy, at: Place, e: Option<PortEntry>)
    requires Known(e)
    ensures SelectsPeers(gp) ==> SelectorEntry(gp, at, e) in PortEntries(gp, at, e)
    ensures forall i | 0 <= i < |gp.blocks| :: BlockEntry(gp, at, e, i) in PortEntries(gp, at, e)
  {
    var es := PortEntries(gp, at, e);
    assert forall i | 0 <= i < |gp.blocks| :: es[i] == BlockEntry(gp, at, e, i);
    assert SelectsPeers(gp) ==> es[|gp.blocks|] == SelectorEntry(gp, at, e);
  }

  lemma {:induction false} PortEntriesListed(gp: Policy, at: Place, e: Option<PortEntry>, r: Row)
    requires Offers(gp, e) && r in PortEntries(gp, at, e)
    ensures r in Entries(gp, at)
  {
    if e.Some? {
      var k :| 0 <= k < |gp.ports| && gp.ports[k] == e.value;
      ListedEntriesHave(gp, at, |gp.ports|, k, r);
    }
  }

  lemma {:induction false} EntriesHave(gp: Policy, at: Place, e: Option<PortEntry>)
    requires Offers(gp, e)
    ensures SelectsPeers(gp) ==> SelectorEntry(gp, at, e) in Entries(gp, at)
    ensures forall i | 0 <= i < |gp.blocks| :: BlockEntry(gp, at, e, i) in Entries(gp, at)
  {
    PortEntriesHave(gp, at, e);
    forall r | r in PortEntries(gp, at, e)
      ensures r in Entries(gp, at)
    {
      PortEntriesListed(gp, at, e, r);
    }
  }

  /** The key determines the text: its port condition and its place among the blocks. */
  lemma {:induction false} KeyDetermines(gp: Policy, at: Place, a: Row, b: Row)
    requires a.key == b.key
    requires IsBlockEntry(gp, at, a) || IsSelectorEntry(gp, at, a)
    requires IsBlockEntry(gp, at, b) || IsSelectorEntry(gp, at, b)
    ensures a == b && (IsSelectorEntry(gp, at, a) <==> a.key.ipBlockCIDR == IPBlockCIDRString(0))
  {
    var i := KeyIndex(gp, at, a);
    var k := KeyIndex(gp, at, b);
    IndexInjective(i, k);
    IndexInjective(i, 0);
    assert a.key.ipBlockCIDR == IPBlockCIDRString(i) && b.key.ipBlockCIDR == IPBlockCIDRString(k);
    assert i == k && a.text == b.text;
  }

  lemma {:induction false} KeyIndex(gp: Policy, at: Place, r: Row) returns (i: nat)
    requires IsBlockEntry(gp, at, r) || IsSelectorEntry(gp, at, r)
    ensures i <= |gp.blocks| && r.key == Key(at.owner, r.key.l4Match, IPBlockCIDRString(i))
    ensures r.text == ACLText(if i == 0 then GetL3MatchFromAddressSet(gp) else BlockText(Side(gp), gp.blocks[i - 1]),
                              r.key.l4Match, LportMatch(gp, at.group))
    ensures IsSelectorEntry(gp, at, r) <==> i == 0
  {
    if IsSelectorEntry(gp, at, r) {
      i := 0;
    } else {
      var e, k :| Offers(gp, e) && 0 <= k < |gp.blocks| && r == BlockEntry(gp, at, e, k);
      i := k + 1;
    }
  }

  lemma {:induction false} EntriesConsistent(gp: Policy, at: Place)
    ensures Consistent(Entries(gp, at))
  {
    var es := Entries(gp, at);
    forall i, k | 0 <= i < |es| && 0 <= k < |es| && es[i].key == es[k].key
      ensures es[i].text == es[k].text
    {
      EntriesAre(gp, at, es[i]);
      EntriesAre(gp, at, es[k]);
      KeyDetermines(gp, at, es[i], es[k]);
    }
  }

  // ----- What the table allows

  ghost predicate AllowsBy(env: Env, rows: seq<Row>, owner: Owner, p: Packet) {
    exists i | 0 <= i < |rows| :: rows[i].key.owner == owner && Matches(env, rows[i].text, p)
  }

  /** The policy's rows are its entries. */
  ghost predicate Exact(rows: seq<Row>, gp: Policy, at: Place) {
    && Unique(rows)
    && (forall i | 0 <= i < |rows| && rows[i].key.owner == at.owner :: IsEntry(gp, at, rows[i]))
    && (forall r | IsEntry(gp, at, r) :: r in rows)
  }

  lemma {:induction false} EntryAllows(env: Env, gp: Policy, at: Place, r: Row, p: Packet)
    requires Plain(gp) && Reads(env, gp) && IsWord(at.group) && IsEntry(gp, at, r) && Matches(env, r.text, p)
    ensures AllowedAsRead(env, gp, at.group, p)
  {
    if IsBlockEntry(gp, at, r) {
      var e, i :| Offers(gp, e) && 0 <= i < |gp.blocks| && r == BlockEntry(gp, at, e, i);
      BlockACLMeaning(env, gp, at.group, gp.blocks[i], e, p);
      assert BlockLegible(gp.blocks[i]) && InBlock(gp, gp.blocks[i], p);
      OfferedHit(gp, e, p);
    } else {
      var e :| Offers(gp, e) && r == SelectorEntry(gp, at, e);
      SelectorACLMeaning(env, gp, at.group, e, p);
      OfferedHit(gp, e, p);
    }
  }

  lemma {:induction false} OfferedHit(gp: Policy, e: Option<PortEntry>, p: Packet)
    requires Offers(gp, e) && PortHit(e, p)
    ensures gp.ports == [] || PortsAllow(gp.ports, p)
  {
    if e.Some? {
      var k :| 0 <= k < |gp.ports| && gp.ports[k] == e.value;
    }
  }

  lemma {:induction false} OfferFor(gp: Policy, p: Packet) returns (e: Option<PortEntry>)
    requires gp.ports == [] || PortsAllow(gp.ports, p)
    ensures Offers(gp, e) && PortHit(e, p)
  {
    e := None;
    if gp.ports != [] {
      var k :| 0 <= k < |gp.ports| && gp.ports[k].protocol == p.proto && p.proto != OtherProtocol
        && (gp.ports[k].port == 0 || gp.ports[k].port == p.dstPort);
      e := Some(gp.ports[k]);
    }
  }

  lemma {:induction false} AllowedByEntry(env: Env, gp: Policy, at: Place, p: Packet) returns (r: Row)
    requires Plain(gp) && Reads(env, gp) && IsWord(at.group) && AllowedAsRead(env, gp, at.group, p)
    ensures IsEntry(gp, at, r) && r.key.owner == at.owner && Matches(env, r.text, p)
  {
    var e := OfferFor(gp, p);
    if BySelector(env, gp, p) {
      SelectorACLMeaning(env, gp, at.group, e, p);
      r := SelectorEntry(gp, at, e);
      assert IsSelectorEntry(gp, at, r);
    } else {
      var i :| 0 <= i < |gp.blocks| && BlockLegible(gp.blocks[i]) && InBlock(gp, gp.blocks[i], p);
      BlockACLMeaning(env, gp, at.group, gp.blocks[i], e, p);
      r := BlockEntry(gp, at, e, i);
      assert IsBlockEntry(gp, at, r);
    }
  }

  /** The policy as written: its ACLs allow exactly what it allows without the blocks that OVN cannot read; this is
      all it allows, on every packet, if no block and no exception has host bits. */
  ghost predicate Enforced(env: Env, rows: seq<Row>, gp: Policy, at: Place, p: Packet) {
    && (AllowsBy(env, rows, at.owner, p) <==> AllowedAsRead(env, gp, at.group, p))
    && ((forall i | 0 <= i < |gp.blocks| :: BlockLegible(gp.blocks[i])) ==>
          (AllowsBy(env, rows, at.owner, p) <==> Allowed(env, gp, at.group, p)))
  }

  lemma {:induction false} ExactAllows(env: Env, rows: seq<Row>, gp: Policy, at: Place, p: Packet)
    requires Plain(gp) && Reads(env, gp) && IsWord(at.group) && Exact(rows, gp, at)
    ensures Enforced(env, rows, gp, at, p)
  {
    if AllowsBy(env, rows, at.owner, p) {
      var i :| 0 <= i < |rows| && rows[i].key.owner == at.owner && Matches(env, rows[i].text, p);
      EntryAllows(env, gp, at, rows[i], p);
    }
    AsReadIsLess(env, gp, at.group, p);
    if AllowedAsRead(env, gp, at.group, p) {
      var r := AllowedByEntry(env, gp, at, p);
      var i :| 0 <= i < |rows| && rows[i] == r;
    }
  }

  // ----- Writing a policy into a table

  /** The row's key is one the policy may use for some set of peers. */
  ghost predicate UsableKey(gp: Policy, at: Place, key: Key) {
    exists e, i :: Offers(gp, e) && 0 <= i <= |gp.blocks| && key == Key(at.owner, L4Text(e), IPBlockCIDRString(i))
  }

  /** An ACL written when the policy still had address sets. */
  ghost predicate Leftover(rows: seq<Row>, at: Place) {
    exists i | 0 <= i < |rows| :: rows[i].key.owner == at.owner && rows[i].key.ipBlockCIDR == IPBlockCIDRString(0)
  }

  lemma {:induction false} EntriesKey(gp: Policy, at: Place, key: Key)
    requires HasKey(Entries(gp, at), key) && key.ipBlockCIDR == IPBlockCIDRString(0)
    ensures SelectsPeers(gp)
  {
    var es := Entries(gp, at);
    var i :| 0 <= i < |es| && es[i].key == key;
    EntriesAre(gp, at, es[i]);
    KeyDetermines(gp, at, es[i], es[i]);
    var k := KeyIndex(gp, at, es[i]);
    if IsBlockEntry(gp, at, es[i]) {
      var e, j :| Offers(gp, e) && 0 <= j < |gp.blocks| && es[i] == BlockEntry(gp, at, e, j);
      IndexInjective(j + 1, 0);
    }
  }

  /** A usable key is written unless it is the selectors' and the policy selects no peers. */
  lemma {:induction false} UsableKeyIsWritten(gp: Policy, at: Place, key: Key)
    requires UsableKey(gp, at, key)
    requires SelectsPeers(gp) || key.ipBlockCIDR != IPBlockCIDRString(0)
    ensures HasKey(Entries(gp, at), key)
  {
    var e, i :| Offers(gp, e) && 0 <= i <= |gp.blocks| && key == Key(at.owner, L4Text(e), IPBlockCIDRString(i));
    EntriesHave(gp, at, e);
    var r := if i == 0 then SelectorEntry(gp, at, e) else BlockEntry(gp, at, e, i - 1);
    assert r in Entries(gp, at) && r.key == key;
  }

  lemma {:induction false} WrittenIsEntry(rows: seq<Row>, gp: Policy, at: Place, r: Row)
    requires Unique(rows) && r in Run(rows, Entries(gp, at)) && HasKey(Entries(gp, at), r.key)
    ensures IsEntry(gp, at, r)
  {
    var es := Entries(gp, at);
    var after := Run(rows, es);
    RunUnique(rows, es);
    RunStores(rows, es, r.key);
    var i :| 0 <= i < |after| && after[i] == r;
    RowIsLookup(after, i);
    var k :| 0 <= k < |es| && es[k].key == r.key && Lookup(after, r.key) == Some(es[k].text);
    assert es[k] == r;
    EntriesAre(gp, at, r);
  }

  lemma {:induction false} UnwrittenIsOld(rows: seq<Row>, es: seq<Row>, r: Row)
    requires Unique(rows) && !HasKey(es, r.key)
    ensures r in Run(rows, es) <==> r in rows
  {
    var after := Run(rows, es);
    RunUnique(rows, es);
    RunStores(rows, es, r.key);
    if i :| 0 <= i < |after| && after[i] == r {
      RowIsLookup(after, i);
    }
    if i :| 0 <= i < |rows| && rows[i] == r {
      RowIsLookup(rows, i);
    }
  }

  lemma {:induction false} EntryIsListed(gp: Policy, at: Place, r: Row)
    requires IsEntry(gp, at, r)
    ensures r in Entries(gp, at)
  {
    if IsBlockEntry(gp, at, r) {
      var e, i :| Offers(gp, e) && 0 <= i < |gp.blocks| && r == BlockEntry(gp, at, e, i);
      EntriesHave(gp, at, e);
    } else {
      var e :| Offers(gp, e) && r == SelectorEntry(gp, at, e);
      EntriesHave(gp, at, e);
    }
  }

  lemma {:induction false} ListedIsWritten(rows: seq<Row>, es: seq<Row>, r: Row)
    requires Consistent(es) && r in es
    ensures r in Run(rows, es)
  {
    RunStores(rows, es, r.key);
  }

  lemma {:induction false} EntryIsWritten(rows: seq<Row>, gp: Policy, at: Place, r: Row)
    requires IsEntry(gp, at, r)
    ensures r in Run(rows, Entries(gp, at))
  {
    EntryIsListed(gp, at, r);
    EntriesConsistent(gp, at);
    ListedIsWritten(rows, Entries(gp, at), r);
  }

  /** After writing, the policy's rows are its entries,
      unless it has lost its last address set while blocks remain: then the old ACL stays. */
  lemma {:induction false} ExactAfterRunIff(rows: seq<Row>, gp: Policy, at: Place)
    requires Unique(rows)
    requires forall i | 0 <= i < |rows| && rows[i].key.owner == at.owner :: UsableKey(gp, at, rows[i].key)
    ensures Exact(Run(rows, Entries(gp, at)), gp, at) <==> SelectsPeers(gp) || !Leftover(rows, at)
  {
    var es := Entries(gp, at);
    var after := Run(rows, es);
    RunUnique(rows, es);
    forall r | IsEntry(gp, at, r)
      ensures r in after
    {
      EntryIsWritten(rows, gp, at, r);
    }
    if SelectsPeers(gp) || !Leftover(rows, at) {
      forall i | 0 <= i < |after| && after[i].key.owner == at.owner
        ensures IsEntry(gp, at, after[i])
      {
        AfterIsEntry(rows, gp, at, after[i]);
      }
    } else {
      var i :| 0 <= i < |rows| && rows[i].key.owner == at.owner && rows[i].key.ipBlockCIDR == IPBlockCIDRString(0);
      LeftoverStays(rows, gp, at, rows[i]);
    }
  }

  lemma {:induction false} AfterIsEntry(rows: seq<Row>, gp: Policy, at: Place, r: Row)
    requires Unique(rows) && (SelectsPeers(gp) || !Leftover(rows, at))
    requires forall i | 0 <= i < |rows| && rows[i].key.owner == at.owner :: UsableKey(gp, at, rows[i].key)
    requires r in Run(rows, Entries(gp, at)) && r.key.owner == at.owner
    ensures IsEntry(gp, at, r)
  {
    if HasKey(Entries(gp, at), r.key) {
      WrittenIsEntry(rows, gp, at, r);
    } else {
      UnwrittenIsOld(rows, Entries(gp, at), r);
      var i :| 0 <= i < |rows| && rows[i] == r;
      UsableKeyIsWritten(gp, at, r.key);
      assert false;
    }
  }

  lemma {:induction false} LeftoverStays(rows: seq<Row>, gp: Policy, at: Place, r: Row)
    requires Unique(rows) && !SelectsPeers(gp) && r in rows
    requires r.key.owner == at.owner && r.key.ipBlockCIDR == IPBlockCIDRString(0)
    ensures r in Run(rows, Entries(gp, at)) && !IsEntry(gp, at, r)
  {
    if HasKey(Entries(gp, at), r.key) {
      EntriesKey(gp, at, r.key);
    }
    UnwrittenIsOld(rows, Entries(gp, at), r);
    if IsBlockEntry(gp, at, r) {
      var e, j :| Offers(gp, e) && 0 <= j < |gp.blocks| && r == BlockEntry(gp, at, e, j);
      IndexInjective(j + 1, 0);
    }
  }

  /** Written into a table that has none of its rows, a policy's ACLs allow exactly what the policy allows. */
  lemma {:induction false} FirstRunAllows(env: Env, rows: seq<Row>, gp: Policy, at: Place, p: Packet)
    requires Unique(rows) && Plain(gp) && Reads(env, gp) && IsWord(at.group)
    requires forall i | 0 <= i < |rows| :: rows[i].key.owner != at.owner
    ensures Enforced(env, Run(rows, Entries(gp, at)), gp, at, p)
  {
    ExactAfterRunIff(rows, gp, at);
    ExactAllows(env, Run(rows, Entries(gp, at)), gp, at, p);
  }

  /** On every packet, if and only if the one block that may have host bits, or exceptions with host bits, has none;
      given a packet that only this block allows. */
  lemma {:induction false} FirstRunExactIff(env: Env, rows: seq<Row>, gp: Policy, at: Place, i: nat, p: Packet)
    requires Unique(rows) && Plain(gp) && Reads(env, gp) && IsWord(at.group)
    requires forall k | 0 <= k < |rows| :: rows[k].key.owner != at.owner
    requires i < |gp.blocks| && forall k | 0 <= k < |gp.blocks| && k != i :: BlockLegible(gp.blocks[k])
    requires Allowed(env, gp, at.group, p) && !BySelector(env, gp, p)
    requires forall k | 0 <= k < |gp.blocks| && k != i :: !InBlock(gp, gp.blocks[k], p)
    ensures (forall q: Packet :: AllowsBy(env, Run(rows, Entries(gp, at)), at.owner, q) <==> Allowed(env, gp, at.group, q))
       <==> BlockLegible(gp.blocks[i])
  {
    HostBitsIff(env, gp, at.group, i, p);
    forall q: Packet
      ensures AllowsBy(env, Run(rows, Entries(gp, at)), at.owner, q) <==> AllowedAsRead(env, gp, at.group, q)
    {
      FirstRunAllows(env, rows, gp, at, q);
    }
  }

  /** From 10.0.0.0/8 except 10.1.0.5/16, IPv4, to any port. */
  function HostBitPolicy(): Policy {
    Bytes();
    var all: Subnet, out: Subnet := RawSubnet.Subnet(false, 0x0a00_0000, 8), RawSubnet.Subnet(false, 0x0a01_0005, 16);
    Policy(true, true, false, {}, {}, [], [IPBlock(CIDR("10.0.0.0/8", all), [CIDR("10.1.0.5/16", out)])])
  }

  /** A packet from 10.2.0.1 to the group's port. */
  function HostBitPacket(): Packet {
    Bytes();
    var ip: IP := RawIP.IP(false, 0x0a02_0001);
    RawPacket.Packet(ip, ip, OtherProtocol, 0, "", "port")
  }

  /** An exception with host bits voids the block: a packet the policy allows is not allowed by its ACLs. */
  lemma {:induction false} HostBitExceptionIsLost(env: Env, rows: seq<Row>, at: Place)
    requires Unique(rows) && Reads(env, HostBitPolicy()) && IsWord(at.group) && "port" in env.groups(at.group)
    requires forall k | 0 <= k < |rows| :: rows[k].key.owner != at.owner
    ensures Allowed(env, HostBitPolicy(), at.group, HostBitPacket())
    ensures !AllowsBy(env, Run(rows, Entries(HostBitPolicy(), at)), at.owner, HostBitPacket())
  {
    var gp, p := HostBitPolicy(), HostBitPacket();
    var b := gp.blocks[0];
    Bytes();
    assert !Masked(b.except[0].block) && !BlockLegible(b);
    assert !Contains(b.except[0].block, Peer(gp, p)) && InBlock(gp, b, p);
    FirstRunAllows(env, rows, gp, at, p);
  }

  /** Rewriting after the peers changed: exact again if peers are still selected. */
  lemma {:induction false} RerunAllows(env: Env, rows: seq<Row>, was: Policy, gp: Policy, at: Place, p: Packet)
    requires Plain(gp) && Reads(env, gp) && IsWord(at.group) && Exact(rows, was, at)
    requires was.ports == gp.ports && was.blocks == gp.blocks && was.ingress == gp.ingress
    requires SelectsPeers(was) ==> SelectsPeers(gp)
    ensures Exact(Run(rows, Entries(gp, at)), gp, at)
    ensures Enforced(env, Run(rows, Entries(gp, at)), gp, at, p)
  {
    forall i | 0 <= i < |rows| && rows[i].key.owner == at.owner
      ensures UsableKey(gp, at, rows[i].key)
      ensures rows[i].key.ipBlockCIDR == IPBlockCIDRString(0) ==> SelectsPeers(was)
    {
      EntryKeyUsable(was, gp, at, rows[i]);
    }
    ExactAfterRunIff(rows, gp, at);
    ExactAllows(env, Run(rows, Entries(gp, at)), gp, at, p);
  }

  lemma {:induction false} EntryKeyUsable(was: Policy, gp: Policy, at: Place, r: Row)
    requires IsEntry(was, at, r) && was.ports == gp.ports && was.blocks == gp.blocks
    ensures UsableKey(gp, at, r.key)
    ensures r.key.ipBlockCIDR == IPBlockCIDRString(0) ==> SelectsPeers(was)
  {
    if IsBlockEntry(was, at, r) {
      var e, j :| Offers(was, e) && 0 <= j < |was.blocks| && r == BlockEntry(was, at, e, j);
      IndexInjective(j + 1, 0);
      assert Offers(gp, e) && r.key == Key(at.owner, L4Text(e), IPBlockCIDRString(j + 1));
    } else {
      var e :| Offers(was, e) && r == SelectorEntry(was, at, e);
      assert Offers(gp, e) && r.key == Key(at.owner, L4Text(e), IPBlockCIDRString(0));
    }
  }

  // ----- Commands that fail are logged and skipped

  /** The entries whose command works, where the first has the given number among all commands. */
  function Working(es: seq<Row>, works: nat -> bool, n: nat): seq<Row> {
    if es == [] then []
    else Working(es[..|es| - 1], works, n) + if works(n + |es| - 1) then [es[|es| - 1]] else []
  }

  /** The table after trying to write the entries in order. */
  function Written(rows: seq<Row>, es: seq<Row>, works: nat -> bool, n: nat): seq<Row> {
    Run(rows, Working(es, works, n))
  }

  lemma {:induction false} WorkingConcat(a: seq<Row>, b: seq<Row>, works: nat -> bool, n: nat)
    ensures Working(a + b, works, n) == Working(a, works, n) + Working(b, works, n + |a|)
  {
    if b == [] {
      assert a + b == a;
    } else {
      var b' := b[..|b| - 1];
      WorkingConcat(a, b', works, n);
      assert (a + b)[..|a + b| - 1] == a + b';
    }
  }

  lemma {:induction false} WrittenConcat(rows: seq<Row>, a: seq<Row>, b: seq<Row>, works: nat -> bool, n: nat)
    ensures Written(rows, a + b, works, n) == Written(Written(rows, a, works, n), b, works, n + |a|)
  {
    WorkingConcat(a, b, works, n);
    RunConcat(rows, Working(a, works, n), Working(b, works, n + |a|));
  }

  lemma {:induction false} WrittenMore(rows: seq<Row>, es: seq<Row>, e: Row, works: nat -> bool, n: nat)
    ensures Written(rows, es + [e], works, n)
         == if works(n + |es|) then Put(Written(rows, es, works, n), e) else Written(rows, es, works, n)
  {
    var before := Working(es, works, n);
    assert (es + [e])[..|es|] == es;
    assert (before + [e])[..|before|] == before;
    assert before + [] == before;
  }

  lemma {:induction false} WorkingWithin(es: seq<Row>, works: nat -> bool, n: nat, r: Row)
    requires r in Working(es, works, n)
    ensures r in es
  {
    if r in Working(es[..|es| - 1], works, n) {
      WorkingWithin(es[..|es| - 1], works, n, r);
    }
  }

  /** Without failures everything is written. */
  lemma {:induction false} AllWork(es: seq<Row>, works: nat -> bool, n: nat)
    requires forall k: nat :: works(k)
    ensures Working(es, works, n) == es
  {
    if es != [] {
      AllWork(es[..|es| - 1], works, n);
      assert es == es[..|es| - 1] + [es[|es| - 1]];
    }
  }

  lemma {:induction false} RunRows(rows: seq<Row>, es: seq<Row>, r: Row)
    requires r in Run(rows, es)
    ensures r in rows || r in es
  {
    if es != [] {
      var before := Run(rows, es[..|es| - 1]);
      if r != es[|es| - 1] {
        assert r in before;
        RunRows(rows, es[..|es| - 1], r);
      }
    }
  }

  lemma {:induction false} WrittenRows(rows: seq<Row>, gp: Policy, at: Place, works: nat -> bool, n: nat, r: Row)
    requires r in Written(rows, Entries(gp, at), works, n)
    ensures r in rows || (IsEntry(gp, at, r) && r in Working(Entries(gp, at), works, n))
  {
    RunRows(rows, Working(Entries(gp, at), works, n), r);
    if r !in rows {
      WorkingWithin(Entries(gp, at), works, n, r);
      EntriesAre(gp, at, r);
    }
  }

  /** Whatever fails, what is allowed afterwards is allowed by the policy or was allowed before. */
  lemma {:induction false} FailuresNeverWiden(env: Env, rows: seq<Row>, gp: Policy, at: Place, works: nat -> bool, n: nat, p: Packet)
    requires Plain(gp) && Reads(env, gp) && IsWord(at.group) && AllowsBy(env, Written(rows, Entries(gp, at), works, n), at.owner, p)
    ensures Allowed(env, gp, at.group, p) || AllowsBy(env, rows, at.owner, p)
  {
    var after := Written(rows, Entries(gp, at), works, n);
    var i :| 0 <= i < |after| && after[i].key.owner == at.owner && Matches(env, after[i].text, p);
    WrittenRows(rows, gp, at, works, n, after[i]);
    if after[i] in rows {
      var k :| 0 <= k < |rows| && rows[k] == after[i];
    } else {
      EntryAllows(env, gp, at, after[i], p);
      AsReadIsLess(env, gp, at.group, p);
    }
  }

  lemma {:induction false} InWorking(es: seq<Row>, works: nat -> bool, n: nat, r: Row)
    ensures r in Working(es, works, n) <==> exists k | 0 <= k < |es| :: es[k] == r && works(n + k)
  {
    if es != [] {
      var before, last := es[..|es| - 1], |es| - 1;
      InWorking(before, works, n, r);
      InSum(r, Working(before, works, n), if works(n + last) then [es[last]] else []);
      if k :| 0 <= k < |es| && es[k] == r && works(n + k) {
        assert k < last ==> before[k] == r;
      }
      if k :| 0 <= k < |before| && before[k] == r && works(n + k) {
        assert es[k] == r;
      }
    }
  }

  /** Some command about this key works. */
  ghost predicate KeyWorks(es: seq<Row>, works: nat -> bool, n: nat, key: Key) {
    exists k | 0 <= k < |es| :: es[k].key == key && works(n + k)
  }

  /** The commands of a first run leave exactly the policy's entries if and only if for each key one of them works;
      a port listed twice gives a key two commands. */
  lemma {:induction false} ExactWithFailuresIff(rows: seq<Row>, gp: Policy, at: Place, works: nat -> bool, n: nat)
    requires Unique(rows) && forall i | 0 <= i < |rows| :: rows[i].key.owner != at.owner
    ensures Exact(Written(rows, Entries(gp, at), works, n), gp, at)
       <==> forall i | 0 <= i < |Entries(gp, at)| :: KeyWorks(Entries(gp, at), works, n, Entries(gp, at)[i].key)
  {
    var es, after := Entries(gp, at), Written(rows, Entries(gp, at), works, n);
    RunUnique(rows, Working(es, works, n));
    forall r | r in after && r.key.owner == at.owner
      ensures IsEntry(gp, at, r) && r in Working(es, works, n)
    {
      WrittenRows(rows, gp, at, works, n, r);
    }
    forall i | 0 <= i < |es|
      ensures IsEntry(gp, at, es[i]) && es[i].key.owner == at.owner
      ensures es[i] in after <==> KeyWorks(es, works, n, es[i].key)
    {
      EntriesAre(gp, at, es[i]);
      var _ := KeyIndex(gp, at, es[i]);
      WrittenIffKeyWorks(rows, gp, at, works, n, i);
    }
    forall r | IsEntry(gp, at, r)
      ensures r in es
    {
      EntryIsListed(gp, at, r);
    }
  }

  lemma {:induction false} WrittenIffKeyWorks(rows: seq<Row>, gp: Policy, at: Place, works: nat -> bool, n: nat, i: nat)
    requires (forall k | 0 <= k < |rows| :: rows[k].key.owner != at.owner) && i < |Entries(gp, at)|
    requires Entries(gp, at)[i].key.owner == at.owner
    ensures Entries(gp, at)[i] in Written(rows, Entries(gp, at), works, n)
       <==> KeyWorks(Entries(gp, at), works, n, Entries(gp, at)[i].key)
  {
    var es, r := Entries(gp, at), Entries(gp, at)[i];
    InWorking(es, works, n, r);
    EntriesConsistent(gp, at);
    if r in Written(rows, es, works, n) {
      WrittenRows(rows, gp, at, works, n, r);
    }
    if k :| 0 <= k < |es| && es[k].key == r.key && works(n + k) {
      assert es[k] == r;
      WorkingConsistent(gp, at, works, n);
      ListedIsWritten(rows, Working(es, works, n), r);
    }
  }

  lemma {:induction false} WorkingConsistent(gp: Policy, at: Place, works: nat -> bool, n: nat)
    ensures Consistent(Working(Entries(gp, at), works, n))
  {
    var es, ws := Entries(gp, at), Working(Entries(gp, at), works, n);
    EntriesConsistent(gp, at);
    forall i, k | 0 <= i < |ws| && 0 <= k < |ws| && ws[i].key == ws[k].key
      ensures ws[i].text == ws[k].text
    {
      WorkingWithin(es, works, n, ws[i]);
      WorkingWithin(es, works, n, ws[k]);
    }
  }

  /** The next run without failures repairs what failed, while peers are selected. */
  lemma {:induction false} RetryRepairs(env: Env, rows: seq<Row>, gp: Policy, at: Place, works: nat -> bool, n: nat, p: Packet)
    requires Unique(rows) && Plain(gp) && Reads(env, gp) && IsWord(at.group) && SelectsPeers(gp)
    requires forall i | 0 <= i < |rows| && rows[i].key.owner == at.owner :: UsableKey(gp, at, rows[i].key)
    ensures var after := Run(Written(rows, Entries(gp, at), works, n), Entries(gp, at));
            Exact(after, gp, at) && Enforced(env, after, gp, at, p)
  {
    var tried := Written(rows, Entries(gp, at), works, n);
    RunUnique(rows, Working(Entries(gp, at), works, n));
    forall i | 0 <= i < |tried| && tried[i].key.owner == at.owner
      ensures UsableKey(gp, at, tried[i].key)
    {
      WrittenRows(rows, gp, at, works, n, tried[i]);
      if tried[i] !in rows {
        EntryKeyUsable(gp, gp, at, tried[i]);
      }
    }
    ExactAfterRunIff(tried, gp, at);
    ExactAllows(env, Run(tried, Entries(gp, at)), gp, at, p);
  }

  // ----- Address sets of namespaces

  function WithSet(gp: Policy, v4: string, v6: string): Policy {
    gp.(v4Sets := if gp.ipv4Mode then gp.v4Sets + {v4} else gp.v4Sets,
        v6Sets := if gp.ipv6Mode then gp.v6Sets + {v6} else gp.v6Sets)
  }

  function WithoutSet(gp: Policy, v4: string, v6: string): Policy {
    gp.(v4Sets := if gp.ipv4Mode then gp.v4Sets - {v4} else gp.v4Sets,
        v6Sets := if gp.ipv6Mode then gp.v6Sets - {v6} else gp.v6Sets)
  }

  predicate HasEither(gp: Policy, v4: string, v6: string) {
    v4 in gp.v4Sets || v6 in gp.v6Sets
  }

  /** Removing a set that was added as a new one gives the old policy back. */
  lemma {:induction false} RemoveUndoesAdd(gp: Policy, v4: string, v6: string)
    requires !HasEither(gp, v4, v6)
    ensures WithoutSet(WithSet(gp, v4, v6), v4, v6) == gp
    ensures HasEither(WithSet(gp, v4, v6), v4, v6) <==> gp.ipv4Mode || gp.ipv6Mode
  {
    assert gp.v4Sets + {v4} - {v4} == gp.v4Sets;
    assert gp.v6Sets + {v6} - {v6} == gp.v6Sets;
  }

  /** Once there are address sets, one more allows its members and nothing else. */
  lemma {:induction false} AddWidens(env: Env, gp: Policy, v4: string, v6: string, group: string, p: Packet)
    requires HasSets(gp)
    ensures Allowed(env, WithSet(gp, v4, v6), group, p) <==>
              || Allowed(env, gp, group, p)
              || ((gp.ports == [] || PortsAllow(gp.ports, p)) && LocalPort(gp, p) in env.groups(group)
                  && (if p.src.v6 then gp.ipv6Mode && IsAmong(env, v6, Peer(gp, p))
                      else gp.ipv4Mode && IsAmong(env, v4, Peer(gp, p))))
  {
    var more := WithSet(gp, v4, v6);
    assert forall i | 0 <= i < |gp.blocks| :: InBlock(more, gp.blocks[i], p) == InBlock(gp, gp.blocks[i], p);
    assert ByBlock(more, p) == ByBlock(gp, p);
    assert HasSets(more);
    SetsWiden(env, gp, v4, v6, p);
  }

  lemma {:induction false} SetsWiden(env: Env, gp: Policy, v4: string, v6: string, p: Packet)
    ensures InSets(env, WithSet(gp, v4, v6), p) <==>
              InSets(env, gp, p) || (if p.src.v6 then gp.ipv6Mode && IsAmong(env, v6, Peer(gp, p))
                                     else gp.ipv4Mode && IsAmong(env, v4, Peer(gp, p)))
  {
    var more, a := WithSet(gp, v4, v6), Peer(gp, p);
    var before, after := if p.src.v6 then gp.v6Sets else gp.v4Sets, if p.src.v6 then more.v6Sets else more.v4Sets;
    var one, mode := if p.src.v6 then v6 else v4, if p.src.v6 then gp.ipv6Mode else gp.ipv4Mode;
    assert after == if mode then before + {one} else before;
    AnyMore(env, before, one, a);
    assert Peer(more, p) == a;
    assert InSets(env, more, p) <==> exists n <- after :: IsAmong(env, n, a);
    assert InSets(env, gp, p) <==> exists n <- before :: IsAmong(env, n, a);
  }

  lemma {:induction false} AnyMore(env: Env, names: set<string>, one: string, a: IP)
    ensures (exists n <- names + {one} :: IsAmong(env, n, a)) <==> (exists n <- names :: IsAmong(env, n, a)) || IsAmong(env, one, a)
  {
    assert one in names + {one};
  }

  // ----- The table and the policy as the controller keeps them

  class ACLTable {
    var rows: seq<Row>
    /** Which commands work, by number, and how many were given so far. */
    const works: nat -> bool
    var commands: nat

    constructor (works: nat -> bool)
      ensures rows == [] && this.works == works && commands == 0
    {
      rows, commands := [], 0;
      this.works := works;
    }

    /** Finds the row by its key and updates it, or creates it; if that fails the table stays as it was. */
    method AddOrModifyACLAllow(text: string, l4Match: string, owner: Owner, ipBlockCIDR: nat) returns (ok: bool)
      modifies this
      ensures commands == old(commands) + 1 && ok == works(old(commands))
      ensures rows == if ok then Put(old(rows), Row(Key(owner, l4Match, IPBlockCIDRString(ipBlockCIDR)), text)) else old(rows)
    {
      var ipBlockCIDRString: string;
      match ipBlockCIDR {
        case 0 => ipBlockCIDRString := "false";
        case 1 => ipBlockCIDRString := "true";
        case _ => ipBlockCIDRString := Decimal(ipBlockCIDR);
      }
      var key := Key(owner, l4Match, ipBlockCIDRString);
      ok, commands := works(commands), commands + 1;
      if !ok {
        return;
      }
      var uuid := Find(rows, key);
      if uuid < |rows| {
        rows := rows[uuid := rows[uuid].(text := text)];
      } else {
        rows := rows + [Row(key, text)];
      }
    }
  }

  /** The entries were tried, in order, from the table as it was. */
  ghost predicate Tried(was: seq<Row>, n: nat, rows: seq<Row>, commands: nat, works: nat -> bool, es: seq<Row>) {
    rows == Written(was, es, works, n) && commands == n + |es|
  }

  lemma {:induction false} TriedConcat(was: seq<Row>, n: nat, rows: seq<Row>, m: nat, after: seq<Row>, commands: nat,
                                       works: nat -> bool, a: seq<Row>, b: seq<Row>)
    requires Tried(was, n, rows, m, works, a) && Tried(rows, m, after, commands, works, b)
    ensures Tried(was, n, after, commands, works, a + b)
  {
    WrittenConcat(was, a, b, works, n);
  }

  lemma {:induction false} TriedOne(rows: seq<Row>, n: nat, e: Row, works: nat -> bool)
    ensures Tried(rows, n, if works(n) then Put(rows, e) else rows, n + 1, works, [e])
  {
    WrittenMore(rows, [], e, works, n);
    assert [] + [e] == [e];
  }

  /** The loop over the blocks. */
  method ConstructIPBlockStringsForACL(direction: string, blocks: seq<IPBlock>, lportMatch: string, l4Match: string)
      returns (texts: seq<string>)
    ensures |texts| == |blocks|
    ensures forall i | 0 <= i < |blocks| :: texts[i] == ACLText(BlockText(direction, blocks[i]), l4Match, lportMatch)
  {
    texts := [];
    for i := 0 to |blocks|
      invariant |texts| == i
      invariant forall k | 0 <= k < i :: texts[k] == ACLText(BlockText(direction, blocks[k]), l4Match, lportMatch)
    {
      var b := blocks[i];
      var ipVersion := if b.cidr.block.v6 then "ip6." else "ip4.";
      var matchStr: string;
      if b.except == [] {
        matchStr := ipVersion + direction + " == " + b.cidr.text;
      } else {
        matchStr := ipVersion + direction + " == " + b.cidr.text + " && " + (ipVersion + direction) + " != {" + Join(Texts(b.except)) + "}";
      }
      assert matchStr == BlockText(direction, b);
      if l4Match == NONE_MATCH {
        matchStr := matchStr + " && " + lportMatch;
      } else {
        matchStr := matchStr + " && " + l4Match + " && " + lportMatch;
      }
      texts := texts + [matchStr];
    }
  }

  lemma {:induction false} BlockEntriesMore(gp: Policy, at: Place, e: Option<PortEntry>, i: nat)
    requires Known(e) && i < |gp.blocks|
    ensures BlockEntries(gp, at, e, i + 1) == BlockEntries(gp, at, e, i) + [BlockEntry(gp, at, e, i)]
  {
  }

  /** The entries of the first i ports were tried. */
  ghost predicate TriedListed(was: seq<Row>, n: nat, rows: seq<Row>, commands: nat, works: nat -> bool, gp: Policy, at: Place, i: nat)
    requires i <= |gp.ports|
  {
    Tried(was, n, rows, commands, works, ListedEntries(gp, at, i))
  }

  lemma {:induction false} TriedListedMore(was: seq<Row>, n: nat, rows: seq<Row>, m: nat, after: seq<Row>, commands: nat,
                                           works: nat -> bool, gp: Policy, at: Place, i: nat)
    requires i < |gp.ports| && TriedListed(was, n, rows, m, works, gp, at, i)
    requires Tried(rows, m, after, commands, works, EntriesAt(gp, at, i))
    ensures TriedListed(was, n, after, commands, works, gp, at, i + 1)
  {
    TriedConcat(was, n, rows, m, after, commands, works, ListedEntries(gp, at, i), EntriesAt(gp, at, i));
  }

  class Gress {
    const owner: Owner
    const ipv4Mode: bool
    const ipv6Mode: bool
    var peerV4AddressSets: set<string>
    var peerV6AddressSets: set<string>
    var portPolicies: seq<PortEntry>
    var ipBlock: seq<IPBlock>

    constructor (owner: Owner, ipv4Mode: bool, ipv6Mode: bool)
      ensures this.owner == owner
      ensures Value() == Policy(owner.ingress, ipv4Mode, ipv6Mode, {}, {}, [], [])
    {
      this.owner, this.ipv4Mode, this.ipv6Mode := owner, ipv4Mode, ipv6Mode;
      peerV4AddressSets, peerV6AddressSets, portPolicies, ipBlock := {}, {}, [], [];
    }

    function Value(): Policy
      reads this
    {
      Policy(owner.ingress, ipv4Mode, ipv6Mode, peerV4AddressSets, peerV6AddressSets, portPolicies, ipBlock)
    }

    method AddPortPolicy(port: PortEntry)
      modifies this
      ensures Value() == old(Value()).(ports := old(portPolicies) + [port])
    {
      portPolicies := portPolicies + [port];
    }

    method AddIPBlock(b: IPBlock)
      modifies this
      ensures Value() == old(Value()).(blocks := old(ipBlock) + [b])
    {
      ipBlock := ipBlock + [b];
    }

    /** False, and nothing changes, if the policy has the namespace's set already. */
    method AddNamespaceAddressSet(v4Hash: string, v6Hash: string) returns (added: bool)
      modifies this`peerV4AddressSets, this`peerV6AddressSets
      ensures added == !HasEither(old(Value()), "$" + v4Hash, "$" + v6Hash)
      ensures Value() == if added then WithSet(old(Value()), "$" + v4Hash, "$" + v6Hash) else old(Value())
    {
      var v4HashName, v6HashName := "$" + v4Hash, "$" + v6Hash;
      if v4HashName in peerV4AddressSets || v6HashName in peerV6AddressSets {
        return false;
      }
      if ipv4Mode {
        peerV4AddressSets := peerV4AddressSets + {v4HashName};
      }
      if ipv6Mode {
        peerV6AddressSets := peerV6AddressSets + {v6HashName};
      }
      return true;
    }

    /** False, and nothing changes, if the policy does not have the namespace's set. */
    method DelNamespaceAddressSet(v4Hash: string, v6Hash: string) returns (removed: bool)
      modifies this`peerV4AddressSets, this`peerV6AddressSets
      ensures removed == HasEither(old(Value()), "$" + v4Hash, "$" + v6Hash)
      ensures Value() == if removed then WithoutSet(old(Value()), "$" + v4Hash, "$" + v6Hash) else old(Value())
    {
      var v4HashName, v6HashName := "$" + v4Hash, "$" + v6Hash;
      if v4HashName !in peerV4AddressSets && v6HashName !in peerV6AddressSets {
        return false;
      }
      if ipv4Mode {
        peerV4AddressSets := peerV4AddressSets - {v4HashName};
      }
      if ipv6Mode {
        peerV6AddressSets := peerV6AddressSets - {v6HashName};
      }
      return true;
    }

    /** One ACL a block. */
    method BlockACLs(table: ACLTable, group: string, lportMatch: string, l4Match: string, ghost e: Option<PortEntry>)
      requires Known(e) && l4Match == L4Text(e) && lportMatch == LportMatch(Value(), group)
      modifies table
      ensures Tried(old(table.rows), old(table.commands), table.rows, table.commands, table.works,
                    BlockEntries(Value(), Place(owner, group), e, |ipBlock|))
    {
      ghost var gp, at, was, n := Value(), Place(owner, group), table.rows, table.commands;
      var direction := if owner.ingress then "src" else "dst";
      var cidrMatches := ConstructIPBlockStringsForACL(direction, ipBlock, lportMatch, l4Match);
      for i := 0 to |cidrMatches|
        invariant Tried(was, n, table.rows, table.commands, table.works, BlockEntries(gp, at, e, i))
      {
        ghost var rows, m := table.rows, table.commands;
        var _ := table.AddOrModifyACLAllow(cidrMatches[i], l4Match, owner, i + 1);
        TriedOne(rows, m, BlockEntry(gp, at, e, i), table.works);
        BlockEntriesMore(gp, at, e, i);
        TriedConcat(was, n, rows, m, table.rows, table.commands, table.works, BlockEntries(gp, at, e, i), [BlockEntry(gp, at, e, i)]);
      }
    }

    /** The selectors' ACL of one port condition. */
    method SelectorACL(table: ACLTable, group: string, l3Match: string, lportMatch: string, l4Match: string, ghost e: Option<PortEntry>)
      requires Known(e) && l4Match == L4Text(e)
      requires l3Match == GetL3MatchFromAddressSet(Value()) && lportMatch == LportMatch(Value(), group)
      modifies table
      ensures Tried(old(table.rows), old(table.commands), table.rows, table.commands, table.works,
                    if SelectsPeers(Value()) then [SelectorEntry(Value(), Place(owner, group), e)] else [])
    {
      if |peerV4AddressSets| + |peerV6AddressSets| > 0 || |ipBlock| == 0 {
        var text := if l4Match == NONE_MATCH then l3Match + " && " + lportMatch
                    else l3Match + " && " + l4Match + " && " + lportMatch;
        TriedOne(table.rows, table.commands, SelectorEntry(Value(), Place(owner, group), e), table.works);
        var _ := table.AddOrModifyACLAllow(text, l4Match, owner, 0);
      }
    }

    /** The ACLs of one port condition: the blocks' and then the selectors'. */
    method PortACLs(table: ACLTable, group: string, l3Match: string, lportMatch: string, l4Match: string, ghost e: Option<PortEntry>)
      requires Known(e) && l4Match == L4Text(e)
      requires l3Match == GetL3MatchFromAddressSet(Value()) && lportMatch == LportMatch(Value(), group)
      modifies table
      ensures Tried(old(table.rows), old(table.commands), table.rows, table.commands, table.works,
                    PortEntries(Value(), Place(owner, group), e))
    {
      ghost var gp, at, was, n := Value(), Place(owner, group), table.rows, table.commands;
      if |ipBlock| > 0 {
        BlockACLs(table, group, lportMatch, l4Match, e);
      }
      ghost var rows, m := table.rows, table.commands;
      SelectorACL(table, group, l3Match, lportMatch, l4Match, e);
      TriedConcat(was, n, rows, m, table.rows, table.commands, table.works, BlockEntries(gp, at, e, |gp.blocks|),
                  if SelectsPeers(gp) then [SelectorEntry(gp, at, e)] else []);
    }

    /** One listed port; one with an unknown protocol is skipped. */
    method ListedACL(table: ACLTable, group: string, l3Match: string, lportMatch: string, i: nat, ghost was: seq<Row>, ghost n: nat)
      requires l3Match == GetL3MatchFromAddressSet(Value()) && lportMatch == LportMatch(Value(), group)
      requires i < |portPolicies|
      requires TriedListed(was, n, table.rows, table.commands, table.works, Value(), Place(owner, group), i)
      modifies table
      ensures TriedListed(was, n, table.rows, table.commands, table.works, Value(), Place(owner, group), i + 1)
    {
      ghost var rows, m := table.rows, table.commands;
      var l4Match := GetL4Match(portPolicies[i]);
      if l4Match.Some? {
        PortACLs(table, group, l3Match, lportMatch, l4Match.value, Some(portPolicies[i]));
      }
      TriedListedMore(was, n, rows, m, table.rows, table.commands, table.works, Value(), Place(owner, group), i);
    }

    /** The loop over the listed ports. */
    method ListedACLs(table: ACLTable, group: string, l3Match: string, lportMatch: string)
      requires l3Match == GetL3MatchFromAddressSet(Value()) && lportMatch == LportMatch(Value(), group)
      modifies table
      ensures TriedListed(old(table.rows), old(table.commands), table.rows, table.commands, table.works,
                          Value(), Place(owner, group), |portPolicies|)
    {
      ghost var was, n := table.rows, table.commands;
      for i := 0 to |portPolicies|
        invariant TriedListed(was, n, table.rows, table.commands, table.works, Value(), Place(owner, group), i)
      {
        ListedACL(table, group, l3Match, lportMatch, i, was, n);
      }
    }

    /** Tries to write the policy's entries in order; a command that fails leaves its row as it was. */
    method LocalPodSetACL(table: ACLTable, group: string)
      modifies table
      ensures table.rows == Written(old(table.rows), Entries(Value(), Place(owner, group)), table.works, old(table.commands))
    {
      ghost var gp, at, was, n := Value(), Place(owner, group), table.rows, table.commands;
      var l3Match := GetL3MatchFromAddressSet(Value());
      var lportMatch := LportMatch(Value(), group);
      if |portPolicies| == 0 {
        PortACLs(table, group, l3Match, lportMatch, NONE_MATCH, None);
      }
      ghost var rows, m := table.rows, table.commands;
      ListedACLs(table, group, l3Match, lportMatch);
      TriedConcat(was, n, rows, m, table.rows, table.commands, table.works,
                  if gp.ports == [] then PortEntries(gp, at, None) else [], ListedEntries(gp, at, |gp.ports|));
    }
  }
}
