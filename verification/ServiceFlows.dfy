/** nodePortWatcher of pkg/node/gateway_shared_intf.go: the flow cache's keys follow the services. */
module ServiceFlows {
  import opened Wrappers
  import opened OvnExpr
  import opened FlowManager

  datatype ServicePort = ServicePort(protocol: string, port: nat, nodePort: nat)

  datatype ServiceType = ClusterIP | NodePort | LoadBalancer | ExternalName

  /** The parts of a service that matter here; rest stands for all others. */
  datatype Service = Service(
    namespace: string,
    name: string,
    kind: ServiceType,
    clusterIP: string,
    ports: seq<ServicePort>,
    externalIPs: seq<string>,
    ingress: seq<string>,
    rest: string)

  /** The address modes and net.ParseIP with its canonical text. */
  datatype Config = Config(ipv4Mode: bool, ipv6Mode: bool, parse: string -> Option<string>)

  /** A DNS label has no underscore. */
  predicate Label(s: string) {
    '_' !in s
  }

  predicate Named(svc: Service) {
    Label(svc.namespace) && Label(svc.name)
  }

  predicate HasClusterIP(svc: Service) {
    svc.kind != ExternalName && svc.clusterIP != "None" && svc.clusterIP != ""
  }

  // ----- Keys

  function Key(kind: string, namespace: string, name: string, what: string, port: nat): string {
    kind + "_" + (namespace + "_" + (name + "_" + (what + "_" + Decimal(port))))
  }

  /** Up to the first underscore, and what follows it. */
  function Cut(s: string): (string, string) {
    if s == "" then ("", "")
    else if s[0] == '_' then ("", s[1..])
    else ([s[0]] + Cut(s[1..]).0, Cut(s[1..]).1)
  }

  lemma {:induction false} CutLabel(a: string, rest: string)
    requires Label(a)
    ensures Cut(a + "_" + rest) == (a, rest)
  {
    var s := a + "_" + rest;
    if a == "" {
      assert s[1..] == rest;
    } else {
      CutLabel(a[1..], rest);
      assert s[1..] == a[1..] + "_" + rest;
      assert [a[0]] + a[1..] == a;
    }
  }

  /** The three kinds of service keys. */
  const KINDS: set<string> := {"NodePort", "Ingress", "External"}

  function Owner(key: string): (string, string, string) {
    var (kind, more) := Cut(key);
    var (namespace, rest) := Cut(more);
    (kind, namespace, Cut(rest).0)
  }

  /** The joined key tells its kind and its service. */
  lemma {:induction false} KeyTellsOwner(kind: string, namespace: string, name: string, what: string, port: nat)
    requires kind in KINDS && Label(namespace) && Label(name)
    ensures Owner(Key(kind, namespace, name, what, port)) == (kind, namespace, name)
  {
    var tail := what + "_" + Decimal(port);
    CutLabel(name, tail);
    CutLabel(namespace, name + "_" + tail);
    CutLabel(kind, namespace + "_" + (name + "_" + tail));
    assert name + "_" + tail == name + "_" + (what + "_" + Decimal(port));
  }

  /** strings.ToLower for the protocol names. */
  function ToLower(s: string): string {
    seq(|s|, i requires 0 <= i < |s| => if 'A' <= s[i] <= 'Z' then s[i] - 'A' + 'a' else s[i])
  }

  function FlowProtocols(config: Config, protocol: string): seq<string> {
    (if config.ipv4Mode then [protocol] else []) + (if config.ipv6Mode then [protocol + "6"] else [])
  }

  function NodePortKeysFor(svc: Service, p: ServicePort, protocols: seq<string>): set<string> {
    set f | f in protocols :: Key("NodePort", svc.namespace, svc.name, f, p.nodePort)
  }

  function NodePortKeys(config: Config, svc: Service, p: ServicePort): set<string> {
    if p.nodePort > 0 then NodePortKeysFor(svc, p, FlowProtocols(config, ToLower(p.protocol))) else {}
  }

  function IngressKeys(config: Config, svc: Service, p: ServicePort, ingress: seq<string>): set<string> {
    set ip | ip in ingress && ip != "" && config.parse(ip).Some? :: Key("Ingress", svc.namespace, svc.name, config.parse(ip).value, p.port)
  }

  function ExternalKeys(svc: Service, p: ServicePort, externalIPs: seq<string>): set<string> {
    set ip | ip in externalIPs :: Key("External", svc.namespace, svc.name, ip, p.port)
  }

  function PortKeys(config: Config, svc: Service, p: ServicePort): set<string> {
    NodePortKeys(config, svc, p) + IngressKeys(config, svc, p, svc.ingress) + ExternalKeys(svc, p, svc.externalIPs)
  }

  /** The keys of the first ports. */
  function KeysUpTo(config: Config, svc: Service, n: nat): set<string>
    requires n <= |svc.ports|
  {
    set i, key | 0 <= i < n && key in PortKeys(config, svc, svc.ports[i]) :: key
  }

  function Keys(config: Config, svc: Service): set<string> {
    KeysUpTo(config, svc, |svc.ports|)
  }

  lemma {:induction false} PortKeysOwner(config: Config, svc: Service, p: ServicePort, key: string)
    requires Named(svc) && key in PortKeys(config, svc, p)
    ensures Owner(key).0 in KINDS && Owner(key).1 == svc.namespace && Owner(key).2 == svc.name
  {
    if key in NodePortKeys(config, svc, p) {
      var f :| f in FlowProtocols(config, ToLower(p.protocol)) && key == Key("NodePort", svc.namespace, svc.name, f, p.nodePort);
      KeyTellsOwner("NodePort", svc.namespace, svc.name, f, p.nodePort);
    } else if key in IngressKeys(config, svc, p, svc.ingress) {
      var ip :| ip in svc.ingress && ip != "" && config.parse(ip).Some?
        && key == Key("Ingress", svc.namespace, svc.name, config.parse(ip).value, p.port);
      KeyTellsOwner("Ingress", svc.namespace, svc.name, config.parse(ip).value, p.port);
    } else {
      var ip :| ip in svc.externalIPs && key == Key("External", svc.namespace, svc.name, ip, p.port);
      KeyTellsOwner("External", svc.namespace, svc.name, ip, p.port);
    }
  }

  lemma {:induction false} KeysOwner(config: Config, svc: Service, key: string)
    requires Named(svc) && key in Keys(config, svc)
    ensures Owner(key).0 in KINDS && Owner(key).1 == svc.namespace && Owner(key).2 == svc.name
  {
    var i :| 0 <= i < |svc.ports| && key in PortKeys(config, svc, svc.ports[i]);
    PortKeysOwner(config, svc, svc.ports[i], key);
  }

  /** Different services have no key in common. */
  lemma {:induction false} KeysDisjoint(config: Config, a: Service, b: Service)
    requires Named(a) && Named(b) && (a.namespace, a.name) != (b.namespace, b.name)
    ensures Keys(config, a) !! Keys(config, b)
  {
    forall key | key in Keys(config, a) && key in Keys(config, b)
      ensures false
    {
      KeysOwner(config, a, key);
      KeysOwner(config, b, key);
    }
  }

  /** A port of a service gives this key: for its node port in a served family, for an ingress address that parses, or
      for an external address. */
  ghost predicate GivesKey(config: Config, svc: Service, p: ServicePort, key: string) {
    || (p.nodePort > 0 && config.ipv4Mode && key == Key("NodePort", svc.namespace, svc.name, ToLower(p.protocol), p.nodePort))
    || (p.nodePort > 0 && config.ipv6Mode && key == Key("NodePort", svc.namespace, svc.name, ToLower(p.protocol) + "6", p.nodePort))
    || (exists ip | ip in svc.ingress && ip != "" && config.parse(ip).Some? ::
          key == Key("Ingress", svc.namespace, svc.name, config.parse(ip).value, p.port))
    || exists ip | ip in svc.externalIPs :: key == Key("External", svc.namespace, svc.name, ip, p.port)
  }

  /** A service's keys are those its ports give. */
  lemma {:induction false} KeysIff(config: Config, svc: Service, key: string)
    ensures key in Keys(config, svc) <==> exists i | 0 <= i < |svc.ports| :: GivesKey(config, svc, svc.ports[i], key)
  {
    forall i | 0 <= i < |svc.ports|
      ensures key in PortKeys(config, svc, svc.ports[i]) <==> GivesKey(config, svc, svc.ports[i], key)
    {
      ProtocolsAre(config, ToLower(svc.ports[i].protocol));
    }
    if i :| 0 <= i < |svc.ports| && GivesKey(config, svc, svc.ports[i], key) {
      assert key in PortKeys(config, svc, svc.ports[i]);
    }
  }

  lemma {:induction false} ProtocolsAre(config: Config, protocol: string)
    ensures forall f :: f in FlowProtocols(config, protocol) <==>
              (config.ipv4Mode && f == protocol) || (config.ipv6Mode && f == protocol + "6")
  {
  }

  // ----- Runs of service events

  datatype Event = Added(svc: Service) | Updated(was: Service, now: Service) | Deleted(svc: Service)

  type Live = map<(string, string), Service>

  function Id(svc: Service): (string, string) {
    (svc.namespace, svc.name)
  }

  /** Events follow each other as the informer delivers them. */
  predicate Follows(live: Live, e: Event) {
    match e
    case Added(svc) => Named(svc) && Id(svc) !in live
    case Updated(was, now) => Id(was) in live && live[Id(was)] == was && Id(now) == Id(was)
    case Deleted(svc) => Id(svc) in live && live[Id(svc)] == svc
  }

  function After(live: Live, e: Event): Live {
    match e
    case Added(svc) => live[Id(svc) := svc]
    case Updated(_, now) => live[Id(now) := now]
    case Deleted(svc) => live - {Id(svc)}
  }

  /** UpdateService's skip test. */
  predicate Unchanged(was: Service, now: Service) {
    now.ports == was.ports && now.externalIPs == was.externalIPs && now.clusterIP == was.clusterIP
    && now.kind == was.kind && now.ingress == was.ingress
  }

  function WithService(config: Config, keys: set<string>, svc: Service): set<string> {
    if HasClusterIP(svc) then keys + Keys(config, svc) else keys
  }

  function WithoutService(config: Config, keys: set<string>, svc: Service): set<string> {
    if HasClusterIP(svc) then keys - Keys(config, svc) else keys
  }

  /** What a handler does to the cache's keys. */
  function Handled(config: Config, keys: set<string>, e: Event): set<string> {
    match e
    case Added(svc) => WithService(config, keys, svc)
    case Updated(was, now) =>
      if Unchanged(was, now) then keys else WithService(config, WithoutService(config, keys, was), now)
    case Deleted(svc) => WithoutService(config, keys, svc)
  }

  /** The keys are the base keys and those of live services with a cluster IP. */
  ghost predicate Agree(config: Config, base: set<string>, live: Live, keys: set<string>) {
    && (forall id | id in live :: Id(live[id]) == id && Named(live[id]))
    && (forall key <- base :: Owner(key).0 !in KINDS)
    && (forall key :: key in keys <==> key in base || exists id :: id in live && HasClusterIP(live[id]) && key in Keys(config, live[id]))
  }

  /** A key of a service belongs to no base entry and to no other live service. */
  lemma {:induction false} KeyIsOwned(config: Config, base: set<string>, live: Live, keys: set<string>, svc: Service, key: string)
    requires Agree(config, base, live, keys) && Named(svc) && key in Keys(config, svc)
    ensures key !in base
    ensures forall id | id in live && key in Keys(config, live[id]) :: id == Id(svc)
  {
    KeysOwner(config, svc, key);
    forall id | id in live && key in Keys(config, live[id])
      ensures id == Id(svc)
    {
      KeysOwner(config, live[id], key);
    }
  }

  lemma {:induction false} AddKeeps(config: Config, base: set<string>, live: Live, keys: set<string>, svc: Service)
    requires Agree(config, base, live, keys) && Named(svc) && Id(svc) !in live
    ensures Agree(config, base, live[Id(svc) := svc], WithService(config, keys, svc))
  {
    var after, t := live[Id(svc) := svc], WithService(config, keys, svc);
    forall key
      ensures key in t <==> key in base || exists id :: id in after && HasClusterIP(after[id]) && key in Keys(config, after[id])
    {
      if id :| id in live && HasClusterIP(live[id]) && key in Keys(config, live[id]) {
        assert after[id] == live[id];
      }
      assert after[Id(svc)] == svc;
    }
  }

  lemma {:induction false} RemoveKeeps(config: Config, base: set<string>, live: Live, keys: set<string>, svc: Service)
    requires Agree(config, base, live, keys) && Id(svc) in live && live[Id(svc)] == svc
    ensures Agree(config, base, live - {Id(svc)}, WithoutService(config, keys, svc))
  {
    var after, t := live - {Id(svc)}, WithoutService(config, keys, svc);
    forall key
      ensures key in t <==> key in base || exists id :: id in after && HasClusterIP(after[id]) && key in Keys(config, after[id])
    {
      if key in Keys(config, svc) {
        KeyIsOwned(config, base, live, keys, svc, key);
      }
      if id :| id in live && HasClusterIP(live[id]) && key in Keys(config, live[id]) {
        assert id != Id(svc) ==> id in after && after[id] == live[id];
      }
    }
  }

  /** The skip test is sound: what it lets through has the same keys and the same cluster IP status. */
  lemma {:induction false} UnchangedKeys(config: Config, was: Service, now: Service)
    requires Unchanged(was, now) && Id(was) == Id(now)
    ensures Keys(config, now) == Keys(config, was) && HasClusterIP(now) == HasClusterIP(was)
  {
    assert now == was.(rest := now.rest);
    forall key
      ensures key in Keys(config, now) <==> key in Keys(config, was)
    {
      if i :| 0 <= i < |was.ports| && key in PortKeys(config, was, was.ports[i]) {
        PortKeysOfUnchanged(config, was, now, was.ports[i], key);
      }
      if i :| 0 <= i < |now.ports| && key in PortKeys(config, now, now.ports[i]) {
        PortKeysOfUnchanged(config, was, now, now.ports[i], key);
      }
    }
  }

  lemma {:induction false} PortKeysOfUnchanged(config: Config, was: Service, now: Service, p: ServicePort, key: string)
    requires now == was.(rest := now.rest)
    ensures key in PortKeys(config, now, p) <==> key in PortKeys(config, was, p)
  {
    assert NodePortKeys(config, now, p) == NodePortKeys(config, was, p);
    assert IngressKeys(config, now, p, now.ingress) == IngressKeys(config, was, p, was.ingress);
    assert ExternalKeys(now, p, now.externalIPs) == ExternalKeys(was, p, was.externalIPs);
  }

  lemma {:induction false} KeysByPort(config: Config, svc: Service, n: nat)
    requires n < |svc.ports|
    ensures KeysUpTo(config, svc, n + 1) == KeysUpTo(config, svc, n) + PortKeys(config, svc, svc.ports[n])
  {
  }

  lemma {:induction false} StepKeeps(config: Config, base: set<string>, live: Live, keys: set<string>, e: Event)
    requires Agree(config, base, live, keys) && Follows(live, e)
    ensures Agree(config, base, After(live, e), Handled(config, keys, e))
  {
    match e
    case Added(svc) => AddKeeps(config, base, live, keys, svc);
    case Deleted(svc) => RemoveKeeps(config, base, live, keys, svc);
    case Updated(was, now) =>
      if Unchanged(was, now) {
        UnchangedKeeps(config, base, live, keys, was, now);
      } else {
        RemoveKeeps(config, base, live, keys, was);
        AddKeeps(config, base, live - {Id(was)}, WithoutService(config, keys, was), now);
        assert (live - {Id(was)})[Id(now) := now] == live[Id(now) := now];
      }
  }

  lemma {:induction false} UnchangedKeeps(config: Config, base: set<string>, live: Live, keys: set<string>, was: Service, now: Service)
    requires Agree(config, base, live, keys) && Follows(live, Updated(was, now)) && Unchanged(was, now)
    ensures Agree(config, base, live[Id(now) := now], keys)
  {
    var after := live[Id(now) := now];
    UnchangedKeys(config, was, now);
    forall key
      ensures key in keys <==> key in base || exists id :: id in after && HasClusterIP(after[id]) && key in Keys(config, after[id])
    {
      if id :| id in live && HasClusterIP(live[id]) && key in Keys(config, live[id]) {
        assert id in after && HasClusterIP(after[id]) && key in Keys(config, after[id]);
      }
      if id :| id in after && HasClusterIP(after[id]) && key in Keys(config, after[id]) {
        assert id in live && HasClusterIP(live[id]) && key in Keys(config, live[id]);
      }
    }
  }

  ghost predicate Run(config: Config, live: Live, keys: set<string>, es: seq<Event>, live': Live, keys': set<string>)
    decreases |es|
  {
    if es == [] then live' == live && keys' == keys
    else Follows(live, es[0]) && Run(config, After(live, es[0]), Handled(config, keys, es[0]), es[1..], live', keys')
  }

  /** After any run of service events the keys are the base keys and those of the live services with a cluster IP. */
  lemma {:induction false} RunsAgree(config: Config, base: set<string>, live: Live, keys: set<string>, es: seq<Event>,
                                     live': Live, keys': set<string>)
    requires Agree(config, base, live, keys) && Run(config, live, keys, es, live', keys')
    ensures Agree(config, base, live', keys')
    decreases |es|
  {
    if es != [] {
      StepKeeps(config, base, live, keys, es[0]);
      RunsAgree(config, base, After(live, es[0]), Handled(config, keys, es[0]), es[1..], live', keys');
    }
  }

  // ----- The watcher

  lemma {:induction false} NodePortMore(svc: Service, p: ServicePort, protocols: seq<string>, i: nat)
    requires i < |protocols|
    ensures NodePortKeysFor(svc, p, protocols[..i + 1])
         == NodePortKeysFor(svc, p, protocols[..i]) + {Key("NodePort", svc.namespace, svc.name, protocols[i], p.nodePort)}
  {
  }

  lemma {:induction false} IngressMore(config: Config, svc: Service, p: ServicePort, ingress: seq<string>, i: nat)
    requires i < |ingress|
    ensures IngressKeys(config, svc, p, ingress[..i + 1])
         == (var ip := config.parse(ingress[i]);
             IngressKeys(config, svc, p, ingress[..i])
             + if ingress[i] == "" || ip.None? then {} else {Key("Ingress", svc.namespace, svc.name, ip.value, p.port)})
  {
  }

  lemma {:induction false} ExternalMore(svc: Service, p: ServicePort, ips: seq<string>, i: nat)
    requires i < |ips|
    ensures ExternalKeys(svc, p, ips[..i + 1])
         == ExternalKeys(svc, p, ips[..i]) + {Key("External", svc.namespace, svc.name, ips[i], p.port)}
  {
  }

  /** The keys after setting or clearing some. */
  function Changed(keys: set<string>, add: bool, some: set<string>): set<string> {
    if add then keys + some else keys - some
  }

  /** These keys are set or cleared, and no other entry is touched. */
  predicate CacheMoved(was: Flows, now: Flows, add: bool, some: set<string>) {
    && now.Keys == Changed(was.Keys, add, some)
    && forall key | key in now && key !in some :: key in was && now[key] == was[key]
  }

  lemma {:induction false} CacheMovedOn(was: Flows, between: Flows, now: Flows, add: bool, some: set<string>, more: set<string>)
    requires CacheMoved(was, between, add, some) && CacheMoved(between, now, add, more)
    ensures CacheMoved(was, now, add, some + more)
  {
    assert now.Keys == Changed(was.Keys, add, some + more);
  }

  class NodePortWatcher {
    const ofm: OpenflowManager
    const config: Config

    constructor (ofm: OpenflowManager, config: Config)
      ensures this.ofm == ofm && this.config == config
    {
      this.ofm, this.config := ofm, config;
    }

    /** A thread's changes so far: these keys set or cleared, no other entry touched, no wake-up lost. */
    twostate predicate Moved(thread: nat, add: bool, some: set<string>)
      reads this, ofm
    {
      && CacheMoved(old(ofm.flowCache), ofm.flowCache, add, some)
      && old(ofm.owing) <= ofm.owing <= old(ofm.owing) + {thread}
      && (NoLostWakeUp(old(ofm.Value())) ==> NoLostWakeUp(ofm.Value()))
    }

    method SetKey(ghost thread: nat, key: string, add: bool, flows: seq<string>)
      modifies ofm`flowCache, ofm`owing
      ensures Moved(thread, add, {key})
    {
      if !add {
        if NoLostWakeUp(ofm.Value()) {
          FlowManager.StepKeeps(ofm.Value(), Step.Delete(thread, key));
        }
        ofm.DeleteFlowsByKey(thread, key);
      } else {
        if NoLostWakeUp(ofm.Value()) {
          FlowManager.StepKeeps(ofm.Value(), Step.Update(thread, key, flows));
        }
        ofm.UpdateFlowCacheEntry(thread, key, flows);
      }
    }

    method SetNodePortKeys(ghost thread: nat, svc: Service, p: ServicePort, add: bool, flows: string -> seq<string>)
      modifies ofm`flowCache, ofm`owing
      ensures Moved(thread, add, NodePortKeys(config, svc, p))
    {
      if p.nodePort > 0 {
        var flowProtocols := FlowProtocols(config, ToLower(p.protocol));
        for i := 0 to |flowProtocols|
          invariant Moved(thread, add, NodePortKeysFor(svc, p, flowProtocols[..i]))
        {
          var key := Key("NodePort", svc.namespace, svc.name, flowProtocols[i], p.nodePort);
          ghost var between := ofm.flowCache;
          NodePortMore(svc, p, flowProtocols, i);
          SetKey(thread, key, add, flows(key));
          CacheMovedOn(old(ofm.flowCache), between, ofm.flowCache, add, NodePortKeysFor(svc, p, flowProtocols[..i]), {key});
        }
        assert flowProtocols[..|flowProtocols|] == flowProtocols;
      }
    }

    method SetIngressKeys(ghost thread: nat, svc: Service, p: ServicePort, add: bool, flows: string -> seq<string>)
      modifies ofm`flowCache, ofm`owing
      ensures Moved(thread, add, IngressKeys(config, svc, p, svc.ingress))
    {
      for i := 0 to |svc.ingress|
        invariant Moved(thread, add, IngressKeys(config, svc, p, svc.ingress[..i]))
      {
        IngressMore(config, svc, p, svc.ingress, i);
        var ing := svc.ingress[i];
        if ing != "" && config.parse(ing).Some? {
          var key := Key("Ingress", svc.namespace, svc.name, config.parse(ing).value, p.port);
          ghost var between := ofm.flowCache;
          SetKey(thread, key, add, flows(key));
          CacheMovedOn(old(ofm.flowCache), between, ofm.flowCache, add, IngressKeys(config, svc, p, svc.ingress[..i]), {key});
        }
      }
      assert svc.ingress[..|svc.ingress|] == svc.ingress;
    }

    method SetExternalKeys(ghost thread: nat, svc: Service, p: ServicePort, add: bool, flows: string -> seq<string>)
      modifies ofm`flowCache, ofm`owing
      ensures Moved(thread, add, ExternalKeys(svc, p, svc.externalIPs))
    {
      for i := 0 to |svc.externalIPs|
        invariant Moved(thread, add, ExternalKeys(svc, p, svc.externalIPs[..i]))
      {
        var key := Key("External", svc.namespace, svc.name, svc.externalIPs[i], p.port);
        ghost var between := ofm.flowCache;
        ExternalMore(svc, p, svc.externalIPs, i);
        SetKey(thread, key, add, flows(key));
        CacheMovedOn(old(ofm.flowCache), between, ofm.flowCache, add, ExternalKeys(svc, p, svc.externalIPs[..i]), {key});
      }
      assert svc.externalIPs[..|svc.externalIPs|] == svc.externalIPs;
    }

    method SetPortKeys(ghost thread: nat, svc: Service, p: ServicePort, add: bool, flows: string -> seq<string>)
      modifies ofm`flowCache, ofm`owing
      ensures Moved(thread, add, PortKeys(config, svc, p))
    {
      SetNodePortKeys(thread, svc, p, add, flows);
      ghost var first := ofm.flowCache;
      SetIngressKeys(thread, svc, p, add, flows);
      ghost var second := ofm.flowCache;
      CacheMovedOn(old(ofm.flowCache), first, second, add, NodePortKeys(config, svc, p), IngressKeys(config, svc, p, svc.ingress));
      SetExternalKeys(thread, svc, p, add, flows);
      CacheMovedOn(old(ofm.flowCache), second, ofm.flowCache, add,
        NodePortKeys(config, svc, p) + IngressKeys(config, svc, p, svc.ingress), ExternalKeys(svc, p, svc.externalIPs));
    }

    /** updateServiceFlowCache: every port's keys, set or cleared. */
    method UpdateServiceFlowCache(ghost thread: nat, svc: Service, add: bool, flows: string -> seq<string>)
      modifies ofm`flowCache, ofm`owing
      ensures Moved(thread, add, Keys(config, svc))
    {
      for i := 0 to |svc.ports|
        invariant Moved(thread, add, KeysUpTo(config, svc, i))
      {
        ghost var between := ofm.flowCache;
        KeysByPort(config, svc, i);
        SetPortKeys(thread, svc, svc.ports[i], add, flows);
        CacheMovedOn(old(ofm.flowCache), between, ofm.flowCache, add, KeysUpTo(config, svc, i), PortKeys(config, svc, svc.ports[i]));
      }
    }

    method RequestSync(ghost thread: nat)
      modifies ofm`flowChan, ofm`owing
      ensures ofm.flowChan && ofm.owing == old(ofm.owing) - {thread}
      ensures NoLostWakeUp(old(ofm.Value())) ==> NoLostWakeUp(ofm.Value())
    {
      ofm.RequestFlowSync(thread);
    }

    /** A handler is done: the keys are as specified, the thread owes nothing, no wake-up is lost. */
    twostate predicate HandledBy(thread: nat, e: Event)
      reads this, ofm
    {
      && ofm.flowCache.Keys == Handled(config, old(ofm.flowCache).Keys, e)
      && (thread !in old(ofm.owing) ==> ofm.owing == old(ofm.owing))
      && (NoLostWakeUp(old(ofm.Value())) ==> NoLostWakeUp(ofm.Value()))
    }

    method AddService(ghost thread: nat, svc: Service, flows: string -> seq<string>)
      modifies ofm`flowCache, ofm`owing, ofm`flowChan
      ensures HandledBy(thread, Added(svc))
      ensures svc.kind != ExternalName && svc.clusterIP != "None" && svc.clusterIP != "" ==> Keys(config, svc) <= ofm.flowCache.Keys
    {
      if svc.kind == ExternalName || svc.clusterIP == "None" || svc.clusterIP == "" {
        return;
      }
      UpdateServiceFlowCache(thread, svc, true, flows);
      RequestSync(thread);
    }

    method DeleteService(ghost thread: nat, svc: Service, flows: string -> seq<string>)
      modifies ofm`flowCache, ofm`owing, ofm`flowChan
      ensures HandledBy(thread, Deleted(svc))
      ensures svc.kind != ExternalName && svc.clusterIP != "None" && svc.clusterIP != "" ==> Keys(config, svc) !! ofm.flowCache.Keys
    {
      if svc.kind == ExternalName || svc.clusterIP == "None" || svc.clusterIP == "" {
        return;
      }
      UpdateServiceFlowCache(thread, svc, false, flows);
      RequestSync(thread);
    }

    method UpdateService(ghost thread: nat, was: Service, now: Service, flows: string -> seq<string>)
      modifies ofm`flowCache, ofm`owing, ofm`flowChan
      ensures HandledBy(thread, Updated(was, now))
    {
      if Unchanged(was, now) {
        return;
      }
      var needFlowSync := false;
      if HasClusterIP(was) {
        UpdateServiceFlowCache(thread, was, false, flows);
        needFlowSync := true;
      }
      if HasClusterIP(now) {
        UpdateServiceFlowCache(thread, now, true, flows);
        needFlowSync := true;
      }
      if needFlowSync {
        RequestSync(thread);
      }
    }
  }
}
