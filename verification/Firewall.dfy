/** The host firewall: a small policy compiled into an ordered nftables chain, a first-match reading
    of that chain, and the proof that the two say the same. */
module Firewall {
  import opened Wrappers

  datatype Proto = Tcp | Udp | Icmp | Icmp6 | OtherProto

  datatype Family = Ip | Ip6

  datatype Port = Port(proto: Proto, port: nat)

  datatype Service = Service(id: string, ports: seq<Port>, alwaysOn: bool)

  const FIREWALL_SERVICES: seq<Service> := [
    Service("web", [Port(Tcp, 80), Port(Tcp, 443)], true),
    Service("ssh", [Port(Tcp, 22)], false),
    Service("smb", [Port(Tcp, 445), Port(Tcp, 139)], false),
    Service("nfs", [Port(Tcp, 2049), Port(Udp, 2049), Port(Tcp, 111), Port(Udp, 111)], false),
    Service("afp", [Port(Tcp, 548)], false),
    Service("discovery", [Port(Udp, 5353), Port(Udp, 3702), Port(Tcp, 5357)], false)
  ]

  datatype Config = Config(allowed: seq<string>, trustedNetworks: seq<string>, restrictToTrusted: bool)

  // ----- The chain and its meaning -------------------------------------------------------------

  datatype CtState = New | Established | Related | Invalid | Untracked

  datatype Packet = Packet(ct: CtState, loopback: bool, family: Family, source: nat, proto: Proto, sport: nat,
                           dport: nat)

  datatype Match =
    | CtEstablishedRelated
    | CtInvalid
    | IifLo
    | Saddr(family: Family, name: string)
    | IpProtocolIcmp
    | L4ProtoIcmp6
    | Sport(proto: Proto, port: nat)
    | Dport(proto: Proto, port: nat)

  datatype Verdict = Accept | Drop

  datatype Rule = Rule(matches: seq<Match>, verdict: Verdict)

  /** An interval set lists its networks; a dynamic one is filled by the running system. */
  datatype SetDecl =
    | Interval(name: string, family: Family, elements: seq<string>)
    | Dynamic(name: string, family: Family)

  datatype Ruleset = Ruleset(sets: seq<SetDecl>, input: seq<Rule>, policy: Verdict)

  /** The running kernel: which addresses a network covers, and what the dynamic sets hold now. */
  datatype Kernel = Kernel(covers: (string, nat) -> bool, dynamic: string -> set<nat>)

  ghost predicate InSet(sets: seq<SetDecl>, k: Kernel, name: string, address: nat) {
    exists d :: d in sets && d.name == name
      && (match d
          case Interval(_, _, elements) => exists n :: n in elements && k.covers(n, address)
          case Dynamic(_, _) => address in k.dynamic(name))
  }

  ghost predicate Holds(sets: seq<SetDecl>, k: Kernel, m: Match, p: Packet) {
    match m
    case CtEstablishedRelated => p.ct.Established? || p.ct.Related?
    case CtInvalid => p.ct.Invalid?
    case IifLo => p.loopback
    case Saddr(family, name) => p.family == family && InSet(sets, k, name, p.source)
    case IpProtocolIcmp => p.family.Ip? && p.proto.Icmp?
    case L4ProtoIcmp6 => p.proto.Icmp6?
    case Sport(proto, port) => p.proto == proto && p.sport == port
    case Dport(proto, port) => p.proto == proto && p.dport == port
  }

  /** A rule fires when all its tests hold. */
  ghost predicate AllHold(sets: seq<SetDecl>, k: Kernel, ms: seq<Match>, p: Packet) {
    forall m :: m in ms ==> Holds(sets, k, m, p)
  }

  /** The first rule that fires decides. */
  ghost function FirstMatch(sets: seq<SetDecl>, k: Kernel, rules: seq<Rule>, p: Packet): Option<Verdict> {
    if |rules| == 0 then None
    else if AllHold(sets, k, rules[0].matches, p) then Some(rules[0].verdict)
    else FirstMatch(sets, k, rules[1..], p)
  }

  ghost function Evaluate(rs: Ruleset, k: Kernel, p: Packet): Verdict {
    var v := FirstMatch(rs.sets, k, rs.input, p);
    if v.Some? then v.value else rs.policy
  }

  /** The declarations hang together: set names are distinct, a listed set has at least one element of
      its own family, and every set a rule looks into is declared for that family. */
  ghost predicate WellDeclared(rs: Ruleset) {
    && (forall i, j :: 0 <= i < j < |rs.sets| ==> rs.sets[i].name != rs.sets[j].name)
    && (forall d :: d in rs.sets && d.Interval? ==>
          d.elements != [] && forall n :: n in d.elements ==> FamilyOf(n) == d.family)
    && (forall r, m :: r in rs.input && m in r.matches && m.Saddr? ==>
          exists d :: d in rs.sets && d.name == m.name && d.family == m.family)
  }

  /** No two of the networks share an address, where `conflict` says which do. */
  ghost predicate NoConflict(conflict: (string, string) -> bool, networks: seq<string>) {
    forall i, j :: 0 <= i < j < |networks| ==> !conflict(networks[i], networks[j])
  }

  /** What nft insists on before it loads a ruleset of this form: sound declarations, and no two
      conflicting elements in an interval set, since none is declared with auto-merge. */
  ghost predicate Loads(rs: Ruleset, conflict: (string, string) -> bool) {
    && WellDeclared(rs)
    && forall d :: d in rs.sets && d.Interval? ==> NoConflict(conflict, d.elements)
  }

  // ----- The compiler ------------------------------------------------------------------------------

  function FamilyOf(cidr: string): Family {
    if ':' in cidr then Ip6 else Ip
  }

  function OfFamily(networks: seq<string>, family: Family): (some: seq<string>)
    ensures forall n :: n in some <==> n in networks && FamilyOf(n) == family
  {
    if |networks| == 0 then []
    else (if FamilyOf(networks[0]) == family then [networks[0]] else []) + OfFamily(networks[1..], family)
  }

  predicate IsOn(c: Config, s: Service) { s.alwaysOn || s.id in c.allowed }

  function EnabledOf(c: Config, services: seq<Service>): (some: seq<Service>)
    ensures forall s :: s in some <==> s in services && IsOn(c, s)
  {
    if |services| == 0 then []
    else (if IsOn(c, services[0]) then [services[0]] else []) + EnabledOf(c, services[1..])
  }

  predicate Restricted(c: Config) { c.restrictToTrusted && |c.trustedNetworks| > 0 }

  const TRUSTED4 := Saddr(Ip, "trusted4")
  const TRUSTED6 := Saddr(Ip6, "trusted6")

  /** One accept rule for each port and guard. */
  function PortRules(ports: seq<Port>, guards: seq<seq<Match>>): seq<Rule> {
    if |ports| == 0 then []
    else PortRules(ports[..|ports| - 1], guards) + GuardRules(ports[|ports| - 1], guards)
  }

  function GuardRules(p: Port, guards: seq<seq<Match>>): seq<Rule> {
    if |guards| == 0 then []
    else GuardRules(p, guards[..|guards| - 1]) + [Rule(guards[|guards| - 1] + [Dport(p.proto, p.port)], Accept)]
  }

  function ServiceRules(services: seq<Service>, guards: seq<seq<Match>>): seq<Rule> {
    if |services| == 0 then []
    else ServiceRules(services[..|services| - 1], guards) + PortRules(services[|services| - 1].ports, guards)
  }

  function TrustedSets(c: Config): seq<SetDecl> {
    var v4, v6 := OfFamily(c.trustedNetworks, Ip), OfFamily(c.trustedNetworks, Ip6);
    (if |v4| > 0 then [Interval("trusted4", Ip, v4)] else [])
      + (if |v6| > 0 then [Interval("trusted6", Ip6, v6)] else [])
  }

  function Sets(c: Config): seq<SetDecl> {
    TrustedSets(c) + [Dynamic("banned4", Ip), Dynamic("banned6", Ip6)]
  }

  /** A test for each family that has trusted networks. */
  function Guards(c: Config): seq<seq<Match>> {
    (if |OfFamily(c.trustedNetworks, Ip)| > 0 then [[TRUSTED4]] else [])
    + (if |OfFamily(c.trustedNetworks, Ip6)| > 0 then [[TRUSTED6]] else [])
  }

  /** What stands in every ruleset, before the configured part. */
  const FIXED_RULES: seq<Rule> := [
    Rule([CtEstablishedRelated], Accept),
    Rule([CtInvalid], Drop),
    Rule([IifLo], Accept),
    Rule([Saddr(Ip, "banned4")], Drop),
    Rule([Saddr(Ip6, "banned6")], Drop)
  ] + HOUSEKEEPING_RULES

  const HOUSEKEEPING_RULES: seq<Rule> := [
    Rule([IpProtocolIcmp], Accept),
    Rule([L4ProtoIcmp6], Accept),
    Rule([Sport(Udp, 67), Dport(Udp, 68)], Accept),
    Rule([Sport(Udp, 547), Dport(Udp, 546)], Accept)
  ]

  function TrustedRules(guards: seq<seq<Match>>): seq<Rule> {
    if |guards| == 0 then [] else TrustedRules(guards[..|guards| - 1]) + [Rule(guards[|guards| - 1], Accept)]
  }

  function ConfiguredRules(c: Config): seq<Rule> {
    var enabled := EnabledOf(c, FIREWALL_SERVICES);
    if Restricted(c) then ServiceRules(enabled, Guards(c))
    else TrustedRules(Guards(c)) + ServiceRules(enabled, [[]])
  }

  function Compiled(c: Config): Ruleset {
    Ruleset(Sets(c), FIXED_RULES + ConfiguredRules(c), Drop)
  }

  /** The ruleset is pushed line by line, service by service, port by port, guard by guard. */
  method GenerateRuleset(c: Config) returns (rs: Ruleset)
    ensures rs == Compiled(c)
  {
    hide *;
    var enabled := EnabledOf(c, FIREWALL_SERVICES);
    var v4, v6 := OfFamily(c.trustedNetworks, Ip), OfFamily(c.trustedNetworks, Ip6);
    var restricted := Restricted(c);
    var sets: seq<SetDecl> := [];
    var guards: seq<seq<Match>> := [];
    if |v4| > 0 {
      sets := sets + [Interval("trusted4", Ip, v4)];
      guards := guards + [[TRUSTED4]];
    }
    if |v6| > 0 {
      sets := sets + [Interval("trusted6", Ip6, v6)];
      guards := guards + [[TRUSTED6]];
    }
    SetsAndGuards(c, sets, guards);
    sets := sets + [Dynamic("banned4", Ip), Dynamic("banned6", Ip6)];
    var rules := FIXED_RULES;
    if restricted {
      var more := PushServices(enabled, guards);
      rules := rules + more;
    } else {
      TrustedRulesStart(guards);
      for i := 0 to |guards|
        invariant rules == FIXED_RULES + TrustedRules(guards[..i])
      {
        TrustedRulesStep(guards, i);
        rules := rules + [Rule(guards[i], Accept)];
      }
      assert guards[..|guards|] == guards;
      var more := PushServices(enabled, [[]]);
      rules := rules + more;
    }
    rs := Ruleset(sets, rules, Drop);
    CompiledIs(c, sets, guards, rules);
  }

  lemma SetsAndGuards(c: Config, sets: seq<SetDecl>, guards: seq<seq<Match>>)
    requires var v4, v6 := OfFamily(c.trustedNetworks, Ip), OfFamily(c.trustedNetworks, Ip6);
      && sets == (if |v4| > 0 then [Interval("trusted4", Ip, v4)] else [])
        + (if |v6| > 0 then [Interval("trusted6", Ip6, v6)] else [])
      && guards == (if |v4| > 0 then [[TRUSTED4]] else []) + (if |v6| > 0 then [[TRUSTED6]] else [])
    ensures sets == TrustedSets(c) && guards == Guards(c)
  {}

  lemma TrustedRulesStart(guards: seq<seq<Match>>)
    ensures TrustedRules(guards[..0]) == []
  {}

  lemma TrustedRulesStep(guards: seq<seq<Match>>, i: nat)
    requires i < |guards|
    ensures TrustedRules(guards[..i + 1]) == TrustedRules(guards[..i]) + [Rule(guards[i], Accept)]
  {
    assert guards[..i + 1][..i] == guards[..i];
  }

  lemma CompiledIs(c: Config, sets: seq<SetDecl>, guards: seq<seq<Match>>, rules: seq<Rule>)
    requires sets == TrustedSets(c) + [Dynamic("banned4", Ip), Dynamic("banned6", Ip6)] && guards == Guards(c)
    requires rules == (if Restricted(c) then FIXED_RULES + ServiceRules(EnabledOf(c, FIREWALL_SERVICES), guards)
                       else FIXED_RULES + TrustedRules(guards) + ServiceRules(EnabledOf(c, FIREWALL_SERVICES), [[]]))
    ensures Ruleset(sets, rules, Drop) == Compiled(c)
  {
    hide ServiceRules, TrustedRules, TrustedSets, Guards, EnabledOf;
  }

  method PushServices(services: seq<Service>, guards: seq<seq<Match>>) returns (rules: seq<Rule>)
    ensures rules == ServiceRules(services, guards)
  {
    hide *;
    rules := [];
    RulesStart(services, guards);
    for i := 0 to |services|
      invariant rules == ServiceRules(services[..i], guards)
    {
      ghost var before := rules;
      var ports := services[i].ports;
      PortsStart(ports, guards);
      for j := 0 to |ports|
        invariant rules == before + PortRules(ports[..j], guards)
      {
        ghost var sofar := rules;
        var p := ports[j];
        GuardsStart(p, guards);
        for g := 0 to |guards|
          invariant rules == sofar + GuardRules(p, guards[..g])
        {
          GuardsStep(p, guards, g);
          rules := rules + [Rule(guards[g] + [Dport(p.proto, p.port)], Accept)];
        }
        PortsStep(ports, guards, j);
        assert rules == before + (PortRules(ports[..j], guards) + GuardRules(p, guards));
      }
      ServicesStep(services, guards, i);
    }
    assert services[..|services|] == services;
  }

  lemma RulesStart(services: seq<Service>, guards: seq<seq<Match>>)
    ensures ServiceRules(services[..0], guards) == []
  {}

  lemma PortsStart(ports: seq<Port>, guards: seq<seq<Match>>)
    ensures PortRules(ports[..0], guards) == []
  {}

  lemma GuardsStart(p: Port, guards: seq<seq<Match>>)
    ensures GuardRules(p, guards[..0]) == []
  {}

  lemma GuardsStep(p: Port, guards: seq<seq<Match>>, g: nat)
    requires g < |guards|
    ensures GuardRules(p, guards[..g + 1])
      == GuardRules(p, guards[..g]) + [Rule(guards[g] + [Dport(p.proto, p.port)], Accept)]
  {
    assert guards[..g + 1][..g] == guards[..g];
  }

  lemma PortsStep(ports: seq<Port>, guards: seq<seq<Match>>, j: nat)
    requires j < |ports|
    ensures guards[..|guards|] == guards
    ensures PortRules(ports[..j + 1], guards) == PortRules(ports[..j], guards) + GuardRules(ports[j], guards)
  {
    hide GuardRules;
    assert ports[..j + 1][..j] == ports[..j];
  }

  lemma ServicesStep(services: seq<Service>, guards: seq<seq<Match>>, i: nat)
    requires i < |services|
    ensures services[i].ports[..|services[i].ports|] == services[i].ports
    ensures ServiceRules(services[..i + 1], guards)
      == ServiceRules(services[..i], guards) + PortRules(services[i].ports, guards)
  {
    hide PortRules;
    assert services[..i + 1][..i] == services[..i];
  }

  // ----- The policy ---------------------------------------------------------------------------------

  /** A network written with a colon is one of IPv6. */
  ghost predicate Trusted(c: Config, k: Kernel, p: Packet) {
    exists n :: n in c.trustedNetworks && k.covers(n, p.source) && p.family == if ':' in n then Ip6 else Ip
  }

  /** The ports of the services that are on; the web interface is always on. */
  predicate Served(c: Config, p: Packet) {
    || (p.proto.Tcp? && p.dport in {80, 443})
    || ("ssh" in c.allowed && p.proto.Tcp? && p.dport == 22)
    || ("smb" in c.allowed && p.proto.Tcp? && p.dport in {139, 445})
    || ("nfs" in c.allowed && (p.proto.Tcp? || p.proto.Udp?) && p.dport in {111, 2049})
    || ("afp" in c.allowed && p.proto.Tcp? && p.dport == 548)
    || ("discovery" in c.allowed && p.proto.Udp? && p.dport in {3702, 5353})
    || ("discovery" in c.allowed && p.proto.Tcp? && p.dport == 5357)
  }

  predicate Banned(k: Kernel, p: Packet) {
    p.source in k.dynamic(if p.family.Ip? then "banned4" else "banned6")
  }

  predicate Housekeeping(p: Packet) {
    || (p.family.Ip? && p.proto.Icmp?)
    || p.proto.Icmp6?
    || (p.proto.Udp? && (p.sport, p.dport) in {(67, 68), (547, 546)})
  }

  /** What the firewall is meant to do, without any chain. */
  ghost predicate Admits(c: Config, k: Kernel, p: Packet) {
    || p.ct.Established?
    || p.ct.Related?
    || (!p.ct.Invalid?
        && (p.loopback
            || (!Banned(k, p)
                && (Housekeeping(p)
                    || (if c.restrictToTrusted && c.trustedNetworks != [] then Trusted(c, k, p) && Served(c, p)
                        else Trusted(c, k, p) || Served(c, p))))))
  }

  // ----- The chain means the policy -------------------------------------------------------------------

  lemma {:induction false} FirstMatchConcat(sets: seq<SetDecl>, k: Kernel, a: seq<Rule>, b: seq<Rule>, p: Packet)
    ensures var v := FirstMatch(sets, k, a, p);
      FirstMatch(sets, k, a + b, p) == if v.Some? then v else FirstMatch(sets, k, b, p)
  {
    if |a| == 0 {
      assert a + b == b;
    } else {
      assert (a + b)[1..] == a[1..] + b;
      FirstMatchConcat(sets, k, a[1..], b, p);
    }
  }

  /** A list of accept rules accepts when some rule fires, and otherwise passes the packet on. */
  ghost predicate Passes(sets: seq<SetDecl>, k: Kernel, rules: seq<Rule>, p: Packet, accepted: bool) {
    FirstMatch(sets, k, rules, p) == if accepted then Some(Accept) else None
  }

  lemma PassesConcat(sets: seq<SetDecl>, k: Kernel, a: seq<Rule>, b: seq<Rule>, p: Packet, x: bool, y: bool)
    requires Passes(sets, k, a, p, x) && Passes(sets, k, b, p, y)
    ensures Passes(sets, k, a + b, p, x || y)
  {
    FirstMatchConcat(sets, k, a, b, p);
  }

  ghost predicate SomeGuard(sets: seq<SetDecl>, k: Kernel, guards: seq<seq<Match>>, p: Packet) {
    exists i :: 0 <= i < |guards| && AllHold(sets, k, guards[i], p)
  }

  lemma PassesOne(sets: seq<SetDecl>, k: Kernel, r: Rule, p: Packet)
    requires r.verdict.Accept?
    ensures Passes(sets, k, [r], p, AllHold(sets, k, r.matches, p))
  {
    assert [r][1..] == [];
    assert FirstMatch(sets, k, [], p) == None;
    hide AllHold;
  }

  lemma SomeGuardLast(sets: seq<SetDecl>, k: Kernel, guards: seq<seq<Match>>, p: Packet)
    requires |guards| > 0
    ensures SomeGuard(sets, k, guards, p)
       <==> SomeGuard(sets, k, guards[..|guards| - 1], p) || AllHold(sets, k, guards[|guards| - 1], p)
  {
    var front := guards[..|guards| - 1];
    hide AllHold;
    if SomeGuard(sets, k, front, p) {
      var i :| 0 <= i < |front| && AllHold(sets, k, front[i], p);
      assert guards[i] == front[i];
    }
    if SomeGuard(sets, k, guards, p) {
      var i :| 0 <= i < |guards| && AllHold(sets, k, guards[i], p);
      if i < |front| {
        assert front[i] == guards[i];
      }
    }
  }

  lemma GuardedPort(sets: seq<SetDecl>, k: Kernel, guard: seq<Match>, port: Port, p: Packet)
    ensures AllHold(sets, k, guard + [Dport(port.proto, port.port)], p)
       <==> AllHold(sets, k, guard, p) && port == Port(p.proto, p.dport)
  {
    var d := Dport(port.proto, port.port);
    var both := guard + [d];
    assert Holds(sets, k, d, p) <==> port == Port(p.proto, p.dport);
    assert forall m :: m in both <==> m in guard || m == d;
    if AllHold(sets, k, both, p) {
      assert d in both;
      assert forall m :: m in guard ==> m in both;
    }
  }

  lemma {:induction false} GuardRulesPass(sets: seq<SetDecl>, k: Kernel, port: Port, guards: seq<seq<Match>>, p: Packet)
    ensures Passes(sets, k, GuardRules(port, guards), p, port == Port(p.proto, p.dport)
                   && SomeGuard(sets, k, guards, p))
  {
    if |guards| > 0 {
      var front, last := guards[..|guards| - 1], guards[|guards| - 1];
      var r := Rule(last + [Dport(port.proto, port.port)], Accept);
      GuardRulesPass(sets, k, port, front, p);
      PassesOne(sets, k, r, p);
      GuardedPort(sets, k, last, port, p);
      SomeGuardLast(sets, k, guards, p);
      hide Passes, SomeGuard, AllHold;
      PassesConcat(sets, k, GuardRules(port, front), [r], p,
                   port == Port(p.proto, p.dport) && SomeGuard(sets, k, front, p), AllHold(sets, k, r.matches, p));
    }
  }

  lemma {:induction false} PortRulesPass(sets: seq<SetDecl>, k: Kernel, ports: seq<Port>, guards: seq<seq<Match>>,
                                         p: Packet)
    ensures Passes(sets, k, PortRules(ports, guards), p, Port(p.proto, p.dport) in ports
                   && SomeGuard(sets, k, guards, p))
  {
    if |ports| > 0 {
      var front, last := ports[..|ports| - 1], ports[|ports| - 1];
      assert ports == front + [last];
      PortRulesPass(sets, k, front, guards, p);
      GuardRulesPass(sets, k, last, guards, p);
      hide Passes, SomeGuard;
      PassesConcat(sets, k, PortRules(front, guards), GuardRules(last, guards), p,
                   Port(p.proto, p.dport) in front && SomeGuard(sets, k, guards, p),
                   last == Port(p.proto, p.dport) && SomeGuard(sets, k, guards, p));
    }
  }

  ghost predicate Listens(services: seq<Service>, p: Packet) {
    exists s :: s in services && Port(p.proto, p.dport) in s.ports
  }

  lemma {:induction false} ServiceRulesPass(sets: seq<SetDecl>, k: Kernel, services: seq<Service>,
                                            guards: seq<seq<Match>>, p: Packet)
    ensures Passes(sets, k, ServiceRules(services, guards), p, Listens(services, p) && SomeGuard(sets, k, guards, p))
  {
    if |services| > 0 {
      var front, last := services[..|services| - 1], services[|services| - 1];
      assert services == front + [last];
      ServiceRulesPass(sets, k, front, guards, p);
      PortRulesPass(sets, k, last.ports, guards, p);
      hide Passes, SomeGuard;
      PassesConcat(sets, k, ServiceRules(front, guards), PortRules(last.ports, guards), p,
                   Listens(front, p) && SomeGuard(sets, k, guards, p),
                   Port(p.proto, p.dport) in last.ports && SomeGuard(sets, k, guards, p));
    }
  }

  lemma {:induction false} TrustedRulesPass(sets: seq<SetDecl>, k: Kernel, guards: seq<seq<Match>>, p: Packet)
    ensures Passes(sets, k, TrustedRules(guards), p, SomeGuard(sets, k, guards, p))
  {
    if |guards| > 0 {
      var front, last := guards[..|guards| - 1], guards[|guards| - 1];
      TrustedRulesPass(sets, k, front, p);
      PassesOne(sets, k, Rule(last, Accept), p);
      SomeGuardLast(sets, k, guards, p);
      hide Passes, SomeGuard, AllHold;
      PassesConcat(sets, k, TrustedRules(front), [Rule(last, Accept)], p, SomeGuard(sets, k, front, p),
                   AllHold(sets, k, last, p));
    }
  }

  /** Each declared set holds exactly what the policy speaks of. */
  lemma TrustedSetHolds(c: Config, k: Kernel, family: Family, address: nat)
    ensures var name := if family.Ip? then "trusted4" else "trusted6";
      InSet(Sets(c), k, name, address) <==>
      exists n :: n in c.trustedNetworks && FamilyOf(n) == family && k.covers(n, address)
  {
    var name := if family.Ip? then "trusted4" else "trusted6";
    var some := OfFamily(c.trustedNetworks, family);
    hide OfFamily, FamilyOf;
    assert "trusted4"[7] == '4' && "trusted6"[7] == '6' && "banned4"[0] == 'b' && "banned6"[0] == 'b';
    if |some| > 0 {
      assert Interval(name, family, some) in Sets(c);
    }
  }

  lemma BannedSetHolds(c: Config, k: Kernel, family: Family, address: nat)
    ensures var name := if family.Ip? then "banned4" else "banned6";
      InSet(Sets(c), k, name, address) <==> address in k.dynamic(name)
  {
    var name := if family.Ip? then "banned4" else "banned6";
    hide OfFamily;
    assert "trusted4"[0] == 't' && "trusted6"[0] == 't' && "banned4"[0] == 'b' && "banned6"[0] == 'b';
    assert Dynamic(name, family) in Sets(c);
  }

  lemma SomeGuardIsTrusted(c: Config, k: Kernel, p: Packet)
    ensures SomeGuard(Sets(c), k, Guards(c), p) <==> Trusted(c, k, p)
  {
    TrustedSetHolds(c, k, p.family, p.source);
    var sets, guards := Sets(c), Guards(c);
    var mine := if p.family.Ip? then TRUSTED4 else TRUSTED6;
    assert AllHold(sets, k, [mine], p) <==> Trusted(c, k, p) by {
      assert mine in [mine];
      hide InSet, Sets;
    }
    GuardsAre(c, p);
    hide Sets, Guards, Trusted, OfFamily;
    if Trusted(c, k, p) {
      var i :| 0 <= i < |guards| && guards[i] == [mine];
      assert AllHold(sets, k, guards[i], p);
    }
    if SomeGuard(sets, k, guards, p) {
      var i :| 0 <= i < |guards| && AllHold(sets, k, guards[i], p);
      OtherFamilyFails(sets, k, guards[i], p);
    }
  }

  lemma GuardsAre(c: Config, p: Packet)
    ensures forall g :: g in Guards(c) ==> g == [TRUSTED4] || g == [TRUSTED6]
    ensures forall k :: Trusted(c, k, p) ==>
      exists i :: 0 <= i < |Guards(c)| && Guards(c)[i] == [if p.family.Ip? then TRUSTED4 else TRUSTED6]
  {
    var mine := if p.family.Ip? then TRUSTED4 else TRUSTED6;
    var some := OfFamily(c.trustedNetworks, p.family);
    hide OfFamily;
    forall k | Trusted(c, k, p) ensures exists i :: 0 <= i < |Guards(c)| && Guards(c)[i] == [mine] {
      var n :| n in c.trustedNetworks && k.covers(n, p.source) && p.family == if ':' in n then Ip6 else Ip;
      assert FamilyOf(n) == p.family;
      assert n in some;
      assert [mine] in Guards(c);
    }
  }

  lemma OtherFamilyFails(sets: seq<SetDecl>, k: Kernel, guard: seq<Match>, p: Packet)
    requires guard == [TRUSTED4] || guard == [TRUSTED6]
    requires AllHold(sets, k, guard, p)
    ensures guard == [if p.family.Ip? then TRUSTED4 else TRUSTED6]
  {
    assert guard[0] in guard;
    hide InSet;
  }

  /** The services the compiler finds on are those the policy speaks of. */
  lemma EnabledListens(c: Config, p: Packet)
    ensures Listens(EnabledOf(c, FIREWALL_SERVICES), p) <==> Served(c, p)
  {
    ServiceOnPort(c, p);
    hide IsOn, FIREWALL_SERVICES, Served;
    var services := FIREWALL_SERVICES;
    assert forall s :: s in EnabledOf(c, services) <==> s in services && IsOn(c, s);
  }

  lemma ServiceOnPort(c: Config, p: Packet)
    ensures (exists s :: s in FIREWALL_SERVICES && IsOn(c, s) && Port(p.proto, p.dport) in s.ports) <==> Served(c, p)
  {
    var services, port := FIREWALL_SERVICES, Port(p.proto, p.dport);
    assert forall s ::
        s in services <==> s in {services[0], services[1], services[2], services[3], services[4], services[5]};
    ServicePorts(port);
    assert IsOn(c, services[0]);
    assert forall k :: 1 <= k < 6 ==> (IsOn(c, services[k]) <==> services[k].id in c.allowed);
  }

  lemma ServicePorts(port: Port)
    ensures var s := FIREWALL_SERVICES;
      && |s| == 6
      && (s[1].id, s[2].id, s[3].id, s[4].id, s[5].id) == ("ssh", "smb", "nfs", "afp", "discovery")
      && (port in s[0].ports <==> port.proto.Tcp? && port.port in {80, 443})
      && (port in s[1].ports <==> port.proto.Tcp? && port.port == 22)
      && (port in s[2].ports <==> port.proto.Tcp? && port.port in {139, 445})
      && (port in s[3].ports <==> (port.proto.Tcp? || port.proto.Udp?) && port.port in {111, 2049})
      && (port in s[4].ports <==> port.proto.Tcp? && port.port == 548)
      && (port in s[5].ports <==>
            (port.proto.Udp? && port.port in {3702, 5353}) || (port.proto.Tcp? && port.port == 5357))
  {}

  lemma NoGuard(sets: seq<SetDecl>, k: Kernel, p: Packet)
    ensures SomeGuard(sets, k, [[]], p)
  {
    var none: seq<seq<Match>> := [[]];
    assert AllHold(sets, k, none[0], p);
  }

  lemma ConfiguredRulesPass(c: Config, k: Kernel, p: Packet)
    ensures Passes(Sets(c), k, ConfiguredRules(c), p,
                   if Restricted(c) then Trusted(c, k, p) && Served(c, p) else Trusted(c, k, p) || Served(c, p))
  {
    var enabled, sets := EnabledOf(c, FIREWALL_SERVICES), Sets(c);
    SomeGuardIsTrusted(c, k, p);
    EnabledListens(c, p);
    ServiceRulesPass(sets, k, enabled, Guards(c), p);
    ServiceRulesPass(sets, k, enabled, [[]], p);
    TrustedRulesPass(sets, k, Guards(c), p);
    NoGuard(sets, k, p);
    hide Passes, SomeGuard, Listens, Trusted, Served, Sets, Guards, EnabledOf, ServiceRules, TrustedRules;
    if !Restricted(c) {
      PassesConcat(sets, k, TrustedRules(Guards(c)), ServiceRules(enabled, [[]]), p, Trusted(c, k, p), Served(c, p));
    }
  }

  lemma OneTest(sets: seq<SetDecl>, k: Kernel, m: Match, v: Verdict, rest: seq<Rule>, p: Packet)
    ensures FirstMatch(sets, k, [Rule([m], v)] + rest, p)
         == if Holds(sets, k, m, p) then Some(v) else FirstMatch(sets, k, rest, p)
  {
    var rules := [Rule([m], v)] + rest;
    assert rules[1..] == rest && m in rules[0].matches;
    hide Holds;
  }

  lemma TwoTests(sets: seq<SetDecl>, k: Kernel, m: Match, n: Match, v: Verdict, rest: seq<Rule>, p: Packet)
    ensures FirstMatch(sets, k, [Rule([m, n], v)] + rest, p)
         == if Holds(sets, k, m, p) && Holds(sets, k, n, p) then Some(v) else FirstMatch(sets, k, rest, p)
  {
    var rules := [Rule([m, n], v)] + rest;
    assert rules[1..] == rest && m in rules[0].matches && n in rules[0].matches;
    hide Holds;
  }

  /** The rules for traffic the box started, its own loopback, and banned addresses. */
  lemma FirstRulesDecide(c: Config, k: Kernel, p: Packet)
    ensures FirstMatch(Sets(c), k, FIXED_RULES, p) ==
      if p.ct.Established? || p.ct.Related? then Some(Accept)
      else if p.ct.Invalid? then Some(Drop)
      else if p.loopback then Some(Accept)
      else if Banned(k, p) then Some(Drop)
      else FirstMatch(Sets(c), k, HOUSEKEEPING_RULES, p)
  {
    var sets, rest := Sets(c), HOUSEKEEPING_RULES;
    var b6 := [Rule([Saddr(Ip6, "banned6")], Drop)] + rest;
    var b4 := [Rule([Saddr(Ip, "banned4")], Drop)] + b6;
    var lo := [Rule([IifLo], Accept)] + b4;
    var bad := [Rule([CtInvalid], Drop)] + lo;
    assert FIXED_RULES == [Rule([CtEstablishedRelated], Accept)] + bad by {
      hide HOUSEKEEPING_RULES;
    }
    BannedSetHolds(c, k, p.family, p.source);
    hide FIXED_RULES, HOUSEKEEPING_RULES, FirstMatch, Sets, InSet;
    OneTest(sets, k, CtEstablishedRelated, Accept, bad, p);
    OneTest(sets, k, CtInvalid, Drop, lo, p);
    OneTest(sets, k, IifLo, Accept, b4, p);
    OneTest(sets, k, Saddr(Ip, "banned4"), Drop, b6, p);
    OneTest(sets, k, Saddr(Ip6, "banned6"), Drop, rest, p);
  }

  /** The rules for ICMP and DHCP replies. */
  lemma HousekeepingDecides(sets: seq<SetDecl>, k: Kernel, p: Packet)
    ensures FirstMatch(sets, k, HOUSEKEEPING_RULES, p) == if Housekeeping(p) then Some(Accept) else None
  {
    var v6 := [Rule([Sport(Udp, 547), Dport(Udp, 546)], Accept)] + [];
    var v4 := [Rule([Sport(Udp, 67), Dport(Udp, 68)], Accept)] + v6;
    var icmp6 := [Rule([L4ProtoIcmp6], Accept)] + v4;
    assert HOUSEKEEPING_RULES == [Rule([IpProtocolIcmp], Accept)] + icmp6;
    assert FirstMatch(sets, k, [], p) == None;
    hide HOUSEKEEPING_RULES, FirstMatch;
    OneTest(sets, k, IpProtocolIcmp, Accept, icmp6, p);
    OneTest(sets, k, L4ProtoIcmp6, Accept, v4, p);
    TwoTests(sets, k, Sport(Udp, 67), Dport(Udp, 68), Accept, v6, p);
    TwoTests(sets, k, Sport(Udp, 547), Dport(Udp, 546), Accept, [], p);
  }

  /** What the nine rules that stand in every ruleset decide. */
  lemma FixedRulesDecide(c: Config, k: Kernel, p: Packet)
    ensures FirstMatch(Sets(c), k, FIXED_RULES, p) ==
      if p.ct.Established? || p.ct.Related? then Some(Accept)
      else if p.ct.Invalid? then Some(Drop)
      else if p.loopback then Some(Accept)
      else if Banned(k, p) then Some(Drop)
      else if Housekeeping(p) then Some(Accept)
      else None
  {
    FirstRulesDecide(c, k, p);
    HousekeepingDecides(Sets(c), k, p);
    hide FirstMatch, Sets, Banned, Housekeeping;
  }

  /** The generated chain and the policy agree on every packet, whatever is banned at the moment. */
  lemma ChainIsPolicy(c: Config, k: Kernel, p: Packet)
    ensures Evaluate(Compiled(c), k, p).Accept? <==> Admits(c, k, p)
  {
    FixedRulesDecide(c, k, p);
    ConfiguredRulesPass(c, k, p);
    FirstMatchConcat(Sets(c), k, FIXED_RULES, ConfiguredRules(c), p);
    hide Sets, ConfiguredRules, FirstMatch, Banned, Housekeeping, Trusted, Served;
  }

  /** The web interface stays open whatever services are allowed: a new connection to it that nobody has banned
      is let in, from a trusted network only when the services are limited to those. */
  lemma WebStaysOpen(c: Config, k: Kernel, p: Packet)
    requires p.proto.Tcp? && p.dport in {80, 443} && p.ct.New? && !p.loopback && !Banned(k, p)
    ensures Evaluate(Compiled(c), k, p).Accept?
       <==> (c.restrictToTrusted && c.trustedNetworks != [] ==> Trusted(c, k, p))
  {
    ChainIsPolicy(c, k, p);
    hide Compiled, Evaluate, Banned, Trusted;
  }

  // ----- What an admin may rely on ----------------------------------------------------------------------

  /** Switching a service on never drops a packet that was let in before. */
  lemma EnablingNeverDrops(c: Config, id: string, k: Kernel, p: Packet)
    requires Evaluate(Compiled(c), k, p).Accept?
    ensures Evaluate(Compiled(c.(allowed := c.allowed + [id])), k, p).Accept?
  {
    var d := c.(allowed := c.allowed + [id]);
    ChainIsPolicy(c, k, p);
    ChainIsPolicy(d, k, p);
    hide Compiled, Evaluate, Banned, Housekeeping;
    assert Trusted(c, k, p) == Trusted(d, k, p);
    hide Trusted;
    assert forall s :: s in c.allowed ==> s in d.allowed;
  }

  /** Limiting the services to trusted networks never lets in a packet that was dropped before. */
  lemma RestrictingNeverAccepts(c: Config, k: Kernel, p: Packet)
    requires Evaluate(Compiled(c), k, p).Drop?
    ensures Evaluate(Compiled(c.(restrictToTrusted := true)), k, p).Drop?
  {
    var d := c.(restrictToTrusted := true);
    ChainIsPolicy(c, k, p);
    ChainIsPolicy(d, k, p);
    hide Compiled, Evaluate, Banned, Housekeeping;
    assert Trusted(c, k, p) == Trusted(d, k, p);
    SameServices(c, d, p);
  }

  /** Naming one more trusted network drops a packet that was let in before exactly when the services
      are limited to trusted networks, none was named yet, and the packet came to an open service port
      from outside the new network. */
  lemma NewNetworkDrops(c: Config, network: string, k: Kernel, p: Packet)
    requires Evaluate(Compiled(c), k, p).Accept?
    ensures Evaluate(Compiled(c.(trustedNetworks := c.trustedNetworks + [network])), k, p).Drop?
       <==> (c.restrictToTrusted && c.trustedNetworks == []
             && !(FamilyOf(network) == p.family && k.covers(network, p.source))
             && p.ct in {New, Untracked} && !p.loopback && !Housekeeping(p))
  {
    hide Compiled, Evaluate, Banned, Housekeeping, FamilyOf, Trusted, Served;
    var d := c.(trustedNetworks := c.trustedNetworks + [network]);
    ChainIsPolicy(c, k, p);
    ChainIsPolicy(d, k, p);
    NewNetworkTrusts(c, network, k, p);
    SameServices(c, d, p);
  }

  /** Naming the first network shuts an admin outside it out of SSH: the new connection to port 22
      was let in before and is dropped after. */
  lemma FirstNetworkShutsOut(k: Kernel, source: nat)
    requires !k.covers("10.0.0.0/8", source) && source !in k.dynamic("banned4")
    ensures var c, p := Config(["ssh"], [], true), Packet(New, false, Ip, source, Tcp, 50000, 22);
      && Evaluate(Compiled(c), k, p).Accept?
      && Evaluate(Compiled(c.(trustedNetworks := c.trustedNetworks + ["10.0.0.0/8"])), k, p).Drop?
  {
    hide Compiled, Evaluate, FIREWALL_SERVICES, FamilyOf, Trusted;
    var c, p := Config(["ssh"], [], true), Packet(New, false, Ip, source, Tcp, 50000, 22);
    ChainIsPolicy(c, k, p);
    NewNetworkDrops(c, "10.0.0.0/8", k, p);
  }

  lemma SameServices(c: Config, d: Config, p: Packet)
    requires c.allowed == d.allowed
    ensures Served(c, p) == Served(d, p)
  {}

  lemma NewNetworkTrusts(c: Config, network: string, k: Kernel, p: Packet)
    ensures Trusted(c.(trustedNetworks := c.trustedNetworks + [network]), k, p)
       <==> Trusted(c, k, p) || (FamilyOf(network) == p.family && k.covers(network, p.source))
    ensures Trusted(c, k, p) ==> |c.trustedNetworks| > 0
  {
    var d := c.(trustedNetworks := c.trustedNetworks + [network]);
    assert forall n :: n in d.trustedNetworks <==> n in c.trustedNetworks || n == network;
  }

  /** In every generated ruleset no set is missing, doubled, empty or of mixed families. */
  lemma AlwaysWellDeclared(c: Config)
    ensures WellDeclared(Compiled(c))
  {
    var rs := Compiled(c);
    SetsAreSound(c);
    forall r, m | r in rs.input && m in r.matches && m.Saddr?
      ensures exists d :: d in rs.sets && d.name == m.name && d.family == m.family
    {
      if r in FIXED_RULES {
        hide OfFamily;
        assert rs.sets[|rs.sets| - 2] == Dynamic("banned4", Ip) && rs.sets[|rs.sets| - 1] == Dynamic("banned6", Ip6);
        FixedSets(r, m);
      } else {
        ConfiguredSets(c, r, m);
      }
    }
  }

  /** The generated ruleset loads exactly when no two trusted networks of one family conflict. */
  lemma LoadsWithoutConflict(c: Config, conflict: (string, string) -> bool)
    ensures Loads(Compiled(c), conflict)
       <==> (forall i, j :: 0 <= i < j < |c.trustedNetworks|
               && FamilyOf(c.trustedNetworks[i]) == FamilyOf(c.trustedNetworks[j])
               ==> !conflict(c.trustedNetworks[i], c.trustedNetworks[j]))
  {
    AlwaysWellDeclared(c);
    ListedSets(c, conflict);
    FamilyConflicts(c.trustedNetworks, Ip, conflict);
    FamilyConflicts(c.trustedNetworks, Ip6, conflict);
    hide OfFamily, FamilyOf, NoConflict, WellDeclared, Sets, ConfiguredRules, FIXED_RULES;
  }

  lemma ListedSets(c: Config, conflict: (string, string) -> bool)
    ensures (forall d :: d in Sets(c) && d.Interval? ==> NoConflict(conflict, d.elements))
       <==> (NoConflict(conflict, OfFamily(c.trustedNetworks, Ip))
             && NoConflict(conflict, OfFamily(c.trustedNetworks, Ip6)))
  {
    var v4, v6 := OfFamily(c.trustedNetworks, Ip), OfFamily(c.trustedNetworks, Ip6);
    assert NoConflict(conflict, []);
    hide OfFamily, NoConflict;
    if |v4| > 0 {
      assert Interval("trusted4", Ip, v4) in Sets(c);
    }
    if |v6| > 0 {
      assert Interval("trusted6", Ip6, v6) in Sets(c);
    }
  }

  /** No two networks of the family conflict. */
  ghost predicate NoneOfFamily(conflict: (string, string) -> bool, networks: seq<string>, family: Family) {
    forall i, j :: (0 <= i < j < |networks| && FamilyOf(networks[i]) == family && FamilyOf(networks[j]) == family
      ==> !conflict(networks[i], networks[j]))
  }

  lemma {:induction false} FamilyConflicts(networks: seq<string>, family: Family, conflict: (string, string) -> bool)
    ensures NoConflict(conflict, OfFamily(networks, family)) <==> NoneOfFamily(conflict, networks, family)
  {
    if |networks| > 0 {
      var first, rest := networks[0], networks[1..];
      FamilyConflicts(rest, family, conflict);
      FirstAndRest(first, OfFamily(rest, family), conflict);
      FirstOfFamily(networks, family, conflict);
      SplitFamily(networks, family);
      hide NoConflict, NoneOfFamily, FamilyOf, OfFamily;
    }
  }

  lemma SplitFamily(networks: seq<string>, family: Family)
    requires |networks| > 0
    ensures var some := OfFamily(networks[1..], family);
      OfFamily(networks, family) == if FamilyOf(networks[0]) == family then [networks[0]] + some else some
  {
    hide FamilyOf;
    assert [] + OfFamily(networks[1..], family) == OfFamily(networks[1..], family);
  }

  lemma FirstAndRest(first: string, rest: seq<string>, conflict: (string, string) -> bool)
    ensures NoConflict(conflict, [first] + rest)
       <==> (forall n :: n in rest ==> !conflict(first, n)) && NoConflict(conflict, rest)
  {
    var all := [first] + rest;
    assert forall i :: 0 <= i < |rest| ==> rest[i] == all[i + 1];
    if NoConflict(conflict, all) {
      forall i, j | 0 <= i < j < |rest| ensures !conflict(rest[i], rest[j]) {
        assert !conflict(all[i + 1], all[j + 1]);
      }
      forall n | n in rest ensures !conflict(first, n) {
        var j :| 0 <= j < |rest| && rest[j] == n;
        assert !conflict(all[0], all[j + 1]);
      }
    }
  }

  lemma FirstOfFamily(networks: seq<string>, family: Family, conflict: (string, string) -> bool)
    requires |networks| > 0
    ensures NoneOfFamily(conflict, networks, family)
       <==> (FamilyOf(networks[0]) == family ==>
               forall n :: n in networks[1..] && FamilyOf(n) == family ==> !conflict(networks[0], n))
            && NoneOfFamily(conflict, networks[1..], family)
  {
    hide FamilyOf;
    var rest := networks[1..];
    assert forall i :: 0 <= i < |rest| ==> rest[i] == networks[i + 1];
    if NoneOfFamily(conflict, networks, family) {
      forall i, j | 0 <= i < j < |rest| && FamilyOf(rest[i]) == family && FamilyOf(rest[j]) == family
        ensures !conflict(rest[i], rest[j])
      {
        assert !conflict(networks[i + 1], networks[j + 1]);
      }
      if FamilyOf(networks[0]) == family {
        forall n | n in rest && FamilyOf(n) == family ensures !conflict(networks[0], n) {
          var j :| 0 <= j < |rest| && rest[j] == n;
          assert !conflict(networks[0], networks[j + 1]);
        }
      }
    }
  }

  /** A network and one inside it, which the settings accept together, make a ruleset that does not load. */
  lemma NestedNetworksDoNotLoad(c: Config, conflict: (string, string) -> bool)
    requires c.trustedNetworks == ["10.0.0.0/8", "10.1.0.0/16"] && conflict("10.0.0.0/8", "10.1.0.0/16")
    ensures WellDeclared(Compiled(c)) && !Loads(Compiled(c), conflict)
  {
    AlwaysWellDeclared(c);
    LoadsWithoutConflict(c, conflict);
    hide Loads, WellDeclared, Compiled;
    assert FamilyOf(c.trustedNetworks[0]) == FamilyOf(c.trustedNetworks[1]) == Ip;
  }

  lemma FixedSets(r: Rule, m: Match)
    requires r in FIXED_RULES && m in r.matches && m.Saddr?
    ensures m == Saddr(Ip, "banned4") || m == Saddr(Ip6, "banned6")
  {}

  lemma SetsAreSound(c: Config)
    ensures var sets := Sets(c);
      && (forall i, j :: 0 <= i < j < |sets| ==> sets[i].name != sets[j].name)
      && (forall d :: d in sets && d.Interval? ==>
          d.elements != [] && forall n :: n in d.elements ==> FamilyOf(n) == d.family)
  {
    var v4, v6 := OfFamily(c.trustedNetworks, Ip), OfFamily(c.trustedNetworks, Ip6);
    hide OfFamily, FamilyOf;
    assert "trusted4"[0] == 't' && "trusted6"[0] == 't' && "banned4"[0] == 'b' && "banned6"[0] == 'b';
    assert "trusted4"[7] == '4' && "trusted6"[7] == '6' && "banned4"[6] == '4' && "banned6"[6] == '6';
  }

  ghost predicate UsesOnly(rules: seq<Rule>, guards: seq<seq<Match>>) {
    forall r, m :: r in rules && m in r.matches && m.Saddr? ==> exists g :: g in guards && m in g
  }

  lemma {:induction false} GuardRulesUse(port: Port, guards: seq<seq<Match>>, all: seq<seq<Match>>)
    requires forall g :: g in guards ==> g in all
    ensures UsesOnly(GuardRules(port, guards), all)
  {
    if |guards| > 0 {
      GuardRulesUse(port, guards[..|guards| - 1], all);
      assert guards[|guards| - 1] in all;
    }
  }

  lemma {:induction false} PortRulesUse(ports: seq<Port>, guards: seq<seq<Match>>)
    ensures UsesOnly(PortRules(ports, guards), guards)
  {
    if |ports| > 0 {
      PortRulesUse(ports[..|ports| - 1], guards);
      GuardRulesUse(ports[|ports| - 1], guards, guards);
    }
  }

  lemma {:induction false} ServiceRulesUse(services: seq<Service>, guards: seq<seq<Match>>)
    ensures UsesOnly(ServiceRules(services, guards), guards)
  {
    if |services| > 0 {
      ServiceRulesUse(services[..|services| - 1], guards);
      PortRulesUse(services[|services| - 1].ports, guards);
    }
  }

  lemma {:induction false} TrustedRulesUse(guards: seq<seq<Match>>, all: seq<seq<Match>>)
    requires forall g :: g in guards ==> g in all
    ensures UsesOnly(TrustedRules(guards), all)
  {
    if |guards| > 0 {
      TrustedRulesUse(guards[..|guards| - 1], all);
      assert guards[|guards| - 1] in all;
    }
  }

  lemma ConfiguredSets(c: Config, r: Rule, m: Match)
    requires r in ConfiguredRules(c) && m in r.matches && m.Saddr?
    ensures exists d :: d in Sets(c) && d.name == m.name && d.family == m.family
  {
    var enabled, guards := EnabledOf(c, FIREWALL_SERVICES), Guards(c);
    ServiceRulesUse(enabled, guards);
    ServiceRulesUse(enabled, [[]]);
    TrustedRulesUse(guards, guards);
    hide EnabledOf, ServiceRules, TrustedRules;
    var g :| g in guards && m in g;
    GuardIsDeclared(c, g, m);
  }

  lemma GuardIsDeclared(c: Config, g: seq<Match>, m: Match)
    requires g in Guards(c) && m in g
    ensures m.Saddr? && exists d :: d in Sets(c) && d.name == m.name && d.family == m.family
  {
    var v4, v6 := OfFamily(c.trustedNetworks, Ip), OfFamily(c.trustedNetworks, Ip6);
    hide OfFamily;
    if |v4| > 0 {
      assert Interval("trusted4", Ip, v4) in Sets(c);
    }
    if |v6| > 0 {
      assert Interval("trusted6", Ip6, v6) in Sets(c);
    }
  }
}
