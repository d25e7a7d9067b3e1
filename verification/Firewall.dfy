/** Compiling a device snapshot, user rules and port lists to nftables chains, what the chains
    mean, and the check that the kernel still has them. */
module Firewall {
  import opened Bytes

  // ----- packets, rules, first-verdict evaluation -----

  datatype Proto = Tcp | Udp | OtherProto

  datatype Flow = New | Established | Related | InvalidFlow

  datatype Packet = Packet(iif: string, smac: string, daddr: string, proto: Proto, dport: nat, flow: Flow)

  datatype Match =
    | Iif(name: string)
    | Saddr(mac: string)
    | DaddrNot(addr: string)
    | Dport(proto: Proto, port: nat)
    | CtEstablished
    | CtNew
    | Custom(test: Packet -> bool, text: string)  // the match part of a user rule's line

  datatype Verdict = Accept | Drop | Reject | Dnat(addr: string) | DnatPort(addr: string, port: nat) | Redirect(port: nat)

  datatype Rule = Rule(matches: seq<Match>, verdict: Verdict)

  predicate Hit(m: Match, p: Packet) {
    match m
    case Iif(name) => p.iif == name
    case Saddr(mac) => p.smac == mac
    case DaddrNot(addr) => p.daddr != addr
    case Dport(proto, port) => p.proto == proto && p.dport == port
    case CtEstablished => p.flow == Established || p.flow == Related
    case CtNew => p.flow == New
    case Custom(test, _) => test(p)
  }

  predicate Fires(r: Rule, p: Packet) {
    forall i :: 0 <= i < |r.matches| ==> Hit(r.matches[i], p)
  }

  lemma FiresOne(m: Match, v: Verdict, p: Packet)
    ensures Fires(Rule([m], v), p) <==> Hit(m, p)
  {
    assert Rule([m], v).matches[0] == m;
  }

  /** The verdict of the first rule that fires. */
  function Eval(chain: seq<Rule>, p: Packet): Option<Verdict> {
    if chain == [] then None
    else if Fires(chain[0], p) then Some(chain[0].verdict)
    else Eval(chain[1..], p)
  }

  lemma {:induction false} EvalConcat(a: seq<Rule>, b: seq<Rule>, p: Packet)
    ensures Eval(a + b, p) == if Eval(a, p).Some? then Eval(a, p) else Eval(b, p)
  {
    if a == [] {
      assert a + b == b;
    } else {
      assert (a + b)[1..] == a[1..] + b;
      EvalConcat(a[1..], b, p);
    }
  }

  // ----- inputs of the generator -----

  /** A row of firewall_rules: `lines` are the match parts buildRuleLines emits for it. */
  datatype UserRule = UserRule(enabled: bool, forwardRule: bool, lines: seq<Match>, action: Verdict)

  datatype Snapshot = Snapshot(filtered: seq<string>, open: seq<string>, blocked: seq<string>)

  datatype Config = Config(lan: string, gateway: string, upstream: string, sniPort: nat)

  // ----- the generated forward chain -----

  function SaddrRules(macs: seq<string>, v: Verdict): seq<Rule> {
    if macs == [] then [] else [Rule([Saddr(macs[0])], v)] + SaddrRules(macs[1..], v)
  }

  function LineRules(lines: seq<Match>, v: Verdict): seq<Rule> {
    if lines == [] then [] else [Rule([lines[0]], v)] + LineRules(lines[1..], v)
  }

  function UserRules(rules: seq<UserRule>): seq<Rule> {
    if rules == [] then []
    else (if rules[0].enabled && rules[0].forwardRule then LineRules(rules[0].lines, rules[0].action) else []) + UserRules(rules[1..])
  }

  function PortRule(port: nat, mac: string, proto: Proto): Rule {
    Rule([Saddr(mac), Dport(proto, port), CtNew], Accept)
  }

  function PortRow(port: nat, macs: seq<string>, proto: Proto): seq<Rule> {
    if macs == [] then [] else [PortRule(port, macs[0], proto)] + PortRow(port, macs[1..], proto)
  }

  function PortRules(ports: seq<nat>, macs: seq<string>, proto: Proto): seq<Rule> {
    if ports == [] then [] else PortRow(ports[0], macs, proto) + PortRules(ports[1..], macs, proto)
  }

  function ForwardChain(rules: seq<UserRule>, snap: Snapshot, udp: seq<nat>, tcp: seq<nat>): seq<Rule> {
    [Rule([CtEstablished], Accept)]
    + SaddrRules(snap.blocked, Drop)
    + SaddrRules(snap.open, Accept)
    + UserRules(rules)
    + PortRules(udp, snap.filtered, Udp)
    + PortRules(tcp, snap.filtered, Tcp)
    + [Rule([CtNew], Drop), Rule([], Drop)]
  }

  /** The generator appends section by section; each section is a loop or a nested loop. */
  method GenerateForward(rules: seq<UserRule>, snap: Snapshot, udp: seq<nat>, tcp: seq<nat>) returns (b: seq<Rule>)
    ensures b == ForwardChain(rules, snap, udp, tcp)
  {
    b := [Rule([CtEstablished], Accept)];
    b := AppendDevices(b, snap.blocked, Drop);
    b := AppendDevices(b, snap.open, Accept);
    b := AppendUserRules(b, rules);
    b := AppendPorts(b, udp, snap.filtered, Udp);
    b := AppendPorts(b, tcp, snap.filtered, Tcp);
    b := b + [Rule([CtNew], Drop), Rule([], Drop)];
  }

  method AppendDevices(b0: seq<Rule>, macs: seq<string>, v: Verdict) returns (b: seq<Rule>)
    ensures b == b0 + SaddrRules(macs, v)
  {
    b := b0;
    for i := 0 to |macs|
      invariant b + SaddrRules(macs[i..], v) == b0 + SaddrRules(macs, v)
    {
      assert macs[i..][1..] == macs[i + 1..];
      b := b + [Rule([Saddr(macs[i])], v)];
    }
  }

  method AppendUserRules(b0: seq<Rule>, rules: seq<UserRule>) returns (b: seq<Rule>)
    ensures b == b0 + UserRules(rules)
  {
    b := b0;
    for i := 0 to |rules|
      invariant b + UserRules(rules[i..]) == b0 + UserRules(rules)
    {
      assert rules[i..][1..] == rules[i + 1..];
      ghost var before := b;
      var r := rules[i];
      if !r.enabled || !r.forwardRule {
        assert UserRules(rules[i..]) == UserRules(rules[i + 1..]);
        continue;
      }
      for k := 0 to |r.lines|
        invariant b + LineRules(r.lines[k..], r.action) == before + LineRules(r.lines, r.action)
      {
        assert r.lines[k..][1..] == r.lines[k + 1..];
        b := b + [Rule([r.lines[k]], r.action)];
      }
      assert UserRules(rules[i..]) == LineRules(r.lines, r.action) + UserRules(rules[i + 1..]);
      assert b == before + LineRules(r.lines, r.action);
    }
  }

  lemma Regroup(a: seq<Rule>, b: seq<Rule>, c: seq<Rule>)
    ensures a + b + c == a + (b + c)
  {}

  method AppendPortRow(b0: seq<Rule>, port: nat, macs: seq<string>, proto: Proto) returns (b: seq<Rule>)
    ensures b == b0 + PortRow(port, macs, proto)
  {
    b := b0;
    for k := 0 to |macs|
      invariant b + PortRow(port, macs[k..], proto) == b0 + PortRow(port, macs, proto)
    {
      assert macs[k..][1..] == macs[k + 1..];
      b := b + [PortRule(port, macs[k], proto)];
    }
  }

  method AppendPorts(b0: seq<Rule>, ports: seq<nat>, macs: seq<string>, proto: Proto) returns (b: seq<Rule>)
    ensures b == b0 + PortRules(ports, macs, proto)
  {
    b := b0;
    for i := 0 to |ports|
      invariant b + PortRules(ports[i..], macs, proto) == b0 + PortRules(ports, macs, proto)
    {
      assert ports[i..][1..] == ports[i + 1..];
      ghost var before := b;
      b := AppendPortRow(b, ports[i], macs, proto);
      Regroup(before, PortRow(ports[i], macs, proto), PortRules(ports[i + 1..], macs, proto));
    }
  }

  // ----- what the forward chain means -----

  /** The action of the first enabled forward rule one of whose lines matches. */
  function FirstForwardRule(rules: seq<UserRule>, p: Packet): Option<Verdict> {
    if rules == [] then None
    else if rules[0].enabled && rules[0].forwardRule && exists i :: 0 <= i < |rules[0].lines| && Hit(rules[0].lines[i], p)
    then Some(rules[0].action)
    else FirstForwardRule(rules[1..], p)
  }

  function ForwardPolicy(rules: seq<UserRule>, snap: Snapshot, udp: seq<nat>, tcp: seq<nat>, p: Packet): Verdict {
    if p.flow == Established || p.flow == Related then Accept
    else if p.smac in snap.blocked then Drop
    else if p.smac in snap.open then Accept
    else if FirstForwardRule(rules, p).Some? then FirstForwardRule(rules, p).value
    else if p.flow == New && p.smac in snap.filtered
            && ((p.proto == Udp && p.dport in udp) || (p.proto == Tcp && p.dport in tcp)) then Accept
    else Drop
  }

  lemma {:induction false} SaddrMeans(macs: seq<string>, v: Verdict, p: Packet)
    ensures Eval(SaddrRules(macs, v), p) == if p.smac in macs then Some(v) else None
  {
    if macs != [] {
      SaddrMeans(macs[1..], v, p);
      var rest := SaddrRules(macs[1..], v);
      assert SaddrRules(macs, v)[1..] == rest;
      FiresOne(Saddr(macs[0]), v, p);
    }
  }

  lemma {:induction false} LinesMean(lines: seq<Match>, v: Verdict, p: Packet)
    ensures Eval(LineRules(lines, v), p) == if exists i :: 0 <= i < |lines| && Hit(lines[i], p) then Some(v) else None
  {
    if lines != [] {
      LinesMean(lines[1..], v, p);
      assert LineRules(lines, v)[1..] == LineRules(lines[1..], v);
      FiresOne(lines[0], v, p);
      if i :| 0 <= i < |lines| && Hit(lines[i], p) {
        if i > 0 { assert Hit(lines[1..][i - 1], p); }
      }
    }
  }

  lemma {:induction false} UserRulesMean(rules: seq<UserRule>, p: Packet)
    ensures Eval(UserRules(rules), p) == FirstForwardRule(rules, p)
  {
    if rules != [] {
      var r := rules[0];
      var first := if r.enabled && r.forwardRule then LineRules(r.lines, r.action) else [];
      LinesMean(r.lines, r.action, p);
      EvalConcat(first, UserRules(rules[1..]), p);
      UserRulesMean(rules[1..], p);
    }
  }

  lemma {:induction false} PortRowMeans(port: nat, macs: seq<string>, proto: Proto, p: Packet)
    ensures Eval(PortRow(port, macs, proto), p)
         == if p.smac in macs && p.proto == proto && p.dport == port && p.flow == New then Some(Accept) else None
  {
    if macs != [] {
      PortRowMeans(port, macs[1..], proto, p);
      var r := PortRule(port, macs[0], proto);
      assert PortRow(port, macs, proto)[1..] == PortRow(port, macs[1..], proto);
      assert Fires(r, p) <==> Hit(r.matches[0], p) && Hit(r.matches[1], p) && Hit(r.matches[2], p);
    }
  }

  lemma {:induction false} PortsMean(ports: seq<nat>, macs: seq<string>, proto: Proto, p: Packet)
    ensures Eval(PortRules(ports, macs, proto), p)
         == if p.smac in macs && p.proto == proto && p.dport in ports && p.flow == New then Some(Accept) else None
  {
    if ports != [] {
      PortRowMeans(ports[0], macs, proto, p);
      EvalConcat(PortRow(ports[0], macs, proto), PortRules(ports[1..], macs, proto), p);
      PortsMean(ports[1..], macs, proto, p);
    }
  }

  /** Compilation preserves meaning: for every snapshot, rule list, port lists and packet, first-
      verdict evaluation of the generated chain is the policy. */
  lemma ForwardMeansPolicy(rules: seq<UserRule>, snap: Snapshot, udp: seq<nat>, tcp: seq<nat>, p: Packet)
    ensures Eval(ForwardChain(rules, snap, udp, tcp), p) == Some(ForwardPolicy(rules, snap, udp, tcp, p))
  {
    var c0 := [Rule([CtEstablished], Accept)];
    var c1 := c0 + SaddrRules(snap.blocked, Drop);
    var c2 := c1 + SaddrRules(snap.open, Accept);
    var c3 := c2 + UserRules(rules);
    var c4 := c3 + PortRules(udp, snap.filtered, Udp);
    var c5 := c4 + PortRules(tcp, snap.filtered, Tcp);
    var last := [Rule([CtNew], Drop), Rule([], Drop)];
    FiresOne(CtEstablished, Accept, p);
    assert Eval(c0, p) == if Hit(CtEstablished, p) then Some(Accept) else None;
    SaddrMeans(snap.blocked, Drop, p);
    EvalConcat(c0, SaddrRules(snap.blocked, Drop), p);
    SaddrMeans(snap.open, Accept, p);
    EvalConcat(c1, SaddrRules(snap.open, Accept), p);
    UserRulesMean(rules, p);
    EvalConcat(c2, UserRules(rules), p);
    PortsMean(udp, snap.filtered, Udp, p);
    EvalConcat(c3, PortRules(udp, snap.filtered, Udp), p);
    PortsMean(tcp, snap.filtered, Tcp, p);
    EvalConcat(c4, PortRules(tcp, snap.filtered, Tcp), p);
    EvalConcat(c5, last, p);
    assert last[1..] == [Rule([], Drop)];
    assert Eval(last, p) == Some(Drop);
  }

  // ----- the generated prerouting chain -----

  function SniRule(cfg: Config, mac: string): Rule {
    Rule([Iif(cfg.lan), Saddr(mac), Dport(Tcp, 443)], Redirect(cfg.sniPort))
  }

  function FilteredNatRules(cfg: Config, mac: string): seq<Rule> {
    [Rule([Iif(cfg.lan), Saddr(mac), Dport(Tcp, 80)], Dnat(cfg.gateway)),
     SniRule(cfg, mac),
     Rule([Iif(cfg.lan), Saddr(mac), DaddrNot(cfg.gateway), Dport(Udp, 53)], DnatPort(cfg.gateway, 53)),
     Rule([Iif(cfg.lan), Saddr(mac), DaddrNot(cfg.gateway), Dport(Tcp, 53)], DnatPort(cfg.gateway, 53))]
  }

  function OpenNatRules(cfg: Config, mac: string): seq<Rule> {
    [Rule([Iif(cfg.lan), Saddr(mac), Dport(Udp, 53)], DnatPort(cfg.upstream, 53)),
     Rule([Iif(cfg.lan), Saddr(mac), Dport(Tcp, 53)], DnatPort(cfg.upstream, 53))]
  }

  function NatFor(cfg: Config, macs: seq<string>, filtered: bool): seq<Rule> {
    if macs == [] then []
    else (if filtered then FilteredNatRules(cfg, macs[0]) else OpenNatRules(cfg, macs[0])) + NatFor(cfg, macs[1..], filtered)
  }

  function NatChain(cfg: Config, snap: Snapshot): seq<Rule> {
    NatFor(cfg, snap.filtered, true) + NatFor(cfg, snap.open, false)
  }

  method GenerateNat(cfg: Config, snap: Snapshot) returns (b: seq<Rule>)
    ensures b == NatChain(cfg, snap)
  {
    b := [];
    for i := 0 to |snap.filtered|
      invariant b + NatFor(cfg, snap.filtered[i..], true) == NatFor(cfg, snap.filtered, true)
    {
      assert snap.filtered[i..][1..] == snap.filtered[i + 1..];
      b := b + FilteredNatRules(cfg, snap.filtered[i]);
    }
    ghost var b1 := b;
    assert b1 == NatFor(cfg, snap.filtered, true);
    for i := 0 to |snap.open|
      invariant b + NatFor(cfg, snap.open[i..], false) == b1 + NatFor(cfg, snap.open, false)
    {
      assert snap.open[i..][1..] == snap.open[i + 1..];
      b := b + OpenNatRules(cfg, snap.open[i]);
    }
    assert b == b1 + NatFor(cfg, snap.open, false);
  }

  predicate IsDns(p: Packet) { p.dport == 53 && (p.proto == Udp || p.proto == Tcp) }

  /** What prerouting does with one filtered or open device's LAN packet. */
  function NatOf(cfg: Config, filtered: bool, p: Packet): Option<Verdict> {
    if filtered then
      if p.proto == Tcp && p.dport == 80 then Some(Dnat(cfg.gateway))
      else if p.proto == Tcp && p.dport == 443 then Some(Redirect(cfg.sniPort))
      else if IsDns(p) && p.daddr != cfg.gateway then Some(DnatPort(cfg.gateway, 53))
      else None
    else if IsDns(p) then Some(DnatPort(cfg.upstream, 53)) else None
  }

  lemma FilteredDeviceNat(cfg: Config, mac: string, p: Packet)
    ensures Eval(FilteredNatRules(cfg, mac), p) == if p.iif == cfg.lan && p.smac == mac then NatOf(cfg, true, p) else None
  {
    var rs := FilteredNatRules(cfg, mac);
    assert Fires(rs[0], p) <==> Hit(rs[0].matches[0], p) && Hit(rs[0].matches[1], p) && Hit(rs[0].matches[2], p);
    assert Fires(rs[1], p) <==> Hit(rs[1].matches[0], p) && Hit(rs[1].matches[1], p) && Hit(rs[1].matches[2], p);
    assert Fires(rs[2], p) <==> Hit(rs[2].matches[0], p) && Hit(rs[2].matches[1], p) && Hit(rs[2].matches[2], p) && Hit(rs[2].matches[3], p);
    assert Fires(rs[3], p) <==> Hit(rs[3].matches[0], p) && Hit(rs[3].matches[1], p) && Hit(rs[3].matches[2], p) && Hit(rs[3].matches[3], p);
    assert Eval(rs[3..], p) == if Fires(rs[3], p) then Some(rs[3].verdict) else None;
    assert rs[2..][1..] == rs[3..] && rs[1..][1..] == rs[2..];
    assert Eval(rs[2..], p) == if Fires(rs[2], p) then Some(rs[2].verdict) else Eval(rs[3..], p);
    assert Eval(rs[1..], p) == if Fires(rs[1], p) then Some(rs[1].verdict) else Eval(rs[2..], p);
  }

  lemma OpenDeviceNat(cfg: Config, mac: string, p: Packet)
    ensures Eval(OpenNatRules(cfg, mac), p) == if p.iif == cfg.lan && p.smac == mac then NatOf(cfg, false, p) else None
  {
    var rs := OpenNatRules(cfg, mac);
    assert Fires(rs[0], p) <==> Hit(rs[0].matches[0], p) && Hit(rs[0].matches[1], p) && Hit(rs[0].matches[2], p);
    assert Fires(rs[1], p) <==> Hit(rs[1].matches[0], p) && Hit(rs[1].matches[1], p) && Hit(rs[1].matches[2], p);
    assert Eval(rs[1..], p) == if Fires(rs[1], p) then Some(rs[1].verdict) else None;
  }

  lemma {:induction false} NatForMeans(cfg: Config, macs: seq<string>, filtered: bool, p: Packet)
    ensures Eval(NatFor(cfg, macs, filtered), p) == if p.iif == cfg.lan && p.smac in macs then NatOf(cfg, filtered, p) else None
  {
    if macs != [] {
      FilteredDeviceNat(cfg, macs[0], p);
      OpenDeviceNat(cfg, macs[0], p);
      EvalConcat(if filtered then FilteredNatRules(cfg, macs[0]) else OpenNatRules(cfg, macs[0]), NatFor(cfg, macs[1..], filtered), p);
      NatForMeans(cfg, macs[1..], filtered, p);
    }
  }

  /** Prerouting, for every snapshot and packet: a filtered device's LAN tcp/443 always goes to the
      SNI port, its tcp/80 and stray DNS to the Pi, and only an open device's DNS to the upstream. */
  lemma NatMeansPolicy(cfg: Config, snap: Snapshot, p: Packet)
    ensures var lanFiltered := p.iif == cfg.lan && p.smac in snap.filtered;
      Eval(NatChain(cfg, snap), p)
        == if lanFiltered && NatOf(cfg, true, p).Some? then NatOf(cfg, true, p)
           else if p.iif == cfg.lan && p.smac in snap.open then NatOf(cfg, false, p)
           else None
    ensures p.iif == cfg.lan && p.smac in snap.filtered && p.proto == Tcp && p.dport == 443
      ==> Eval(NatChain(cfg, snap), p) == Some(Redirect(cfg.sniPort))
  {
    NatForMeans(cfg, snap.filtered, true, p);
    NatForMeans(cfg, snap.open, false, p);
    EvalConcat(NatFor(cfg, snap.filtered, true), NatFor(cfg, snap.open, false), p);
  }
}
