/** The access point's run state, gated on the firewall: raise only over a verified ruleset,
    repairing it once if need be; lower always. */
module Hotspot {
  import opened Bytes
  import opened Firewall
  import opened FirewallCheck
  import opened TablePolicy

  /** The kernel's two chains as `nft list` prints them. */
  datatype Kernel = Kernel(prerouting: seq<string>, forwardText: string)

  datatype Command = StartAp | StopAp

  /** What Verify finds: whether the chains and the device table could be read, and the table. */
  datatype Reading = Reading(ok: bool, rows: seq<Row>)

  /** What Apply compiles, and whether writing and loading it works; if not, nothing changes. */
  datatype Reapply = Reapply(ok: bool, rows: seq<Row>, rules: seq<UserRule>, udp: seq<nat>, tcp: seq<nat>)

  function Compiled(cfg: Config, r: Reapply): Kernel {
    var snap := SnapshotOf(r.rows);
    Kernel(NatListing(NatChain(cfg, snap)), ForwardListing(ForwardChain(r.rules, snap, r.udp, r.tcp)))
  }

  /** FirewallService.Verify's verdict on a kernel. */
  predicate Passes(cfg: Config, k: Kernel, r: Reading) {
    r.ok && VerifyOk(k.prerouting, k.forwardText, SnapshotOf(r.rows).filtered, cfg.sniPort)
  }

  /** Self-heal, from any kernel ruleset: after a successful reapply the check passes as long as
      some device is filtered and every one filtered now was in the table the reapply compiled. */
  lemma ReapplyHeals(cfg: Config, a: Reapply, r: Reading)
    requires r.ok && SnapshotOf(r.rows).filtered != []
    requires forall m :: m in SnapshotOf(r.rows).filtered ==> m in SnapshotOf(a.rows).filtered
    ensures Passes(cfg, Compiled(cfg, a), r)
  {
    var snap := SnapshotOf(a.rows);
    GeneratedPasses(cfg, snap, ForwardChain(a.rules, snap, a.udp, a.tcp), SnapshotOf(r.rows).filtered);
  }

  class HotspotService {
    const cfg: Config
    var verifyInstalled: bool
    var applyInstalled: bool
    var kernel: Kernel
    var commands: seq<Command>  // what was run, in order

    constructor (cfg: Config, kernel: Kernel)
      ensures this.cfg == cfg && this.kernel == kernel && !verifyInstalled && !applyInstalled && commands == []
    {
      this.cfg, this.kernel := cfg, kernel;
      verifyInstalled, applyInstalled, commands := false, false, [];
    }

    method SetFirewallGate(verify: bool, apply: bool)
      modifies this`verifyInstalled, this`applyInstalled
      ensures verifyInstalled == verify && applyInstalled == apply
    {
      verifyInstalled, applyInstalled := verify, apply;
    }

    method VerifyFirewall(r: Reading) returns (ok: bool)
      ensures ok == Passes(cfg, kernel, r)
    {
      if !r.ok {
        return false;
      }
      var snap := LoadDeviceSnapshot(r.rows);
      var check := VerifyOutput(kernel.prerouting, kernel.forwardText, snap.filtered, cfg.sniPort);
      return check == Verified;
    }

    /** Loads the two chains it returns: they do to every packet what the table, rules and ports say. */
    method ApplyFirewall(a: Reapply) returns (ok: bool, prerouting: seq<Rule>, forwardRules: seq<Rule>)
      modifies this`kernel
      ensures ok == a.ok && kernel == if a.ok then Compiled(cfg, a) else old(kernel)
      ensures ok ==> kernel == Kernel(NatListing(prerouting), ForwardListing(forwardRules))
      ensures forall p :: Eval(forwardRules, p) == Some(TableForward(a.rows, a.rules, a.udp, a.tcp, p))
      ensures forall p :: Eval(prerouting, p) == TableNat(cfg, a.rows, p)
    {
      var snap := LoadDeviceSnapshot(a.rows);
      prerouting := GenerateNat(cfg, snap);
      forwardRules := GenerateForward(a.rules, snap, a.udp, a.tcp);
      forall p ensures Eval(forwardRules, p) == Some(TableForward(a.rows, a.rules, a.udp, a.tcp, p)) {
        ForwardMeansTable(a.rows, a.rules, a.udp, a.tcp, p);
      }
      forall p ensures Eval(prerouting, p) == TableNat(cfg, a.rows, p) {
        NatMeansTable(cfg, a.rows, p);
      }
      if a.ok {
        kernel := Kernel(NatListing(prerouting), ForwardListing(forwardRules));
      }
      ok := a.ok;
    }

    /** What one call may leave in the kernel. */
    function KernelAfter(up: bool, first: Reading, a: Reapply): Kernel
      reads this
    {
      if up && verifyInstalled && !Passes(cfg, kernel, first) && applyInstalled && a.ok then Compiled(cfg, a) else kernel
    }

    /** `issued` is whether systemctl was run, `runs` whether it then succeeds; `ok` is no error. */
    method SetEnabled(up: bool, first: Reading, a: Reapply, second: Reading, runs: bool) returns (ok: bool, issued: bool)
      modifies this`kernel, this`commands
      ensures kernel == old(KernelAfter(up, first, a))
      ensures ok == (issued && runs)
      // lowering is never gated
      ensures !up ==> issued && commands == old(commands) + [StopAp]
      // raising: exactly when a check passed, and then over the ruleset that check saw
      ensures up ==> commands == old(commands) + (if issued then [StartAp] else [])
      ensures up ==> (issued <==> verifyInstalled && (Passes(cfg, old(kernel), first) || Passes(cfg, kernel, second)))
      ensures up && issued ==> Passes(cfg, kernel, first) || Passes(cfg, kernel, second)
      // self-heal: a working reapply over a stable table with a filtered device always gets there
      ensures (&& up && verifyInstalled && applyInstalled && a.ok && second.ok
               && SnapshotOf(second.rows).filtered == SnapshotOf(a.rows).filtered != []) ==> issued
    {
      if up {
        if !verifyInstalled {
          return false, false;
        }
        var passed := VerifyFirewall(first);
        if !passed {
          if applyInstalled {
            var _, _, _ := ApplyFirewall(a);
            if a.ok && second.ok && SnapshotOf(second.rows).filtered == SnapshotOf(a.rows).filtered != [] {
              ReapplyHeals(cfg, a, second);
            }
          }
          passed := VerifyFirewall(second);
          if !passed {
            return false, false;
          }
        }
      }
      commands := commands + [if up then StartAp else StopAp];
      return runs, true;
    }
  }
}
