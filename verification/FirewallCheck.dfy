/** Reading the device table, listing a chain as text, and verifyOutput, which decides from that
    text whether the kernel still intercepts every filtered device. */
module FirewallCheck {
  import opened Text
  import opened Firewall

  // ----- the device snapshot -----

  predicate MacChar(c: char) { '0' <= c <= '9' || 'a' <= c <= 'f' || c == ':' }

  /** aa:bb:cc:dd:ee:ff, lower case. */
  predicate ValidMac(s: string) {
    |s| == 17 && forall i :: 0 <= i < 17 ==> if i % 3 == 2 then s[i] == ':' else MacChar(s[i]) && s[i] != ':'
  }

  /** The query keeps only rows with one of these statuses. */
  datatype Status = FilteredStatus | OpenStatus | BlockedStatus

  datatype Row = Row(mac: string, status: Status)

  /** The lower-cased valid addresses of the rows with one status, in row order. */
  function MacsWith(rows: seq<Row>, status: Status): (r: seq<string>)
    ensures forall m :: m in r ==> ValidMac(m)
  {
    if rows == [] then [] else
      var n := |rows| - 1;
      var mac := Lower(rows[n].mac);
      MacsWith(rows[..n], status) + (if rows[n].status == status && ValidMac(mac) then [mac] else [])
  }

  function SnapshotOf(rows: seq<Row>): Snapshot {
    Snapshot(MacsWith(rows, FilteredStatus), MacsWith(rows, OpenStatus), MacsWith(rows, BlockedStatus))
  }

  method LoadDeviceSnapshot(rows: seq<Row>) returns (snap: Snapshot)
    ensures snap == SnapshotOf(rows)
  {
    var filtered, open, blocked := [], [], [];
    for i := 0 to |rows|
      invariant Snapshot(filtered, open, blocked) == SnapshotOf(rows[..i])
    {
      assert rows[..i + 1][..i] == rows[..i];
      var mac := Lower(rows[i].mac);
      if !ValidMac(mac) {
        continue;
      }
      match rows[i].status
      case FilteredStatus => filtered := filtered + [mac];
      case OpenStatus => open := open + [mac];
      case BlockedStatus => blocked := blocked + [mac];
    }
    assert rows[..|rows|] == rows;
    snap := Snapshot(filtered, open, blocked);
  }

  // ----- chains as text -----

  function MatchWords(m: Match): seq<string> {
    match m
    case Iif(name) => ["iifname", "\"" + name + "\""]
    case Saddr(mac) => ["ether", "saddr", mac]
    case DaddrNot(addr) => ["ip", "daddr", "!=", addr]
    case Dport(proto, port) => [if proto == Tcp then "tcp" else "udp", "dport", Digits(port)]
    case CtEstablished => ["ct", "state", "established,related"]
    case CtNew => ["ct", "state", "new"]
    case Custom(_, text) => [text]
  }

  function VerdictWords(v: Verdict): seq<string> {
    match v
    case Accept => ["accept"]
    case Drop => ["drop"]
    case Reject => ["reject"]
    case Dnat(addr) => ["dnat", "to", addr]
    case DnatPort(addr, port) => ["dnat", "to", addr + ":" + Digits(port)]
    case Redirect(port) => ["redirect", "to", ":" + Digits(port)]
  }

  function AllMatchWords(ms: seq<Match>): seq<string> {
    if ms == [] then [] else MatchWords(ms[0]) + AllMatchWords(ms[1..])
  }

  function RuleWords(r: Rule): seq<string> { AllMatchWords(r.matches) + VerdictWords(r.verdict) }

  function Line(r: Rule): string { Words(RuleWords(r)) }

  const NAT_HEADER: seq<string> := ["type", "nat", "hook", "prerouting", "priority", "dstnat;", "policy", "accept;"]
  const HOOK := "type filter hook forward priority filter; "
  const FORWARD_HEADER := HOOK + "policy drop" + ";"

  function Listing(header: string, chain: seq<Rule>): seq<string> {
    [header] + seq(|chain|, i requires 0 <= i < |chain| => Line(chain[i]))
  }

  /** The prerouting chain as listed, line by line. */
  function NatListing(chain: seq<Rule>): seq<string> {
    Listing(Words(NAT_HEADER), chain)
  }

  /** The forward chain as listed; only its header is looked at. */
  function ForwardListing(chain: seq<Rule>): string {
    FORWARD_HEADER + Words(seq(|chain|, i requires 0 <= i < |chain| => "\n" + Line(chain[i])))
  }

  // ----- verifyOutput -----

  datatype Check = Verified | ForwardAbsent | NotDefaultDeny | NothingFiltered | MalformedMac | NotRedirected(mac: string)

  function RedirectText(port: nat): string { "redirect to :" + Digits(port) }

  predicate Intercepts(line: string, mac: string, port: nat) {
    var l := Lower(line);
    Contains(l, mac) && Contains(l, "dport 443") && Contains(l, RedirectText(port))
  }

  predicate Covered(nat_: seq<string>, mac: string, port: nat) {
    exists i :: 0 <= i < |nat_| && Intercepts(nat_[i], Norm(mac), port)
  }

  predicate VerifyOk(nat_: seq<string>, fwd: string, filtered: seq<string>, port: nat) {
    && DefaultDeny(fwd) && filtered != []
    && forall i :: 0 <= i < |filtered| ==> Norm(filtered[i]) != "" && Covered(nat_, filtered[i], port)
  }

  predicate DefaultDeny(fwd: string) { Trim(fwd) != "" && Contains(fwd, "policy drop") }

  /** Device i is the first that is malformed or not covered. */
  ghost predicate FirstFault(nat_: seq<string>, filtered: seq<string>, port: nat, i: int) {
    && 0 <= i < |filtered| && (Norm(filtered[i]) == "" || !Covered(nat_, filtered[i], port))
    && forall k :: 0 <= k < i ==> Norm(filtered[k]) != "" && Covered(nat_, filtered[k], port)
  }

  /** verifyOutput's loops: it passes exactly when the forward chain is default-deny and every
      filtered device, at least one, has its own interception line; otherwise it names a fault. */
  method VerifyOutput(nat_: seq<string>, fwd: string, filtered: seq<string>, port: nat) returns (r: Check)
    ensures r == Verified <==> VerifyOk(nat_, fwd, filtered, port)
    ensures r == ForwardAbsent <==> Trim(fwd) == ""
    ensures r == NotDefaultDeny <==> Trim(fwd) != "" && !Contains(fwd, "policy drop")
    ensures r == NothingFiltered <==> DefaultDeny(fwd) && filtered == []
    ensures r == MalformedMac <==> DefaultDeny(fwd) && exists i :: FirstFault(nat_, filtered, port, i) && Norm(filtered[i]) == ""
    ensures forall mac :: r == NotRedirected(mac) <==>
      DefaultDeny(fwd) && exists i :: FirstFault(nat_, filtered, port, i) && Norm(filtered[i]) == mac != ""
  {
    if Trim(fwd) == "" {
      return ForwardAbsent;
    }
    if !Contains(fwd, "policy drop") {
      return NotDefaultDeny;
    }
    if |filtered| == 0 {
      return NothingFiltered;
    }
    for i := 0 to |filtered|
      invariant forall k :: 0 <= k < i ==> Norm(filtered[k]) != "" && Covered(nat_, filtered[k], port)
    {
      var mac := Norm(filtered[i]);
      if mac == "" {
        assert FirstFault(nat_, filtered, port, i);
        return MalformedMac;
      }
      var found := false;
      for k := 0 to |nat_|
        invariant !found && forall j :: 0 <= j < k ==> !Intercepts(nat_[j], mac, port)
      {
        if Intercepts(nat_[k], mac, port) {
          found := true;
          break;
        }
      }
      if !found {
        assert FirstFault(nat_, filtered, port, i);
        return NotRedirected(mac);
      }
    }
    return Verified;
  }

  // ----- generator and verifier agree -----

  ghost predicate NamesNoDevice(w: string) { forall m :: ValidMac(m) ==> !Contains(Lower(w), m) }

  ghost predicate Silent(w: string) { NamesNoDevice(w) && !Contains(Lower(w), "redirect") }

  /** The configured names and addresses, as they are printed, contain no device address and not the
      word redirect. */
  ghost predicate Quiet(cfg: Config) {
    && cfg.sniPort < 65536
    && Silent(Quoted(cfg.lan)) && Silent(cfg.gateway) && Silent(cfg.gateway + ":53") && Silent(cfg.upstream + ":53")
  }

  lemma MacIsNormal(m: string)
    requires ValidMac(m)
    ensures Norm(m) == m && Lower(m) == m && m != "" && ' ' !in m
    ensures forall c :: c in m ==> MacChar(c)
  {
    forall i | 0 <= i < |m| ensures MacChar(m[i]) {}
    assert Trim(m) == m;
  }

  function Quoted(w: string): string { "\"" + w + "\"" }

  // --- a generated ruleset passes the check ---

  function SniWords(cfg: Config, mac: string): seq<string> {
    ["iifname", Quoted(cfg.lan), "ether", "saddr", mac, "tcp", "dport", "443", "redirect", "to", ":" + Digits(cfg.sniPort)]
  }

  lemma SniLine(cfg: Config, mac: string)
    ensures RuleWords(SniRule(cfg, mac)) == SniWords(cfg, mac)
  {
    var ms := SniRule(cfg, mac).matches;
    assert Digits(443) == "443" by { assert Digits(44) == "44" && Digits(4) == "4"; }
    assert AllMatchWords(ms[2..]) == ["tcp", "dport", "443"];
    assert ms[1..][1..] == ms[2..];
    assert AllMatchWords(ms[1..]) == ["ether", "saddr", mac] + AllMatchWords(ms[2..]);
  }

  /** The lower-cased words of an SNI line, in the three places the check looks at. */
  lemma SniWordsLowered(cfg: Config, mac: string)
    requires ValidMac(mac)
    ensures var ws := LowerAll(SniWords(cfg, mac));
      ws[4] == mac && ws[6] == "dport" && ws[7] == "443" && ws[8] == "redirect" && ws[9] == "to" && ws[10] == ":" + Digits(cfg.sniPort)
  {
    MacIsNormal(mac);
    var port := ":" + Digits(cfg.sniPort);
    forall i | 0 <= i < |port| ensures LowerChar(port[i]) == port[i] { assert i > 0 ==> port[i] in Digits(cfg.sniPort); }
    assert Lower(port) == port;
    assert Lower("dport") == "dport" && Lower("443") == "443" && Lower("redirect") == "redirect" && Lower("to") == "to";
  }

  lemma RunOfWords(ws: seq<string>, i: nat, j: nat, text: string)
    requires i < j <= |ws| && Words(ws[i..j]) == text
    ensures Contains(Words(ws), text)
  {
    assert ws == ws[..i] + ws[i..j] + ws[j..];
    SubWords(ws[..i], ws[i..j], ws[j..]);
  }

  lemma SniLineIntercepts(cfg: Config, mac: string)
    requires ValidMac(mac)
    ensures Intercepts(Line(SniRule(cfg, mac)), mac, cfg.sniPort)
  {
    SniLine(cfg, mac);
    LowerWords(SniWords(cfg, mac));
    SniWordsLowered(cfg, mac);
    var ws := LowerAll(SniWords(cfg, mac));
    var port := ":" + Digits(cfg.sniPort);
    assert ws[4..5] == [mac];
    RunOfWords(ws, 4, 5, mac);
    assert ws[6..8] == ["dport", "443"];
    DportWords();
    RunOfWords(ws, 6, 8, "dport 443");
    assert ws[8..11] == ["redirect", "to", port];
    RedirectWords(port);
    assert "redirect to " + port == RedirectText(cfg.sniPort);
    RunOfWords(ws, 8, 11, RedirectText(cfg.sniPort));
  }

  lemma DportWords()
    ensures Words(["dport", "443"]) == "dport 443"
  {
    assert ["dport", "443"][1..] == ["443"];
  }

  lemma RedirectWords(port: string)
    ensures Words(["redirect", "to", port]) == "redirect to " + port
  {
    var ws := ["redirect", "to", port];
    assert ws[1..] == ["to", port] && ws[1..][1..] == [port];
    assert Words(ws[1..]) == "to" + " " + port;
    assert Words(ws) == "redirect" + " " + ("to" + " " + port);
  }

  lemma {:induction false} SniRuleIn(cfg: Config, macs: seq<string>, mac: string)
    requires mac in macs
    ensures SniRule(cfg, mac) in NatFor(cfg, macs, true)
  {
    if macs[0] == mac {
      assert FilteredNatRules(cfg, mac)[1] == SniRule(cfg, mac);
    } else {
      SniRuleIn(cfg, macs[1..], mac);
    }
  }

  lemma ListedIsCovered(header: string, chain: seq<Rule>, r: Rule, m: string, port: nat)
    requires ValidMac(m) && r in chain && Intercepts(Line(r), m, port)
    ensures Covered(Listing(header, chain), m, port)
  {
    MacIsNormal(m);
    var i :| 0 <= i < |chain| && chain[i] == r;
    assert Listing(header, chain)[i + 1] == Line(r);
  }

  lemma GeneratedCovers(cfg: Config, snap: Snapshot, mac: string)
    requires ValidMac(mac) && mac in snap.filtered
    ensures Covered(NatListing(NatChain(cfg, snap)), mac, cfg.sniPort)
  {
    SniRuleIn(cfg, snap.filtered, mac);
    SniLineIntercepts(cfg, mac);
    ListedIsCovered(Words(NAT_HEADER), NatChain(cfg, snap), SniRule(cfg, mac), mac, cfg.sniPort);
  }

  lemma HeaderPasses(rest: string)
    ensures Trim(FORWARD_HEADER + rest) != "" && Contains(FORWARD_HEADER + rest, "policy drop")
  {
    var s := FORWARD_HEADER + rest;
    assert HOOK[0] == 't';
    assert s[0] == HOOK[0];
    TrimKeepsFirst(s);
    ContainsMiddle(HOOK, "policy drop", ";" + rest);
    assert s == HOOK + "policy drop" + (";" + rest);
  }

  lemma {:induction false} TrimKeepsFirst(s: string)
    requires s != "" && !IsSpace(s[0])
    ensures TrimRight(s) != "" && TrimLeft(s) == s
  {
    if IsSpace(s[|s| - 1]) { TrimKeepsFirst(s[..|s| - 1]); }
  }

  /** Generator and verifier agree, for every table, rule list and configuration: a ruleset just
      generated passes the check for any non-empty list of the devices it was generated for. */
  lemma GeneratedPasses(cfg: Config, snap: Snapshot, fwd: seq<Rule>, filtered: seq<string>)
    requires filtered != [] && forall m :: m in filtered ==> ValidMac(m) && m in snap.filtered
    ensures VerifyOk(NatListing(NatChain(cfg, snap)), ForwardListing(fwd), filtered, cfg.sniPort)
  {
    HeaderPasses(Words(seq(|fwd|, i requires 0 <= i < |fwd| => "\n" + Line(fwd[i]))));
    forall i | 0 <= i < |filtered| ensures Norm(filtered[i]) != "" && Covered(NatListing(NatChain(cfg, snap)), filtered[i], cfg.sniPort) {
      assert filtered[i] in filtered;
      MacIsNormal(filtered[i]);
      GeneratedCovers(cfg, snap, filtered[i]);
    }
  }

  // --- and only rulesets generated with the same devices pass ---

  /** Every word a generated prerouting rule of device `mac` can contain, the keywords having at
      most `k` characters. */
  predicate Known(cfg: Config, mac: string, w: string, k: nat) {
    || w == mac || w == Quoted(cfg.lan) || w == cfg.gateway || w == cfg.gateway + ":53" || w == cfg.upstream + ":53" || |w| <= k
  }

  lemma {:induction false} WordOfMatch(ms: seq<Match>, w: string)
    requires w in AllMatchWords(ms)
    ensures exists i :: 0 <= i < |ms| && w in MatchWords(ms[i])
  {
    if w in MatchWords(ms[0]) {
    } else {
      WordOfMatch(ms[1..], w);
      var i :| 0 <= i < |ms[1..]| && w in MatchWords(ms[1..][i]);
      assert ms[i + 1] == ms[1..][i];
    }
  }

  /** The shapes of match and verdict the prerouting generator uses. */
  predicate NatMatch(cfg: Config, mac: string, m: Match) {
    m == Iif(cfg.lan) || m == Saddr(mac) || m == DaddrNot(cfg.gateway) || (m.Dport? && m.port < 65536)
  }

  predicate NatVerdict(cfg: Config, v: Verdict) {
    v == Dnat(cfg.gateway) || v == DnatPort(cfg.gateway, 53) || v == DnatPort(cfg.upstream, 53) || v == Redirect(cfg.sniPort)
  }

  /** "redirect" is the longest keyword; without it none has more than 7 characters. */
  function KeywordSize(v: Verdict): nat { if v.Redirect? then 8 else 7 }

  lemma KnownMatchWord(cfg: Config, mac: string, m: Match, w: string)
    requires NatMatch(cfg, mac, m) && w in MatchWords(m)
    ensures Known(cfg, mac, w, 7)
  {
    if m.Dport? { DigitsShort(m.port); }
  }

  lemma KnownVerdictWord(cfg: Config, mac: string, v: Verdict, w: string)
    requires NatVerdict(cfg, v) && w in VerdictWords(v) && cfg.sniPort < 65536
    ensures Known(cfg, mac, w, KeywordSize(v))
  {
    assert Digits(53) == "53" by { assert Digits(5) == "5"; }
    DigitsShort(cfg.sniPort);
  }

  predicate NatRule(cfg: Config, mac: string, r: Rule) {
    (forall i :: 0 <= i < |r.matches| ==> NatMatch(cfg, mac, r.matches[i])) && NatVerdict(cfg, r.verdict)
  }

  lemma KnownWords(cfg: Config, mac: string, r: Rule, w: string)
    requires cfg.sniPort < 65536 && NatRule(cfg, mac, r) && w in RuleWords(r)
    ensures Known(cfg, mac, w, KeywordSize(r.verdict))
  {
    if w in AllMatchWords(r.matches) {
      WordOfMatch(r.matches, w);
      var i :| 0 <= i < |r.matches| && w in MatchWords(r.matches[i]);
      KnownMatchWord(cfg, mac, r.matches[i], w);
    } else {
      KnownVerdictWord(cfg, mac, r.verdict, w);
    }
  }

  /** A valid address occurs in a known word only if it is the device's own. */
  lemma MacInWord(cfg: Config, mac: string, m: string, w: string)
    requires Quiet(cfg) && ValidMac(mac) && ValidMac(m) && Known(cfg, mac, w, 8) && Contains(Lower(w), m)
    ensures m == mac
  {
    MacIsNormal(mac);
    var l := Lower(w);
    var i :| 0 <= i <= |l| - |m| && OccursAt(l, m, i);
  }

  lemma RedirectInMac(mac: string)
    requires ValidMac(mac)
    ensures !Contains(mac, "redirect")
  {
    MacIsNormal(mac);
    forall i | 0 <= i <= |mac| - 8 ensures !OccursAt(mac, "redirect", i) {
      assert mac[i] != 'r' by { assert mac[i] in mac; }
      assert "redirect"[0] == 'r';
      assert mac[i..i + 8][0] == mac[i];
    }
  }

  lemma NoRedirectWord(cfg: Config, mac: string, w: string)
    requires Quiet(cfg) && ValidMac(mac) && Known(cfg, mac, w, 7)
    ensures !Contains(Lower(w), "redirect")
  {
    MacIsNormal(mac);
    RedirectInMac(mac);
  }

  // --- ordinary configurations are quiet ---

  /** A dotted IPv4 address is at most 15 characters long. */
  predicate AddressLike(w: string) {
    |w| <= 15 && (exists i :: 1 <= i < |w| && w[i] == '.') && !Contains(Lower(w), "redirect")
  }

  /** So is the name of a network interface. */
  predicate InterfaceLike(w: string) { |w| <= 15 && !Contains(Lower(w), "redirect") }

  lemma AddressIsSilent(addr: string)
    requires AddressLike(addr)
    ensures Silent(addr) && Silent(addr + ":53")
  {
    var w, j :| w == Lower(addr + ":53") && 1 <= j < |addr| && addr[j] == '.';
    LowerConcat(addr, ":53");
    assert Lower(":53") == ":53";
    forall m | ValidMac(m) ensures !Contains(Lower(addr), m) && !Contains(w, m) {
      MacIsNormal(m);
      forall i | 0 <= i <= |w| - |m| ensures !OccursAt(w, m, i) {
        assert w[i..i + 17][j - i] == w[j] == '.';
      }
    }
    if Contains(w, "redirect") {
      assert w == Lower(addr) + [':'] + "53";
      ContainsSplit(Lower(addr), ':', "53", "redirect");
    }
  }

  lemma InterfaceIsSilent(name: string)
    requires InterfaceLike(name)
    ensures Silent(Quoted(name))
  {
    var w := Lower(Quoted(name));
    assert w == "" + ['\"'] + (Lower(name) + "\"");
    forall m | ValidMac(m) ensures !Contains(w, m) {
      MacIsNormal(m);
      forall i | 0 <= i <= |w| - |m| ensures !OccursAt(w, m, i) {
        assert w[i..i + 17][0] == '\"';
      }
    }
    if Contains(w, "redirect") {
      ContainsSplit("", '\"', Lower(name) + "\"", "redirect");
      assert Lower(name) + "\"" == Lower(name) + ['\"'] + "";
      ContainsSplit(Lower(name), '\"', "", "redirect");
    }
  }

  lemma OrdinaryIsQuiet(cfg: Config)
    requires InterfaceLike(cfg.lan) && AddressLike(cfg.gateway) && AddressLike(cfg.upstream) && cfg.sniPort < 65536
    ensures Quiet(cfg)
  {
    InterfaceIsSilent(cfg.lan);
    AddressIsSilent(cfg.gateway);
    AddressIsSilent(cfg.upstream);
  }

  lemma LoweredWord(ws: seq<string>, sub: string) returns (w: string)
    requires sub != "" && ' ' !in sub && Contains(Lower(Words(ws)), sub)
    ensures w in ws && Contains(Lower(w), sub)
  {
    LowerWords(ws);
    InSomeWord(LowerAll(ws), sub);
    var l :| l in LowerAll(ws) && Contains(l, sub);
    var i :| 0 <= i < |ws| && LowerAll(ws)[i] == l;
    w := ws[i];
  }

  /** An interception line in a generated ruleset belongs to the device it names, and that device
      was filtered when the ruleset was generated. */
  lemma InterceptsOwn(cfg: Config, mac: string, r: Rule, m: string)
    requires Quiet(cfg) && ValidMac(mac) && ValidMac(m) && NatRule(cfg, mac, r)
    requires Intercepts(Line(r), m, cfg.sniPort)
    ensures m == mac && r.verdict.Redirect?
  {
    MacIsNormal(m);
    var w := LoweredWord(RuleWords(r), m);
    KnownWords(cfg, mac, r, w);
    MacInWord(cfg, mac, m, w);
    if !r.verdict.Redirect? {
      RedirectNamed(Lower(Line(r)), cfg.sniPort);
      var x := LoweredWord(RuleWords(r), "redirect");
      KnownWords(cfg, mac, r, x);
      NoRedirectWord(cfg, mac, x);
    }
  }

  lemma RedirectNamed(l: string, port: nat)
    requires Contains(l, RedirectText(port))
    ensures Contains(l, "redirect")
  {
    var t := RedirectText(port);
    assert t == "redirect" + (" to :" + Digits(port));
    var i :| 0 <= i <= |l| - |t| && OccursAt(l, t, i);
    assert l[i..i + 8] == l[i..i + |t|][..8] == "redirect";
    assert OccursAt(l, "redirect", i);
  }

  lemma {:induction false} NatRuleOf(cfg: Config, macs: seq<string>, filtered: bool, r: Rule) returns (mac: string)
    requires r in NatFor(cfg, macs, filtered)
    ensures mac in macs && NatRule(cfg, mac, r) && (!filtered ==> !r.verdict.Redirect?)
  {
    var mine := if filtered then FilteredNatRules(cfg, macs[0]) else OpenNatRules(cfg, macs[0]);
    if r in mine {
      mac := macs[0];
    } else {
      mac := NatRuleOf(cfg, macs[1..], filtered, r);
    }
  }

  lemma HeaderNamesNobody(m: string)
    requires ValidMac(m)
    ensures !Contains(Lower(Words(NAT_HEADER)), m)
  {
    MacIsNormal(m);
    if Contains(Lower(Words(NAT_HEADER)), m) {
      var w := LoweredWord(NAT_HEADER, m);
    }
  }

  lemma InterceptedWasFiltered(cfg: Config, snap: Snapshot, r: Rule, m: string)
    requires Quiet(cfg) && ValidMac(m) && r in NatChain(cfg, snap) && Intercepts(Line(r), m, cfg.sniPort)
    requires forall x :: x in snap.filtered || x in snap.open ==> ValidMac(x)
    ensures m in snap.filtered
  {
    if r in NatFor(cfg, snap.filtered, true) {
      var mac := NatRuleOf(cfg, snap.filtered, true, r);
      InterceptsOwn(cfg, mac, r, m);
    } else {
      var mac := NatRuleOf(cfg, snap.open, false, r);
      InterceptsOwn(cfg, mac, r, m);
    }
  }

  lemma CoveredIsListed(header: string, chain: seq<Rule>, m: string, port: nat) returns (r: Rule)
    requires Norm(m) == m && !Intercepts(header, m, port) && Covered(Listing(header, chain), m, port)
    ensures r in chain && Intercepts(Line(r), m, port)
  {
    var i :| 0 <= i < |Listing(header, chain)| && Intercepts(Listing(header, chain)[i], Norm(m), port);
    ListedAt(header, chain, i);
    r := chain[i - 1];
  }

  lemma ListedAt(header: string, chain: seq<Rule>, i: nat)
    requires i <= |chain|
    ensures Listing(header, chain)[i] == if i == 0 then header else Line(chain[i - 1])
  {}

  lemma CoveredWasFiltered(cfg: Config, snap: Snapshot, m: string)
    requires Quiet(cfg) && ValidMac(m) && Covered(NatListing(NatChain(cfg, snap)), m, cfg.sniPort)
    requires forall x :: x in snap.filtered || x in snap.open ==> ValidMac(x)
    ensures m in snap.filtered
  {
    MacIsNormal(m);
    HeaderNamesNobody(m);
    var r := CoveredIsListed(Words(NAT_HEADER), NatChain(cfg, snap), m, cfg.sniPort);
    InterceptedWasFiltered(cfg, snap, r, m);
  }

  lemma CoveredIff(cfg: Config, snap: Snapshot, m: string)
    requires Quiet(cfg) && ValidMac(m)
    requires forall x :: x in snap.filtered || x in snap.open ==> ValidMac(x)
    ensures Norm(m) != "" && (Covered(NatListing(NatChain(cfg, snap)), m, cfg.sniPort) <==> m in snap.filtered)
  {
    MacIsNormal(m);
    if m in snap.filtered { GeneratedCovers(cfg, snap, m); }
    if Covered(NatListing(NatChain(cfg, snap)), m, cfg.sniPort) { CoveredWasFiltered(cfg, snap, m); }
  }

  /** The kernel holds the ruleset generated from the table as it was; the table may have changed.
      The check passes exactly when some device is filtered now and every device filtered now was
      filtered then. */
  lemma CheckExact(cfg: Config, before: seq<Row>, now: seq<Row>, fwd: seq<Rule>)
    requires Quiet(cfg)
    ensures VerifyOk(NatListing(NatChain(cfg, SnapshotOf(before))), ForwardListing(fwd), SnapshotOf(now).filtered, cfg.sniPort)
      <==> SnapshotOf(now).filtered != [] && forall m :: m in SnapshotOf(now).filtered ==> m in SnapshotOf(before).filtered
  {
    var snap, filtered := SnapshotOf(before), SnapshotOf(now).filtered;
    var nat_ := NatListing(NatChain(cfg, snap));
    HeaderPasses(Words(seq(|fwd|, i requires 0 <= i < |fwd| => "\n" + Line(fwd[i]))));
    forall m | m in filtered ensures Norm(m) != "" && (Covered(nat_, m, cfg.sniPort) <==> m in snap.filtered) {
      CoveredIff(cfg, snap, m);
    }
    forall i | 0 <= i < |filtered| ensures filtered[i] in filtered {}
  }
}
