/** Host names: normalisation, suffix matching as label-list suffix, the protected-deny floor,
    the add-time guard, and the two allow decisions (SNI proxy and DNS log) that must agree. */
module Domains {
  import opened Text

  // ----- suffix matching is label-list suffix -----

  predicate HasSuffix(s: string, p: string) { |p| <= |s| && s[|s| - |p|..] == p }

  /** "Equal, or ends with dot plus suffix". */
  predicate Under(host: string, domain: string) { host == domain || HasSuffix(host, "." + domain) }

  /** The dot-separated labels of a name. */
  function Labels(s: string): (r: seq<string>)
    ensures |r| >= 1
  {
    if s == "" then [""]
    else
      var rest := Labels(s[1..]);
      if s[0] == '.' then [""] + rest else [[s[0]] + rest[0]] + rest[1..]
  }

  predicate LabelSuffix(ls: seq<string>, of: seq<string>) { |ls| <= |of| && of[|of| - |ls|..] == ls }

  function Join(ls: seq<string>): string
    requires |ls| >= 1
  {
    if |ls| == 1 then ls[0] else ls[0] + "." + Join(ls[1..])
  }

  lemma JoinCons(l: string, ls: seq<string>)
    requires |ls| >= 1
    ensures Join([l] + ls) == l + "." + Join(ls)
  {
    assert ([l] + ls)[1..] == ls;
  }

  lemma JoinFirst(c: char, l: string, ls: seq<string>)
    ensures Join([[c] + l] + ls) == [c] + Join([l] + ls)
  {
    if ls == [] {
      assert [[c] + l] + ls == [[c] + l] && [l] + ls == [l];
    } else {
      JoinCons([c] + l, ls);
      JoinCons(l, ls);
      DotAssociates(c, l, Join(ls));
    }
  }

  lemma DotAssociates(c: char, l: string, rest: string)
    ensures ([c] + l) + "." + rest == [c] + (l + "." + rest)
  {}

  lemma {:induction false} JoinLabels(s: string)
    ensures Join(Labels(s)) == s
  {
    if s != "" {
      JoinLabels(s[1..]);
      if s[0] == '.' {
        JoinCons("", Labels(s[1..]));
      } else {
        JoinFirst(s[0], Labels(s[1..])[0], Labels(s[1..])[1..]);
        assert Labels(s[1..]) == [Labels(s[1..])[0]] + Labels(s[1..])[1..];
      }
      assert s == [s[0]] + s[1..];
    }
  }

  lemma {:induction false} JoinConcat(a: seq<string>, b: seq<string>)
    requires |a| >= 1 && |b| >= 1
    ensures Join(a + b) == Join(a) + "." + Join(b)
  {
    assert (a + b)[1..] == a[1..] + b;
    if |a| > 1 { JoinConcat(a[1..], b); }
  }

  lemma {:induction false} LabelsConcat(x: string, p: string)
    ensures Labels(x + "." + p) == Labels(x) + Labels(p)
  {
    var s := x + "." + p;
    if x == "" {
      assert s[1..] == p;
    } else {
      assert s[1..] == x[1..] + "." + p;
      LabelsConcat(x[1..], p);
    }
  }

  lemma SuffixIsLabels(host: string, domain: string)
    requires HasSuffix(host, "." + domain)
    ensures LabelSuffix(Labels(domain), Labels(host))
  {
    var x := host[..|host| - |domain| - 1];
    assert host == x + ("." + domain) == x + "." + domain;
    LabelsConcat(x, domain);
  }

  lemma DottedIsUnder(x: string, domain: string)
    ensures Under(x + "." + domain, domain)
  {
    var host := x + "." + domain;
    assert host[|x|..] == "." + domain;
  }

  lemma JoinedSuffix(ls: seq<string>, of: seq<string>)
    requires LabelSuffix(ls, of) && |ls| >= 1
    ensures Under(Join(of), Join(ls))
  {
    var pre := of[..|of| - |ls|];
    assert of == pre + ls;
    if pre == [] {
      assert of == ls;
    } else {
      JoinConcat(pre, ls);
      DottedIsUnder(Join(pre), Join(ls));
    }
  }

  lemma LabelsAreSuffix(host: string, domain: string)
    requires LabelSuffix(Labels(domain), Labels(host))
    ensures Under(host, domain)
  {
    JoinLabels(host);
    JoinLabels(domain);
    JoinedSuffix(Labels(domain), Labels(host));
  }

  /** Matching by "equal or ends with dot+suffix" is exactly label-list suffix, for all strings. */
  lemma UnderIsLabelSuffix(host: string, domain: string)
    ensures Under(host, domain) <==> LabelSuffix(Labels(domain), Labels(host))
  {
    if HasSuffix(host, "." + domain) { SuffixIsLabels(host, domain); }
    if LabelSuffix(Labels(domain), Labels(host)) { LabelsAreSuffix(host, domain); }
  }

  lemma SuffixesComparable(a: seq<string>, b: seq<string>, of: seq<string>)
    requires LabelSuffix(a, of) && LabelSuffix(b, of)
    ensures LabelSuffix(a, b) || LabelSuffix(b, a)
  {
    if |a| <= |b| {
      assert b[|b| - |a|..] == of[|of| - |a|..];
    } else {
      assert a[|a| - |b|..] == of[|of| - |b|..];
    }
  }

  lemma SuffixTransitive(a: seq<string>, b: seq<string>, c: seq<string>)
    requires LabelSuffix(a, b) && LabelSuffix(b, c)
    ensures LabelSuffix(a, c)
  {
    assert c[|c| - |a|..] == b[|b| - |a|..];
  }

  /** Two domains a host lies under are themselves one under the other. */
  lemma UnderComparable(host: string, a: string, b: string)
    requires Under(host, a) && Under(host, b)
    ensures Under(a, b) || Under(b, a)
  {
    UnderIsLabelSuffix(host, a);
    UnderIsLabelSuffix(host, b);
    SuffixesComparable(Labels(a), Labels(b), Labels(host));
    UnderIsLabelSuffix(a, b);
    UnderIsLabelSuffix(b, a);
  }

  lemma UnderTransitive(host: string, a: string, b: string)
    requires Under(host, a) && Under(a, b)
    ensures Under(host, b)
  {
    UnderIsLabelSuffix(host, a);
    UnderIsLabelSuffix(a, b);
    UnderIsLabelSuffix(host, b);
    SuffixTransitive(Labels(b), Labels(a), Labels(host));
  }

  // ----- the protected-deny floor -----

  const VEHICLE_SERVICES := "vn.tesla.services"
  const VEHICLE_CLOUD := "vn.cloud.tesla.com"
  const VEHICLE_CLOUD_CN := "vn.cloud.tesla.cn"

  const PROTECTED: seq<string> := [
    "ap.tesla.services", VEHICLE_SERVICES, "cn.tesla.services", "mo.tesla.services",
    "eng.go.tesla.services", VEHICLE_CLOUD, VEHICLE_CLOUD_CN, "obs.tesla.com",
    "teslamotors.com", "tslans.net", "tesla-cdn.com", "tesla-cdn.net",
    "software-update.tesla.com", "dl.tesla.com", "remote-diagnostics.tesla.com",
    "github-fw.tesla.com", "toolbox.tesla.com", "epc.tesla.com", "parts.tesla.com",
    "tesla-hermes-snapshot.s3.us-west-2.amazonaws.com",
    "tesla-hermes-snapshot-eu.s3.eu-central-1.amazonaws.com",
    "tesla-hermes-snapshot-eng.s3.us-west-2.amazonaws.com",
    "tesla-hermes-snapshot-eng-eu.s3.eu-central-1.amazonaws.com"]

  const CONNMAN := "connman" + "." + VEHICLE_SERVICES
  const ASSISTANT_EU := "assistant-api.prd.euw1" + "." + VEHICLE_CLOUD
  const ASSISTANT_NA := "assistant-api.prd.na" + "." + VEHICLE_CLOUD
  const ASSISTANT_CN := "assistant-api.prd.cnn1" + "." + VEHICLE_CLOUD_CN

  /** The captive-check host and the assistant hosts: exact names, never suffixes. */
  predicate Exempt(d: string) {
    d == CONNMAN || d == ASSISTANT_EU || d == ASSISTANT_NA || d == ASSISTANT_CN
  }

  predicate ProtectedDenied(domain: string) {
    var d := Norm(domain);
    d != "" && !Exempt(d) && exists p :: p in PROTECTED && Under(d, p)
  }

  predicate ProtectedAncestor(domain: string) {
    var d := Norm(domain);
    d != "" && exists p :: p in PROTECTED && HasSuffix(p, "." + d)
  }

  // ----- allow decisions -----

  predicate MatchSni(sni: string, suffixes: seq<string>) {
    var s := Norm(sni);
    s != "" && exists suf :: suf in suffixes && suf != "" && Under(s, suf)
  }

  predicate SniAllowed(sni: string, suffixes: seq<string>) {
    !ProtectedDenied(sni) && MatchSni(sni, suffixes)
  }

  predicate DnsResolvable(domain: string, suffixes: seq<string>) {
    var d := Norm(domain);
    d != "" && !ProtectedDenied(d) && exists suf :: suf in suffixes && Under(d, suf)
  }

  // ----- the add-time guard -----

  predicate Alnum(c: char) { 'a' <= c <= 'z' || '0' <= c <= '9' }

  predicate ValidLabel(l: string) {
    && l != "" && Alnum(l[0]) && Alnum(l[|l| - 1])
    && forall i :: 0 <= i < |l| ==> Alnum(l[i]) || l[i] == '-'
  }

  predicate ValidDomain(s: string) {
    0 < |s| <= 253 && forall i :: 0 <= i < |Labels(s)| ==> ValidLabel(Labels(s)[i])
  }

  function NormalizeDomain(raw: string): string {
    var d := Norm(raw);
    var bare := if |d| >= 2 && d[..2] == "*." then d[2..] else d;
    if ValidDomain(bare) then bare else ""
  }

  /** CreateDomain stores a domain only past both guards. */
  predicate Addable(raw: string) {
    var d := NormalizeDomain(raw);
    d != "" && !ProtectedDenied(d) && !ProtectedAncestor(d)
  }

  predicate HostChar(c: char) { Alnum(c) || c == '-' }

  ghost predicate HostChars(ls: seq<string>) { forall l, c :: l in ls && c in l ==> HostChar(c) }

  lemma {:induction false} LabelChars(s: string)
    requires HostChars(Labels(s))
    ensures forall c :: c in s ==> c == '.' || HostChar(c)
  {
    if s != "" {
      var rest := Labels(s[1..]);
      if s[0] != '.' {
        var first := [s[0]] + rest[0];
        assert first in Labels(s) && s[0] in first;
        assert rest == [rest[0]] + rest[1..];
        forall c | c in rest[0] ensures HostChar(c) { assert c in first; }
      }
      LabelChars(s[1..]);
      assert s == [s[0]] + s[1..];
    }
  }

  lemma ValidIsNormal(d: string)
    requires ValidDomain(d)
    ensures Norm(d) == d
  {
    ValidChars(d);
    assert Trim(d) == d;
  }

  /** The add-time guard is sufficient: whatever raw text an operator entered, if it was stored
      and is not itself an exempt host, then no host it admits is protected. */
  lemma GuardSufficient(raw: string, host: string)
    requires Addable(raw) && !Exempt(NormalizeDomain(raw))
    requires MatchSni(host, [NormalizeDomain(raw)])
    ensures !ProtectedDenied(host)
  {
    var d, h := NormalizeDomain(raw), Norm(host);
    ValidIsNormal(d);
    NormIdempotent(host);
    if ProtectedDenied(host) {
      var p :| p in PROTECTED && Under(h, p);
      UnderComparable(h, d, p);
    }
  }

  /** The apex an exempt host is carved out of. */
  function ApexOf(exempt: string): string {
    if exempt == CONNMAN then VEHICLE_SERVICES else if exempt == ASSISTANT_CN then VEHICLE_CLOUD_CN else VEHICLE_CLOUD
  }

  lemma ApexProtected(exempt: string)
    ensures ApexOf(exempt) in PROTECTED
  {
    assert PROTECTED[1] == VEHICLE_SERVICES && PROTECTED[5] == VEHICLE_CLOUD && PROTECTED[6] == VEHICLE_CLOUD_CN;
  }

  lemma ExemptUnder(e: string)
    requires Exempt(e)
    ensures Under(e, ApexOf(e))
  {
    DottedIsUnder("connman", VEHICLE_SERVICES);
    DottedIsUnder("assistant-api.prd.euw1", VEHICLE_CLOUD);
    DottedIsUnder("assistant-api.prd.na", VEHICLE_CLOUD);
    DottedIsUnder("assistant-api.prd.cnn1", VEHICLE_CLOUD_CN);
  }

  /** Every strict sub-domain of an exempt host is still denied. */
  lemma BelowExemptDenied(exempt: string, host: string)
    requires Exempt(exempt) && Norm(host) == host && HasSuffix(host, "." + exempt)
    ensures ProtectedDenied(host)
  {
    var p := ApexOf(exempt);
    ExemptUnder(exempt);
    ApexProtected(exempt);
    UnderTransitive(host, exempt, p);
    ExemptNotNested(host, exempt);
  }

  lemma ExemptNotNested(host: string, e: string)
    requires Exempt(e) && HasSuffix(host, "." + e)
    ensures !Exempt(host)
  {
    var k := |host| - |e| - 1;
    assert host[k] == host[k..][0] == '.';
    assert host[k + 1] == host[k..][1] == e[0];
  }

  /** What is denied and what is allowed, label by label. */
  lemma DeniedByLabels(host: string)
    ensures ProtectedDenied(host) <==>
      Norm(host) != "" && !Exempt(Norm(host)) && exists p :: p in PROTECTED && LabelSuffix(Labels(p), Labels(Norm(host)))
  {
    forall p ensures Under(Norm(host), p) <==> LabelSuffix(Labels(p), Labels(Norm(host))) { UnderIsLabelSuffix(Norm(host), p); }
  }

  lemma AllowedByLabels(host: string, suffixes: seq<string>)
    ensures SniAllowed(host, suffixes) <==>
      !ProtectedDenied(host) && Norm(host) != "" && exists suf :: suf in suffixes && suf != "" && LabelSuffix(Labels(suf), Labels(Norm(host)))
  {
    forall suf ensures Under(Norm(host), suf) <==> LabelSuffix(Labels(suf), Labels(Norm(host))) { UnderIsLabelSuffix(Norm(host), suf); }
  }

  lemma ValidChars(d: string)
    requires ValidDomain(d)
    ensures forall i :: 0 <= i < |d| ==> d[i] == '.' || HostChar(d[i])
  {
    forall l, c | l in Labels(d) && c in l ensures HostChar(c) {
      assert ValidLabel(l);
    }
    LabelChars(d);
    forall i | 0 <= i < |d| ensures d[i] == '.' || HostChar(d[i]) { assert d[i] in d; }
  }

  lemma WildIsNormal(d: string)
    requires Norm(d) == d && d != "" && !IsSpace(d[|d| - 1])
    ensures Norm("*." + d) == "*." + d
  {
    var wild := "*." + d;
    assert wild[0] == '*' && wild[|wild| - 1] == d[|d| - 1];
    assert Trim(wild) == wild;
    forall i | 0 <= i < |wild| ensures LowerChar(wild[i]) == wild[i] {
      if i >= 2 { assert wild[i] == d[i - 2] && Norm(d)[i - 2] == LowerChar(Trim(d)[i - 2]); }
    }
  }

  /** A valid domain is stored as it is, and so it is when entered with a leading wildcard. */
  lemma NormalizeKeepsValid(d: string)
    requires ValidDomain(d)
    ensures NormalizeDomain(d) == d && NormalizeDomain("*." + d) == d
  {
    ValidIsNormal(d);
    ValidChars(d);
    assert d[0] != '*' && !IsSpace(d[|d| - 1]);
    WildIsNormal(d);
    var wild := "*." + d;
    assert wild[2..] == d && wild[..2] == "*.";
  }

  /** A stored domain that is no exemption admits itself and everything below it. */
  lemma StoredAdmits(raw: string, host: string)
    requires Addable(raw) && !Exempt(NormalizeDomain(raw)) && Norm(host) != "" && Under(Norm(host), NormalizeDomain(raw))
    ensures SniAllowed(host, [NormalizeDomain(raw)])
  {
    assert NormalizeDomain(raw) in [NormalizeDomain(raw)];
    GuardSufficient(raw, host);
  }

  // ----- the two decisions agree -----

  /** What RefreshCache keeps of the stored rows. */
  function Cleaned(rows: seq<string>): (r: seq<string>)
    ensures "" !in r
  {
    if rows == [] then []
    else (if Norm(rows[0]) != "" then [Norm(rows[0])] else []) + Cleaned(rows[1..])
  }

  /** The cache holds exactly the non-empty normal forms of the stored rows. */
  lemma {:induction false} CleanedRows(rows: seq<string>, s: string)
    ensures s in Cleaned(rows) <==> s != "" && exists i :: 0 <= i < |rows| && Norm(rows[i]) == s
  {
    if rows != [] {
      CleanedRows(rows[1..], s);
      assert forall i :: 0 <= i < |rows| - 1 ==> rows[1..][i] == rows[i + 1];
      if i :| 0 <= i < |rows| && Norm(rows[i]) == s {
        assert i > 0 ==> Norm(rows[1..][i - 1]) == s;
      }
    }
  }

  predicate Agree(host: string, suffixes: seq<string>) {
    SniAllowed(host, suffixes) <==> DnsResolvable(host, suffixes)
  }

  /** dnsResolvable and sniAllowed agree on every host exactly when no suffix is empty. */
  lemma DecisionsAgreeIff(suffixes: seq<string>)
    ensures (forall host :: Agree(host, suffixes)) <==> "" !in suffixes
  {
    if "" !in suffixes {
      forall host ensures Agree(host, suffixes) { NormIdempotent(host); }
    } else {
      var host := Witness(suffixes);
      assert !Agree(host, suffixes);
    }
  }

  function Longest(ss: seq<string>): (n: nat)
    ensures forall s :: s in ss ==> |s| <= n
  {
    if ss == [] then 0 else
      var n := Longest(ss[1..]);
      if |ss[0]| > n then |ss[0]| else n
  }

  lemma ProtectedSizes(p: string)
    requires p in PROTECTED
    ensures 0 < |p| <= 100
  {
  }

  function Dotted(n: nat): string { seq(n, _ => 'x') + "." }

  lemma DottedTight(n: nat)
    ensures Norm(Dotted(n)) == Dotted(n)
  {
    var host := Dotted(n);
    assert host != "" && !IsSpace(host[0]) && !IsSpace(host[|host| - 1]);
    assert Trim(host) == host;
  }

  lemma DottedFacts(n: nat)
    ensures Norm(Dotted(n)) == Dotted(n) && Under(Dotted(n), "")
  {
    DottedTight(n);
    DottedIsUnder(seq(n, _ => 'x'), "");
    assert Dotted(n) == Dotted(n) + "";
  }

  lemma NothingUnder(n: nat, p: string)
    requires 0 < |p| <= n
    ensures !Under(Dotted(n), p)
  {
    assert Dotted(n)[n - |p|] == 'x' != ("." + p)[0];
  }

  lemma DottedNotDenied(n: nat)
    requires n >= 100
    ensures !ProtectedDenied(Dotted(n))
  {
    DottedFacts(n);
    forall p | p in PROTECTED ensures !Under(Dotted(n), p) {
      ProtectedSizes(p);
      NothingUnder(n, p);
    }
  }

  /** A long dotted host that only the empty suffix admits. */
  lemma Witness(suffixes: seq<string>) returns (host: string)
    requires "" in suffixes
    ensures DnsResolvable(host, suffixes) && !SniAllowed(host, suffixes)
  {
    var n := Longest(suffixes) + 100;
    host := Dotted(n);
    DottedFacts(n);
    DottedNotDenied(n);
    forall suf | suf in suffixes && suf != "" ensures !Under(host, suf) { NothingUnder(n, suf); }
  }

  /** The caches hold cleaned rows, so the logged verdict and the enforced one agree everywhere. */
  lemma CachesAgree(rows: seq<string>, host: string)
    ensures Agree(host, Cleaned(rows))
  {
    DecisionsAgreeIff(Cleaned(rows));
  }
}
