/** From the device table to what happens to a packet: the snapshot read row by row, and the generated
    chains' meaning stated on the rows. */
module TablePolicy {
  import opened Bytes
  import opened Text
  import opened Firewall
  import opened FirewallCheck

  /** Row i is a valid address m with that status. */
  predicate IsDevice(rows: seq<Row>, i: int, status: Status, m: string) {
    0 <= i < |rows| && rows[i].status == status && Lower(rows[i].mac) == m && ValidMac(m)
  }

  ghost predicate Device(rows: seq<Row>, status: Status, m: string) { exists i :: IsDevice(rows, i, status, m) }

  lemma {:induction false} MacsAreDevices(rows: seq<Row>, status: Status, m: string)
    ensures m in MacsWith(rows, status) <==> Device(rows, status, m)
  {
    if rows != [] {
      var n := |rows| - 1;
      MacsAreDevices(rows[..n], status, m);
      assert forall i :: 0 <= i < n ==> (IsDevice(rows, i, status, m) <==> IsDevice(rows[..n], i, status, m));
      assert IsDevice(rows, n, status, m) ==> Device(rows, status, m);
      if Device(rows[..n], status, m) {
        var i :| IsDevice(rows[..n], i, status, m);
        assert IsDevice(rows, i, status, m);
      }
      if Device(rows, status, m) {
        var i :| IsDevice(rows, i, status, m);
        assert i < n ==> IsDevice(rows[..n], i, status, m);
      }
    }
  }

  /** Every device is in the list of its own status and in no other status's list. */
  lemma SnapshotIsTable(rows: seq<Row>, m: string)
    ensures var snap := SnapshotOf(rows);
      && (m in snap.filtered <==> Device(rows, FilteredStatus, m))
      && (m in snap.open <==> Device(rows, OpenStatus, m))
      && (m in snap.blocked <==> Device(rows, BlockedStatus, m))
  {
    MacsAreDevices(rows, FilteredStatus, m);
    MacsAreDevices(rows, OpenStatus, m);
    MacsAreDevices(rows, BlockedStatus, m);
  }

  ghost predicate Increasing(at: seq<int>) { forall j, k :: 0 <= j < k < |at| ==> at[j] < at[k] }

  /** `at` are, in order, the rows of the list's devices, and there are no others. */
  ghost predicate Lists(rows: seq<Row>, status: Status, macs: seq<string>, at: seq<int>) {
    && |at| == |macs| && Increasing(at)
    && (forall j :: 0 <= j < |at| ==> IsDevice(rows, at[j], status, macs[j]))
    && (forall i :: 0 <= i < |rows| && rows[i].status == status && ValidMac(Lower(rows[i].mac)) ==> i in at)
  }

  lemma ListsOneMore(rows: seq<Row>, row: Row, status: Status, macs: seq<string>, at: seq<int>)
    requires Lists(rows, status, macs, at)
    ensures if row.status == status && ValidMac(Lower(row.mac))
      then Lists(rows + [row], status, macs + [Lower(row.mac)], at + [|rows|])
      else Lists(rows + [row], status, macs, at)
  {
    var more := rows + [row];
    assert forall j :: 0 <= j < |at| ==> at[j] < |rows| && IsDevice(more, at[j], status, macs[j]);
  }

  /** The list holds one address for each device row of its status, in row order. */
  lemma {:induction false} SnapshotKeepsOrder(rows: seq<Row>, status: Status) returns (at: seq<int>)
    ensures Lists(rows, status, MacsWith(rows, status), at)
  {
    if rows == [] {
      at := [];
    } else {
      var n := |rows| - 1;
      at := SnapshotKeepsOrder(rows[..n], status);
      ListsOneMore(rows[..n], rows[n], status, MacsWith(rows[..n], status), at);
      assert rows[..n] + [rows[n]] == rows;
      if rows[n].status == status && ValidMac(Lower(rows[n].mac)) { at := at + [n]; }
    }
  }

  // ----- the forward chain -----

  /** The policy, on the table. */
  ghost function TableForward(rows: seq<Row>, rules: seq<UserRule>, udp: seq<nat>, tcp: seq<nat>, p: Packet): Verdict {
    if p.flow == Established || p.flow == Related then Accept
    else if Device(rows, BlockedStatus, p.smac) then Drop
    else if Device(rows, OpenStatus, p.smac) then Accept
    else if FirstForwardRule(rules, p).Some? then FirstForwardRule(rules, p).value
    else if p.flow == New && Device(rows, FilteredStatus, p.smac)
            && ((p.proto == Udp && p.dport in udp) || (p.proto == Tcp && p.dport in tcp)) then Accept
    else Drop
  }

  /** For every table, rules, ports and packet, the chain generated for the table does what the policy says. */
  lemma ForwardMeansTable(rows: seq<Row>, rules: seq<UserRule>, udp: seq<nat>, tcp: seq<nat>, p: Packet)
    ensures Eval(ForwardChain(rules, SnapshotOf(rows), udp, tcp), p) == Some(TableForward(rows, rules, udp, tcp, p))
  {
    ForwardMeansPolicy(rules, SnapshotOf(rows), udp, tcp, p);
    SnapshotIsTable(rows, p.smac);
  }

  /** A blocked row's device is dropped outside established flows, whatever the rules and ports say. */
  lemma BlockedIsDropped(rows: seq<Row>, i: nat, rules: seq<UserRule>, udp: seq<nat>, tcp: seq<nat>, p: Packet)
    requires IsDevice(rows, i, BlockedStatus, p.smac) && p.flow != Established && p.flow != Related
    ensures Eval(ForwardChain(rules, SnapshotOf(rows), udp, tcp), p) == Some(Drop)
  {
    ForwardMeansTable(rows, rules, udp, tcp, p);
  }

  /** A device with no row, or a row the snapshot skips, gets through only by a user rule. */
  lemma UnknownIsDropped(rows: seq<Row>, rules: seq<UserRule>, udp: seq<nat>, tcp: seq<nat>, p: Packet)
    requires forall status :: !Device(rows, status, p.smac)
    requires p.flow != Established && p.flow != Related
    ensures Eval(ForwardChain(rules, SnapshotOf(rows), udp, tcp), p)
         == Some(if FirstForwardRule(rules, p).Some? then FirstForwardRule(rules, p).value else Drop)
  {
    ForwardMeansTable(rows, rules, udp, tcp, p);
  }

  // ----- prerouting -----

  /** What prerouting does, on the table. */
  ghost function TableNat(cfg: Config, rows: seq<Row>, p: Packet): Option<Verdict> {
    if p.iif != cfg.lan then None
    else if Device(rows, FilteredStatus, p.smac) && NatOf(cfg, true, p).Some? then NatOf(cfg, true, p)
    else if Device(rows, OpenStatus, p.smac) then NatOf(cfg, false, p)
    else None
  }

  lemma NatMeansTable(cfg: Config, rows: seq<Row>, p: Packet)
    ensures Eval(NatChain(cfg, SnapshotOf(rows)), p) == TableNat(cfg, rows, p)
  {
    NatMeansPolicy(cfg, SnapshotOf(rows), p);
    SnapshotIsTable(rows, p.smac);
  }
}
