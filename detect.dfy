/**
 * The detection script (detect_ai.py) after capture: the table of sources
 * with their packet counts and confidences, the alert selection, and the
 * automated response that blocks every alerted source.
 *
 * The classifier is an input: `score` gives the attack probability the
 * trained model assigns to a packet count.
 */
module Detect {
  import opened Text
  import opened Store
  import opened Capture

  /** At most this many IP packets are read from a capture. */
  const MaxPackets: int := 200_000
  /** Reading a capture stops once more than this many seconds have elapsed. */
  const TimeLimit: real := 20.0
  /** A source is an attack when its confidence is strictly above this. */
  const AttackThreshold: real := 0.7

  /** One row of the table: a source, its packet count and the model's confidence. */
  datatype Row = Row(src: string, count: nat, confidence: real)

  /** The table built from the counter, in the counter's order, each row scored by the model. */
  function Table(order: seq<string>, counter: map<string, nat>, score: nat -> real): (rows: seq<Row>)
    requires forall a :: a in order ==> a in counter
    ensures |rows| == |order|
    ensures forall i :: 0 <= i < |rows| ==> rows[i].src == order[i] && rows[i].count == counter[order[i]]
    ensures forall i :: 0 <= i < |rows| ==> rows[i].confidence == score(rows[i].count)
  {
    seq(|order|, i requires 0 <= i < |order| => Row(order[i], counter[order[i]], score(counter[order[i]])))
  }

  /** The `is_attack` column. */
  function IsAttack(confidence: real): int {
    if confidence > AttackThreshold then 1 else 0
  }

  /** `alert_df`: the rows whose `is_attack` is 1, in table order; none for an empty table. */
  function Alerts(table: seq<Row>): (alerts: seq<Row>)
    ensures forall r :: r in alerts <==> r in table && r.confidence > AttackThreshold
    ensures |alerts| <= |table|
  {
    if table == [] then []
    else
      var last := table[|table| - 1];
      Alerts(table[..|table| - 1]) + (if IsAttack(last.confidence) == 1 then [last] else [])
  }

  /** The alerts keep the order of the table. */
  lemma {:induction false} AlertsInOrder(table: seq<Row>)
    ensures IsSubsequence(Alerts(table), table)
  {
    if table != [] {
      var init := table[..|table| - 1];
      var last := table[|table| - 1];
      AlertsInOrder(init);
      assert table == init + [last];
      if IsAttack(last.confidence) == 1 {
        var a := Alerts(table);
        assert a[..|a| - 1] == Alerts(init);
      } else {
        assert Alerts(table) == Alerts(init) + [];
        assert Alerts(init) + [] == Alerts(init);
        SubsequenceExtend(Alerts(init), init, last);
      }
    }
  }

  /** The colour printed for a source in the response loop. */
  datatype Colour = Green | Yellow | Red

  function Tier(confidence: real): Colour {
    if confidence < 0.5 then Green else if confidence < 0.8 then Yellow else Red
  }

  /** Every alerted row is printed yellow or red, never green. */
  lemma AlertNeverGreen(table: seq<Row>, r: Row)
    requires r in Alerts(table)
    ensures Tier(r.confidence) != Green
    ensures Tier(r.confidence) == Red <==> r.confidence >= 0.8
  {
  }

  /** The addresses of the rows. */
  function Addresses(rows: seq<Row>): (ips: seq<string>)
    ensures |ips| == |rows| && forall i :: 0 <= i < |rows| ==> ips[i] == rows[i].src
  {
    seq(|rows|, i requires 0 <= i < |rows| => rows[i].src)
  }

  /** The journal lines of blocking each address, in order. */
  function BlockLines(ips: seq<string>): (lines: seq<LogLine>)
    ensures |lines| == |ips| && forall i :: 0 <= i < |ips| ==> lines[i] == DetectLine(Block, ips[i])
  {
    seq(|ips|, i requires 0 <= i < |ips| => DetectLine(Block, ips[i]))
  }

  /** The firewall commands that block each address, in order. */
  function AddRules(ips: seq<string>): (calls: seq<FwCall>)
    ensures |calls| == |ips| && forall i :: 0 <= i < |ips| ==> calls[i] == AddRule(RuleName(ips[i]), ips[i])
  {
    seq(|ips|, i requires 0 <= i < |ips| => AddRule(RuleName(ips[i]), ips[i]))
  }

  // ---------------------------------------------------------------------------
  // Side effects on the host

  /** `log_action`: one journal line with the action's upper-case name and the address. */
  method LogAction(h: Host, action: Action, ip: string)
    modifies h
    ensures h.journal == old(h.journal) + [DetectLine(action, ip)]
    ensures h.blockList == old(h.blockList) && h.firewall == old(h.firewall)
  {
    h.journal := h.journal + [DetectLine(action, ip)];
  }

  /**
   * `block_ip`: append the address to the block list, run the add-rule
   * command (its exit status is ignored) and journal BLOCK.
   */
  method BlockIp(h: Host, ip: string)
    modifies h
    ensures h.blockList == Appended(old(h.blockList), ip + "\n")
    ensures h.firewall == old(h.firewall) + [AddRule(RuleName(ip), ip)]
    ensures h.journal == old(h.journal) + [DetectLine(Block, ip)]
  {
    h.blockList := Appended(h.blockList, ip + "\n");
    h.firewall := h.firewall + [AddRule(RuleName(ip), ip)];
    LogAction(h, Block, ip);
  }

  /** `unblock_ip`: run the delete-rule command and journal UNBLOCK; the block list is not touched. */
  method UnblockIp(h: Host, ip: string)
    modifies h
    ensures h.blockList == old(h.blockList)
    ensures h.firewall == old(h.firewall) + [DeleteRule(RuleName(ip))]
    ensures h.journal == old(h.journal) + [DetectLine(Unblock, ip)]
  {
    h.firewall := h.firewall + [DeleteRule(RuleName(ip))];
    LogAction(h, Unblock, ip);
  }

  /** `block_ip` as a step on the host's state. */
  function Blocked(s: Files, ip: string): Files {
    Files(Appended(s.blockList, ip + "\n"), s.journal + [DetectLine(Block, ip)], s.firewall + [AddRule(RuleName(ip), ip)])
  }

  /** The host's state after `block_ip` on each address, in order. */
  function Responded(s: Files, ips: seq<string>): Files
    decreases |ips|
  {
    if ips == [] then s else Blocked(Responded(s, ips[..|ips| - 1]), ips[|ips| - 1])
  }

  lemma RespondedSnoc(s: Files, ips: seq<string>, ip: string)
    ensures Responded(s, ips + [ip]) == Blocked(Responded(s, ips), ip)
  {
    assert (ips + [ip])[..|ips|] == ips;
  }

  /** Responding journals one `BLOCK` line per address, in order, and nothing else. */
  lemma {:induction false} RespondedJournal(s: Files, ips: seq<string>)
    ensures Responded(s, ips).journal == s.journal + BlockLines(ips)
    decreases |ips|
  {
    if ips != [] {
      var init, ip := ips[..|ips| - 1], ips[|ips| - 1];
      RespondedJournal(s, init);
      assert BlockLines(ips) == BlockLines(init) + [DetectLine(Block, ip)];
    }
  }

  /** Responding issues one add-rule command per address, in order, and nothing else. */
  lemma {:induction false} RespondedFirewall(s: Files, ips: seq<string>)
    ensures Responded(s, ips).firewall == s.firewall + AddRules(ips)
    decreases |ips|
  {
    if ips != [] {
      var init, ip := ips[..|ips| - 1], ips[|ips| - 1];
      RespondedFirewall(s, init);
      assert AddRules(ips) == AddRules(init) + [AddRule(RuleName(ip), ip)];
    }
  }

  /** Responding appends every address to the block list, one per line, in order; no addresses, no change. */
  lemma {:induction false} RespondedList(s: Files, ips: seq<string>)
    ensures ips == [] ==> Responded(s, ips) == s
    ensures ips != [] ==> Responded(s, ips).blockList == Appended(s.blockList, Terminate(ips))
    decreases |ips|
  {
    if ips != [] {
      var init, ip := ips[..|ips| - 1], ips[|ips| - 1];
      RespondedList(s, init);
      TerminateSnoc(init, ip);
      SplitLast(ips);
      if init == [] {
        TerminateCons(ips);
      } else {
        AppendedTwice(s.blockList, Terminate(init), ip + "\n");
      }
    }
  }

  /** Readers of a well-formed block list see it grow by the responded addresses, duplicates kept. */
  lemma RespondedListed(s: Files, ips: seq<string>)
    requires WellFormed(s.blockList) && forall ip :: ip in ips ==> Clean(ip)
    ensures WellFormed(Responded(s, ips).blockList)
    ensures Listed(Responded(s, ips).blockList) == Listed(s.blockList) + ips
  {
    RespondedList(s, ips);
    AppendAddresses(s.blockList, ips);
  }

  /** The colours printed for rows all above the attack threshold are never green. */
  lemma NoGreen(alerts: seq<Row>, shown: seq<Colour>)
    requires |shown| == |alerts| && forall i :: 0 <= i < |alerts| ==> shown[i] == Tier(alerts[i].confidence)
    requires forall r :: r in alerts ==> r.confidence > AttackThreshold
    ensures Green !in shown
  {
    forall c | c in shown ensures c != Green {
      var j :| 0 <= j < |shown| && shown[j] == c;
      assert alerts[j] in alerts;
    }
  }

  /** The addresses of alert rows with clean sources are clean. */
  lemma CleanAddresses(alerts: seq<Row>)
    requires forall r :: r in alerts ==> Clean(r.src)
    ensures forall ip :: ip in Addresses(alerts) ==> Clean(ip)
  {
    forall ip | ip in Addresses(alerts) ensures Clean(ip) {
      var j :| 0 <= j < |alerts| && Addresses(alerts)[j] == ip;
      assert alerts[j] in alerts;
    }
  }

  /**
   * The automated response: for each alert row, in order, print its colour
   * and block its address. Returns the colours printed.
   */
  method Respond(h: Host, alerts: seq<Row>) returns (shown: seq<Colour>)
    modifies h
    ensures |shown| == |alerts| && forall i :: 0 <= i < |alerts| ==> shown[i] == Tier(alerts[i].confidence)
    ensures (forall r :: r in alerts ==> r.confidence > AttackThreshold) ==> Green !in shown
    ensures h.State() == Responded(old(h.State()), Addresses(alerts))
    ensures h.journal == old(h.journal) + BlockLines(Addresses(alerts))
    ensures h.firewall == old(h.firewall) + AddRules(Addresses(alerts))
    ensures WellFormed(old(h.blockList)) && (forall r :: r in alerts ==> Clean(r.src)) ==>
              Listed(h.blockList) == Listed(old(h.blockList)) + Addresses(alerts)
  {
    ghost var s := h.State();
    shown := [];
    var i := 0;
    while i < |alerts|
      invariant 0 <= i <= |alerts|
      invariant |shown| == i && forall j :: 0 <= j < i ==> shown[j] == Tier(alerts[j].confidence)
      invariant h.State() == Responded(s, Addresses(alerts[..i]))
    {
      var row := alerts[i];
      shown := shown + [Tier(row.confidence)];
      assert Addresses(alerts[..i + 1]) == Addresses(alerts[..i]) + [row.src];
      RespondedSnoc(s, Addresses(alerts[..i]), row.src);
      BlockIp(h, row.src);
      i := i + 1;
    }
    assert alerts[..i] == alerts;
    RespondedJournal(s, Addresses(alerts));
    RespondedFirewall(s, Addresses(alerts));
    if forall r :: r in alerts ==> r.confidence > AttackThreshold {
      NoGreen(alerts, shown);
    }
    if WellFormed(s.blockList) && (forall r :: r in alerts ==> Clean(r.src)) {
      CleanAddresses(alerts);
      RespondedListed(s, Addresses(alerts));
    }
  }

  /**
   * One run of the script: read the capture, count the packets per source,
   * score the table, select the alerts and block each alerted source.
   */
  method RunDetection(h: Host, frames: seq<Frame>, elapsed: seq<real>, score: nat -> real)
    returns (packets: seq<Frame>, scanned: nat, stop: Stop, table: seq<Row>, alerts: seq<Row>)
    requires |elapsed| == |frames|
    modifies h
    // the packets read: the IP frames of the scanned prefix, with the stream's stop rules
    ensures scanned <= |frames| && packets == Carried(frames[..scanned])
    ensures |packets| <= MaxPackets && IsSubsequence(packets, frames)
    ensures forall i :: 0 <= i < scanned ==> elapsed[i] <= TimeLimit
    ensures scanned > 0 ==> |Carried(frames[..scanned - 1])| < MaxPackets
    ensures stop == Exhausted <==> scanned == |frames|
    ensures stop == TimeUp ==> scanned < |frames| && elapsed[scanned] > TimeLimit
    ensures stop == CapReached ==> scanned < |frames| && elapsed[scanned] <= TimeLimit && |packets| >= MaxPackets
    // the table: one row per source, in first-seen order, with its count and its score
    ensures |table| == |FirstSeen(Sources(packets))|
    ensures forall i :: 0 <= i < |table| ==> table[i].src == FirstSeen(Sources(packets))[i]
    ensures forall i :: 0 <= i < |table| ==>
              table[i].count == Occurrences(Sources(packets), table[i].src) && table[i].confidence == score(table[i].count)
    ensures forall i, j :: 0 <= i < j < |table| ==> table[i].src != table[j].src
    ensures forall a :: a in Sources(packets) <==> exists r :: r in table && r.src == a
    // the alerts and the response
    ensures alerts == Alerts(table)
    ensures forall a :: a in Addresses(alerts) <==>
              a in Sources(packets) && score(Occurrences(Sources(packets), a)) > AttackThreshold
    ensures h.State() == Responded(old(h.State()), Addresses(alerts))
    ensures alerts == [] ==> h.State() == old(h.State())
    ensures frames == [] ==> table == [] && alerts == [] && h.State() == old(h.State())
  {
    packets, scanned, stop := StreamPackets(frames, elapsed, MaxPackets, TimeLimit);
    var order, counter := CountSources(packets);
    table := Table(order, counter, score);
    TableRows(packets, order, counter, score);
    alerts := Alerts(table);
    AlertedExactly(Sources(packets), table, score);
    var shown := Respond(h, alerts);
    if alerts == [] {
      RespondedList(old(h.State()), Addresses(alerts));
    }
  }

  /**
   * The table lists every source of the packets once, in first-seen order,
   * with its packet count and the model's score of that count.
   */
  lemma TableRows(packets: seq<Frame>, order: seq<string>, counter: map<string, nat>, score: nat -> real)
    requires order == FirstSeen(Sources(packets))
    requires forall a :: a in order <==> a in counter
    requires forall a :: a in counter ==> counter[a] == Occurrences(Sources(packets), a)
    ensures |Table(order, counter, score)| == |FirstSeen(Sources(packets))|
    ensures forall i :: 0 <= i < |Table(order, counter, score)| ==>
              Table(order, counter, score)[i].src == FirstSeen(Sources(packets))[i]
    ensures forall i :: 0 <= i < |Table(order, counter, score)| ==>
              && Table(order, counter, score)[i].count == Occurrences(Sources(packets), Table(order, counter, score)[i].src)
              && Table(order, counter, score)[i].confidence == score(Table(order, counter, score)[i].count)
    ensures forall i, j :: 0 <= i < j < |Table(order, counter, score)| ==>
              Table(order, counter, score)[i].src != Table(order, counter, score)[j].src
    ensures forall r :: r in Table(order, counter, score) ==>
              r.count == Occurrences(Sources(packets), r.src) && r.confidence == score(r.count)
    ensures forall a :: a in Sources(packets) <==> exists r :: r in Table(order, counter, score) && r.src == a
  {
    var table := Table(order, counter, score);
    FirstSeenDistinct(Sources(packets));
    forall r | r in table ensures r.count == Occurrences(Sources(packets), r.src) && r.confidence == score(r.count) {
      var i :| 0 <= i < |table| && table[i] == r;
    }
    forall a | a in Sources(packets) ensures exists r :: r in table && r.src == a {
      var i :| 0 <= i < |order| && order[i] == a;
      assert table[i] in table;
    }
  }

  /**
   * An address is blocked exactly when it sent packets and the model scores
   * its packet count above the threshold.
   */
  lemma AlertedExactly(sources: seq<string>, table: seq<Row>, score: nat -> real)
    requires forall r :: r in table ==> r.count == Occurrences(sources, r.src) && r.confidence == score(r.count)
    requires forall a :: a in sources <==> exists r :: r in table && r.src == a
    ensures forall a :: a in Addresses(Alerts(table)) <==>
              a in sources && score(Occurrences(sources, a)) > AttackThreshold
  {
    var alerts := Alerts(table);
    forall a ensures a in Addresses(alerts) <==> a in sources && score(Occurrences(sources, a)) > AttackThreshold {
      if a in Addresses(alerts) {
        var i :| 0 <= i < |alerts| && Addresses(alerts)[i] == a;
        assert alerts[i] in alerts;
      }
      if a in sources && score(Occurrences(sources, a)) > AttackThreshold {
        var r :| r in table && r.src == a;
        assert r in alerts;
        var i :| 0 <= i < |alerts| && alerts[i] == r;
        assert Addresses(alerts)[i] == a;
      }
    }
  }
}
