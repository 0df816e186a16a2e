/**
 * The block/unblock response engine (alert_manager.py).
 *
 * Each operation is a step function on the host's state, which the lemmas
 * reason about, and a method that performs it on the host in the order the
 * source does and is proved to agree with the step. Two outside results are
 * inputs: whether reading or writing the block list raises (`listFails`),
 * and how the firewall command ends (`fw`).
 */
module AlertManager {
  import opened Text
  import opened Store

  /** The user every journal line of this program names. */
  const Admin: string := "admin"

  /** What the reply's message says. */
  datatype Msg =
    | ListIoError       // the block list could not be read or written
    | SimulatedMsg      // simulate mode: no system change
    | NetshDone         // the firewall command exited with status 0
    | NetshOutput       // the command's stderr, or its stdout
    | InvocationError   // the command could not be run

  /** The `{ok, msg}` dictionary the functions return. */
  datatype Reply = Reply(ok: bool, msg: Msg)

  /** The journal action and the reply of a block attempt whose list write succeeded. */
  function BlockOutcome(simulate: bool, fw: FwOutcome): (Action, Reply) {
    if simulate then (SimulatedBlock, Reply(true, SimulatedMsg))
    else match fw
      case Ok => (Block, Reply(true, NetshDone))
      case NonZero => (BlockFailed, Reply(false, NetshOutput))
      case Raised => (BlockError, Reply(false, InvocationError))
  }

  /** The journal action and the reply of an unblock attempt whose list rewrite succeeded. */
  function UnblockOutcome(simulate: bool, fw: FwOutcome): (Action, Reply) {
    if simulate then (SimulatedUnblock, Reply(true, SimulatedMsg))
    else match fw
      case Ok => (Unblock, Reply(true, NetshDone))
      case NonZero => (UnblockFailed, Reply(false, NetshOutput))
      case Raised => (UnblockError, Reply(false, InvocationError))
  }

  /** The text written back by unblock: `"\n".join(lines) + "\n"` when there are lines, else nothing. */
  function JoinLines(lines: seq<string>): string {
    if lines == [] then "" else Join("\n", lines) + "\n"
  }

  /** The block list after unblock's read-and-rewrite; an absent file stays absent. */
  function Rewrite(file: Option<string>, ip: string): Option<string> {
    match file
    case None => None
    case Some(t) => Some(JoinLines(Without(Entries(t), ip)))
  }

  /** `block_ip_system` as a step on the host's state. */
  function BlockStep(s: Files, ip: string, simulate: bool, listFails: bool, fw: FwOutcome): (Files, Reply) {
    if listFails then (s, Reply(false, ListIoError))
    else
      var (action, reply) := BlockOutcome(simulate, fw);
      var calls := if simulate then s.firewall else s.firewall + [AddRule(RuleName(ip), ip)];
      (Files(Appended(s.blockList, ip + "\n"), s.journal + [ManagerLine(Admin, action, ip)], calls), reply)
  }

  /** `unblock_ip_system` as a step on the host's state. Only a file that exists is read and rewritten. */
  function UnblockStep(s: Files, ip: string, simulate: bool, listFails: bool, fw: FwOutcome): (Files, Reply) {
    if listFails && s.blockList.Some? then (s, Reply(false, ListIoError))
    else
      var (action, reply) := UnblockOutcome(simulate, fw);
      var calls := if simulate then s.firewall else s.firewall + [DeleteRule(RuleName(ip))];
      (Files(Rewrite(s.blockList, ip), s.journal + [ManagerLine(Admin, action, ip)], calls), reply)
  }

  // ---------------------------------------------------------------------------
  // The operations on the host

  /** `log_action`: append one journal line naming the user, the action and the address. */
  method LogAction(h: Host, action: Action, ip: string, user: string)
    modifies h
    ensures h.journal == old(h.journal) + [ManagerLine(user, action, ip)]
    ensures h.blockList == old(h.blockList) && h.firewall == old(h.firewall)
  {
    h.journal := h.journal + [ManagerLine(user, action, ip)];
  }

  method BlockIpSystem(h: Host, ip: string, simulate: bool, listFails: bool, fw: FwOutcome)
    returns (reply: Reply)
    modifies h
    ensures (h.State(), reply) == BlockStep(old(h.State()), ip, simulate, listFails, fw)
  {
    if listFails {
      return Reply(false, ListIoError);
    }
    h.blockList := Appended(h.blockList, ip + "\n");
    if simulate {
      LogAction(h, SimulatedBlock, ip, Admin);
      return Reply(true, SimulatedMsg);
    }
    h.firewall := h.firewall + [AddRule(RuleName(ip), ip)];
    match fw {
      case Ok =>
        LogAction(h, Block, ip, Admin);
        reply := Reply(true, NetshDone);
      case NonZero =>
        LogAction(h, BlockFailed, ip, Admin);
        reply := Reply(false, NetshOutput);
      case Raised =>
        LogAction(h, BlockError, ip, Admin);
        reply := Reply(false, InvocationError);
    }
  }

  method UnblockIpSystem(h: Host, ip: string, simulate: bool, listFails: bool, fw: FwOutcome)
    returns (reply: Reply)
    modifies h
    ensures (h.State(), reply) == UnblockStep(old(h.State()), ip, simulate, listFails, fw)
  {
    if h.blockList.Some? {
      if listFails {
        return Reply(false, ListIoError);
      }
      var lines := Without(Entries(h.blockList.value), ip);
      h.blockList := Some(if lines != [] then Join("\n", lines) + "\n" else "");
    }
    assert h.blockList == Rewrite(old(h.blockList), ip);
    if simulate {
      LogAction(h, SimulatedUnblock, ip, Admin);
      return Reply(true, SimulatedMsg);
    }
    h.firewall := h.firewall + [DeleteRule(RuleName(ip))];
    match fw {
      case Ok =>
        LogAction(h, Unblock, ip, Admin);
        reply := Reply(true, NetshDone);
      case NonZero =>
        LogAction(h, UnblockFailed, ip, Admin);
        reply := Reply(false, NetshOutput);
      case Raised =>
        LogAction(h, UnblockError, ip, Admin);
        reply := Reply(false, InvocationError);
    }
  }

  // ---------------------------------------------------------------------------
  // Block

  /**
   * A block whose list write fails changes nothing and fails; otherwise the
   * address is appended and exactly one journal line records the outcome,
   * and the add-rule command is issued only in real mode.
   */
  lemma BlockEffects(s: Files, ip: string, simulate: bool, listFails: bool, fw: FwOutcome)
    ensures var (t, r) := BlockStep(s, ip, simulate, listFails, fw);
      && (listFails ==> t == s && !r.ok && r.msg == ListIoError)
      && (!listFails ==> t.blockList == Appended(s.blockList, ip + "\n"))
      && (!listFails ==> |t.journal| == |s.journal| + 1 && t.journal[..|s.journal|] == s.journal)
      && (!listFails ==> t.journal[|s.journal|] == ManagerLine(Admin, BlockOutcome(simulate, fw).0, ip))
      && t.firewall == s.firewall + (if !listFails && !simulate then [AddRule(RuleName(ip), ip)] else [])
  {
    var (t, r) := BlockStep(s, ip, simulate, listFails, fw);
    if !listFails {
      assert (s.journal + [ManagerLine(Admin, BlockOutcome(simulate, fw).0, ip)])[..|s.journal|] == s.journal;
    }
  }

  /**
   * The outcome of a block maps one-to-one to its journal action, and `ok`
   * holds exactly for a simulated block and for exit status 0.
   */
  lemma BlockOutcomeTable(simulate: bool, fw: FwOutcome, simulate': bool, fw': FwOutcome)
    ensures BlockOutcome(simulate, fw).1.ok <==> simulate || fw == Ok
    ensures BlockOutcome(simulate, fw).0 == BlockOutcome(simulate', fw').0 <==>
              (simulate && simulate') || (!simulate && !simulate' && fw == fw')
  {
  }

  /**
   * The unblock outcomes mirror the block ones: `ok` exactly for simulate or
   * exit status 0, and each of the four outcomes has its own journal action.
   */
  lemma UnblockOutcomeTable(simulate: bool, fw: FwOutcome, simulate': bool, fw': FwOutcome)
    ensures UnblockOutcome(simulate, fw).1.ok <==> simulate || fw == Ok
    ensures UnblockOutcome(simulate, fw).0 == UnblockOutcome(simulate', fw').0 <==>
              (simulate && simulate') || (!simulate && !simulate' && fw == fw')
  {
  }

  /** Blocking appends the address to what readers see, duplicates kept. */
  lemma BlockAppends(s: Files, ip: string, simulate: bool, fw: FwOutcome)
    requires WellFormed(s.blockList) && Clean(ip)
    ensures var t := BlockStep(s, ip, simulate, false, fw).0;
      WellFormed(t.blockList) && Listed(t.blockList) == Listed(s.blockList) + [ip]
  {
    AppendAddress(s.blockList, ip);
  }

  // ---------------------------------------------------------------------------
  // Unblock

  /** What unblock writes reads back as the old entries without the address, in order. */
  lemma RewriteReadsBack(file: Option<string>, ip: string)
    ensures WellFormed(Rewrite(file, ip))
    ensures Listed(Rewrite(file, ip)) == Without(Listed(file), ip)
    ensures file.None? <==> Rewrite(file, ip).None?
  {
    if file.Some? {
      var lines := Without(Entries(file.value), ip);
      EntriesClean(file.value);
      if lines != [] {
        JoinTerminate(lines);
      }
      EntriesOfTerminate(lines);
    }
  }

  /**
   * Unblock rewrites the list as the old entries minus every occurrence of
   * the address, journals exactly one line, and issues the delete-rule
   * command only in real mode; a failed read or write changes nothing.
   */
  lemma UnblockEffects(s: Files, ip: string, simulate: bool, listFails: bool, fw: FwOutcome)
    ensures var (t, r) := UnblockStep(s, ip, simulate, listFails, fw);
      && (listFails && s.blockList.Some? ==> t == s && !r.ok)
      && (!(listFails && s.blockList.Some?) ==>
            && Listed(t.blockList) == Without(Listed(s.blockList), ip)
            && ip !in Listed(t.blockList)
            && (s.blockList.None? ==> t.blockList.None?)
            && t.journal == s.journal + [ManagerLine(Admin, UnblockOutcome(simulate, fw).0, ip)]
            && t.firewall == s.firewall + (if simulate then [] else [DeleteRule(RuleName(ip))])
            && (r.ok <==> simulate || fw == Ok))
  {
    RewriteReadsBack(s.blockList, ip);
  }

  /** Unblocking an address that is not listed leaves the listed entries as they were. */
  lemma UnblockAbsent(s: Files, ip: string, simulate: bool, fw: FwOutcome)
    requires ip !in Listed(s.blockList)
    ensures Listed(UnblockStep(s, ip, simulate, false, fw).0.blockList) == Listed(s.blockList)
  {
    RewriteReadsBack(s.blockList, ip);
    WithoutAbsent(Listed(s.blockList), ip);
  }

  /** Rewriting twice writes the same text as rewriting once. */
  lemma RewriteIdempotent(file: Option<string>, ip: string)
    ensures Rewrite(Rewrite(file, ip), ip) == Rewrite(file, ip)
  {
    if file.Some? {
      var lines := Without(Entries(file.value), ip);
      RewriteReadsBack(file, ip);
      assert Entries(Rewrite(file, ip).value) == lines;
      WithoutAbsent(lines, ip);
    }
  }

  /** Unblocking twice leaves the same block list as unblocking once. */
  lemma UnblockTwice(s: Files, ip: string, simulate: bool, fw: FwOutcome, simulate': bool, fw': FwOutcome)
    ensures var once := UnblockStep(s, ip, simulate, false, fw).0;
      UnblockStep(once, ip, simulate', false, fw').0.blockList == once.blockList
  {
    RewriteIdempotent(s.blockList, ip);
  }

  /**
   * Block followed by unblock of the same address: the address is no longer
   * listed and the other entries are as before.
   */
  lemma BlockThenUnblock(s: Files, ip: string, simulate: bool, fw: FwOutcome, fw': FwOutcome)
    requires WellFormed(s.blockList) && Clean(ip)
    ensures var s1 := BlockStep(s, ip, simulate, false, fw).0;
      var s2 := UnblockStep(s1, ip, simulate, false, fw').0;
      && ip !in Listed(s2.blockList)
      && Listed(s2.blockList) == Without(Listed(s.blockList), ip)
  {
    var s1 := BlockStep(s, ip, simulate, false, fw).0;
    BlockAppends(s, ip, simulate, fw);
    RewriteReadsBack(s1.blockList, ip);
    WithoutAppend(Listed(s.blockList), [ip], ip);
    assert Without([ip], ip) == [];
  }

  /**
   * Block followed by unblock of the same address leaves two journal lines
   * about it, block first, and in real mode the delete command names the
   * rule the add command created.
   */
  lemma BlockThenUnblockRecords(s: Files, ip: string, simulate: bool, fw: FwOutcome, fw': FwOutcome)
    ensures var s1 := BlockStep(s, ip, simulate, false, fw).0;
      var s2 := UnblockStep(s1, ip, simulate, false, fw').0;
      && s2.journal == s.journal + [ManagerLine(Admin, BlockOutcome(simulate, fw).0, ip),
                                    ManagerLine(Admin, UnblockOutcome(simulate, fw').0, ip)]
      && (!simulate ==> s2.firewall == s.firewall + [AddRule(RuleName(ip), ip), DeleteRule(RuleName(ip))])
      && (simulate ==> s2.firewall == s.firewall)
  {
    var b := ManagerLine(Admin, BlockOutcome(simulate, fw).0, ip);
    var u := ManagerLine(Admin, UnblockOutcome(simulate, fw').0, ip);
    assert s.journal + [b] + [u] == s.journal + [b, u];
    assert s.firewall + [AddRule(RuleName(ip), ip)] + [DeleteRule(RuleName(ip))]
        == s.firewall + [AddRule(RuleName(ip), ip), DeleteRule(RuleName(ip))];
  }
}
