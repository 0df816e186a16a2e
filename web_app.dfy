/**
 * The web dashboard's block-list handlers (app.py): `/api/block`,
 * `/api/unblock`, `/api/blocked` and the block list shown by `/dashboard`.
 *
 * The request body's `ip` is `None` when the key is missing; `simulate` is
 * `None` when missing and then defaults to true. `listFails` says whether
 * opening, reading or writing the block list raises; the handlers do not
 * catch that, so the request ends in a server error after whatever was
 * already done. `fw` is how the firewall command ends.
 */
module WebApp {
  import opened Text
  import opened Store
  import AlertManager

  /** The message of an accepted request. */
  datatype WebMsg =
    | SimulatedMsg   // simulate mode: no firewall command
    | DoneMsg        // the firewall command succeeded
    | FailedMsg      // the firewall command failed or could not be run

  /** What a handler answers. */
  datatype ApiReply =
    | Rejected               // `{"ok": False, "error": ...}`: no address given
    | Accepted(msg: WebMsg)  // `{"ok": True, "message": ...}`
    | ServerError            // an exception escaped the handler
  {
    /** The `ok` field of the JSON answer, when there is one. */
    predicate Ok() {
      Accepted?
    }
  }

  /** `if not ip`: a missing or empty address is refused. */
  predicate Present(ip: Option<string>) {
    ip.Some? && ip.value != ""
  }

  /** `data.get("simulate", True)`. */
  function SimulateFlag(simulate: Option<bool>): bool {
    match simulate
    case None => true
    case Some(b) => b
  }

  /** The message once the block list was updated. */
  function Message(sim: bool, fw: FwOutcome): WebMsg {
    if sim then SimulatedMsg else if fw == Ok then DoneMsg else FailedMsg
  }

  /** The block list as `api_unblock` writes it back: the remaining entries joined by line breaks, with none after the last. */
  function Unjoined(file: Option<string>, ip: string): Option<string> {
    match file
    case None => None
    case Some(t) => Some(Join("\n", Without(Entries(t), ip)))
  }

  /** `api_block` as a step on the host's state. */
  function ApiBlockStep(s: Files, ip: Option<string>, simulate: Option<bool>, listFails: bool, fw: FwOutcome): (Files, ApiReply) {
    if !Present(ip) then (s, Rejected)
    else
      var sim := SimulateFlag(simulate);
      var logged := s.(journal := s.journal + [WebLine(Block, ip.value, sim)]);
      if listFails then (logged, ServerError)
      else
        var calls := if sim then s.firewall else s.firewall + [AddRule(RuleName(ip.value), ip.value)];
        (logged.(blockList := Appended(s.blockList, ip.value + "\n"), firewall := calls), Accepted(Message(sim, fw)))
  }

  /** `api_unblock` as a step on the host's state; only an existing file is read and rewritten. */
  function ApiUnblockStep(s: Files, ip: Option<string>, simulate: Option<bool>, listFails: bool, fw: FwOutcome): (Files, ApiReply) {
    if !Present(ip) then (s, Rejected)
    else
      var sim := SimulateFlag(simulate);
      var logged := s.(journal := s.journal + [WebLine(Unblock, ip.value, sim)]);
      if listFails && s.blockList.Some? then (logged, ServerError)
      else
        var calls := if sim then s.firewall else s.firewall + [DeleteRule(RuleName(ip.value))];
        (logged.(blockList := Unjoined(s.blockList, ip.value), firewall := calls), Accepted(Message(sim, fw)))
  }

  // ---------------------------------------------------------------------------
  // The handlers on the host

  /** `log_action`: one journal line with the upper-cased action, the address and the simulate flag. */
  method LogAction(h: Host, action: Action, ip: string, simulate: bool)
    modifies h
    ensures h.journal == old(h.journal) + [WebLine(action, ip, simulate)]
    ensures h.blockList == old(h.blockList) && h.firewall == old(h.firewall)
  {
    h.journal := h.journal + [WebLine(action, ip, simulate)];
  }

  method ApiBlock(h: Host, ip: Option<string>, simulate: Option<bool>, listFails: bool, fw: FwOutcome)
    returns (reply: ApiReply)
    modifies h
    ensures (h.State(), reply) == ApiBlockStep(old(h.State()), ip, simulate, listFails, fw)
  {
    if !Present(ip) {
      return Rejected;
    }
    var sim := SimulateFlag(simulate);
    LogAction(h, Block, ip.value, sim);
    if listFails {
      return ServerError;
    }
    h.blockList := Appended(h.blockList, ip.value + "\n");
    if !sim {
      h.firewall := h.firewall + [AddRule(RuleName(ip.value), ip.value)];
    }
    reply := Accepted(Message(sim, fw));
  }

  method ApiUnblock(h: Host, ip: Option<string>, simulate: Option<bool>, listFails: bool, fw: FwOutcome)
    returns (reply: ApiReply)
    modifies h
    ensures (h.State(), reply) == ApiUnblockStep(old(h.State()), ip, simulate, listFails, fw)
  {
    if !Present(ip) {
      return Rejected;
    }
    var sim := SimulateFlag(simulate);
    LogAction(h, Unblock, ip.value, sim);
    if h.blockList.Some? {
      if listFails {
        return ServerError;
      }
      var lines := Without(Entries(h.blockList.value), ip.value);
      h.blockList := Some(Join("\n", lines));
    }
    if !sim {
      h.firewall := h.firewall + [DeleteRule(RuleName(ip.value))];
    }
    reply := Accepted(Message(sim, fw));
  }

  /** What `/api/blocked` answers. */
  datatype Listing =
    | Listing(blocked: seq<string>)  // the JSON list of entries
    | ListingError                   // reading the file raised: a server error

  /**
   * `api_blocked`: the stripped, non-blank lines of the block list in file
   * order; none when it is absent. The file is only opened when it exists,
   * so only then can reading it fail.
   */
  method ApiBlocked(h: Host, listFails: bool) returns (reply: Listing)
    ensures reply.ListingError? <==> listFails && h.blockList.Some?
    ensures reply.Listing? ==> reply.blocked == Listed(h.blockList)
    ensures h.blockList.None? ==> reply == Listing([])
    ensures reply.Listing? ==> forall e :: e in reply.blocked ==> Clean(e)
  {
    if h.blockList.None? {
      return Listing([]);
    }
    if listFails {
      return ListingError;
    }
    reply := Listing(Entries(h.blockList.value));
  }

  /** What `/dashboard` shows. */
  datatype Page =
    | NoData                           // the "no analysis data" text
    | Dashboard(blocked: seq<string>)  // the page with the block list
    | ErrorPage                        // reading the block list raised: a server error

  /**
   * `/dashboard`: the block list read with the same parse as `api_blocked`;
   * when there are neither alerts nor blocked addresses, the no-data page.
   * A read of an existing block list that raises is not caught.
   */
  method ShowDashboard(h: Host, haveAlerts: bool, listFails: bool) returns (page: Page)
    ensures page.ErrorPage? <==> listFails && h.blockList.Some?
    ensures page.Dashboard? ==> page.blocked == Listed(h.blockList)
    ensures page.NoData? <==> !(listFails && h.blockList.Some?) && !haveAlerts && Listed(h.blockList) == []
  {
    var blocked := [];
    if h.blockList.Some? {
      if listFails {
        return ErrorPage;
      }
      blocked := Entries(h.blockList.value);
    }
    if !haveAlerts && blocked == [] {
      return NoData;
    }
    page := Dashboard(blocked);
  }

  // ---------------------------------------------------------------------------
  // Properties

  /** A missing or empty address is refused and changes nothing. */
  lemma RejectedChangesNothing(s: Files, ip: Option<string>, simulate: Option<bool>, listFails: bool, fw: FwOutcome)
    requires !Present(ip)
    ensures ApiBlockStep(s, ip, simulate, listFails, fw) == (s, Rejected)
    ensures ApiUnblockStep(s, ip, simulate, listFails, fw) == (s, Rejected)
    ensures !Rejected.Ok()
  {
  }

  /**
   * Once an address is given, both handlers journal their line first, so the
   * line is there even when the block-list update then raises; with the list
   * updated they answer `ok` whatever the firewall did, which only changes
   * the message.
   */
  lemma LogsFirstAndAlwaysOk(s: Files, ip: string, simulate: Option<bool>, listFails: bool, fw: FwOutcome)
    requires ip != ""
    ensures var (t, r) := ApiBlockStep(s, Some(ip), simulate, listFails, fw);
      && t.journal == s.journal + [WebLine(Block, ip, SimulateFlag(simulate))]
      && (r.Ok() <==> !listFails)
      && (listFails ==> t.blockList == s.blockList && t.firewall == s.firewall)
    ensures var (t, r) := ApiUnblockStep(s, Some(ip), simulate, listFails, fw);
      && t.journal == s.journal + [WebLine(Unblock, ip, SimulateFlag(simulate))]
      && (r.Ok() <==> !(listFails && s.blockList.Some?))
  {
  }

  /** Without `simulate` the handlers simulate: no firewall command is issued. */
  lemma SimulateByDefault(s: Files, ip: Option<string>, listFails: bool, fw: FwOutcome)
    ensures ApiBlockStep(s, ip, None, listFails, fw).0.firewall == s.firewall
    ensures ApiUnblockStep(s, ip, None, listFails, fw).0.firewall == s.firewall
    ensures Present(ip) && !listFails ==> ApiBlockStep(s, ip, None, listFails, fw).1 == Accepted(SimulatedMsg)
  {
  }

  /**
   * In simulate mode, explicit or by default, no firewall command is issued;
   * in real mode, once the list update went through, exactly one command is
   * issued: the add rule for a block, the delete rule for an unblock, both
   * named after the address.
   */
  lemma FirewallCommands(s: Files, ip: Option<string>, simulate: Option<bool>, listFails: bool, fw: FwOutcome)
    ensures SimulateFlag(simulate) ==> ApiBlockStep(s, ip, simulate, listFails, fw).0.firewall == s.firewall
    ensures SimulateFlag(simulate) ==> ApiUnblockStep(s, ip, simulate, listFails, fw).0.firewall == s.firewall
    ensures Present(ip) && !SimulateFlag(simulate) && !listFails ==>
              ApiBlockStep(s, ip, simulate, listFails, fw).0.firewall == s.firewall + [AddRule(RuleName(ip.value), ip.value)]
    ensures Present(ip) && !SimulateFlag(simulate) && !(listFails && s.blockList.Some?) ==>
              ApiUnblockStep(s, ip, simulate, listFails, fw).0.firewall == s.firewall + [DeleteRule(RuleName(ip.value))]
    ensures !Present(ip) || (listFails && s.blockList.Some?) ==>
              ApiUnblockStep(s, ip, simulate, listFails, fw).0.firewall == s.firewall
    ensures !Present(ip) || listFails ==> ApiBlockStep(s, ip, simulate, listFails, fw).0.firewall == s.firewall
  {
  }

  /** A block adds the address to what readers see, after the earlier entries, duplicates kept. */
  lemma ApiBlockAppends(s: Files, ip: string, simulate: Option<bool>, fw: FwOutcome)
    requires WellFormed(s.blockList) && Clean(ip)
    ensures Listed(ApiBlockStep(s, Some(ip), simulate, false, fw).0.blockList) == Listed(s.blockList) + [ip]
  {
    AppendAddress(s.blockList, ip);
  }

  /**
   * What `api_unblock` writes reads back as the old entries without the
   * address, in order, but the file no longer ends with a line break when
   * entries remain.
   */
  lemma UnjoinedReadsBack(file: Option<string>, ip: string)
    ensures Listed(Unjoined(file, ip)) == Without(Listed(file), ip)
    ensures Without(Listed(file), ip) != [] ==> !WellFormed(Unjoined(file, ip))
  {
    if file.Some? {
      var kept := Without(Entries(file.value), ip);
      EntriesClean(file.value);
      EntriesOfJoin(kept);
      if kept != [] {
        JoinEndsWithEntry(kept);
      }
    }
  }

  /** `"\n".join` of clean entries does not end with a line break. */
  lemma {:induction false} JoinEndsWithEntry(xs: seq<string>)
    requires xs != [] && forall e :: e in xs ==> Clean(e)
    ensures var j := Join("\n", xs); j != "" && j[|j| - 1] != '\n'
    decreases |xs|
  {
    assert xs[0] in xs;
    if |xs| > 1 {
      forall e | e in xs[1..] ensures Clean(e) {
        assert e in xs;
      }
      JoinEndsWithEntry(xs[1..]);
      var rest := Join("\n", xs[1..]);
      assert Join("\n", xs) == (xs[0] + "\n") + rest;
    }
  }

  /**
   * The unblock handler followed by the block handler: when entries remain,
   * the blocked address is glued onto the last remaining entry, so a reader
   * sees one merged entry and no new one.
   */
  lemma UnblockThenBlockFuses(s: Files, x: string, ip: string, sim: Option<bool>, fw: FwOutcome, sim': Option<bool>, fw': FwOutcome)
    requires x != "" && Clean(ip)
    requires Without(Listed(s.blockList), x) != []
    ensures var kept := Without(Listed(s.blockList), x);
      var s1 := ApiUnblockStep(s, Some(x), sim, false, fw).0;
      var s2 := ApiBlockStep(s1, Some(ip), sim', false, fw').0;
      && Listed(s2.blockList) == kept[..|kept| - 1] + [kept[|kept| - 1] + ip]
      && |Listed(s2.blockList)| == |kept|
  {
    var kept := Without(Listed(s.blockList), x);
    assert s.blockList.Some?;
    var j := Join("\n", kept);
    EntriesClean(s.blockList.value);
    EntriesFuse(kept, ip);
    assert j + (ip + "\n") == j + ip + "\n";
  }

  /**
   * The concrete case: with 10.0.0.1 and 10.0.0.2 listed, unblocking
   * 10.0.0.2 and then blocking 10.0.0.3 lists one merged entry.
   */
  lemma FusedExample(s: Files, fw: FwOutcome, fw': FwOutcome)
    requires Listed(s.blockList) == ["10.0.0.1", "10.0.0.2"]
    ensures var s1 := ApiUnblockStep(s, Some("10.0.0.2"), None, false, fw).0;
      var s2 := ApiBlockStep(s1, Some("10.0.0.3"), None, false, fw').0;
      Listed(s2.blockList) == ["10.0.0.110.0.0.3"]
  {
    ExampleFacts();
    UnblockThenBlockFuses(s, "10.0.0.2", "10.0.0.3", None, fw, None, fw');
  }

  lemma ExampleFacts()
    ensures Clean("10.0.0.3")
    ensures var kept := Without(["10.0.0.1", "10.0.0.2"], "10.0.0.2");
      kept != [] && kept[..|kept| - 1] + [kept[|kept| - 1] + "10.0.0.3"] == ["10.0.0.110.0.0.3"]
  {
    var kept := Without(["10.0.0.1", "10.0.0.2"], "10.0.0.2");
    assert kept == ["10.0.0.1"];
    assert kept[..0] == [];
    assert "10.0.0.1" + "10.0.0.3" == "10.0.0.110.0.0.3";
  }

  // ---------------------------------------------------------------------------
  // The unblock handler with the trailing line break

  /** `api_unblock` writing the remaining entries one per line, as the response engine does. */
  function ApiUnblockCorrectedStep(s: Files, ip: Option<string>, simulate: Option<bool>, listFails: bool, fw: FwOutcome): (Files, ApiReply) {
    var (t, r) := ApiUnblockStep(s, ip, simulate, listFails, fw);
    if r.Accepted? then (t.(blockList := AlertManager.Rewrite(s.blockList, ip.value)), r) else (t, r)
  }

  /**
   * With the trailing line break, unblock followed by block lists the
   * remaining entries and then the blocked address as an entry of its own,
   * and the file stays well-formed.
   */
  lemma UnblockThenBlockSeparate(s: Files, x: string, ip: string, sim: Option<bool>, fw: FwOutcome, sim': Option<bool>, fw': FwOutcome)
    requires x != "" && Clean(ip)
    ensures var s1 := ApiUnblockCorrectedStep(s, Some(x), sim, false, fw).0;
      var s2 := ApiBlockStep(s1, Some(ip), sim', false, fw').0;
      && WellFormed(s1.blockList)
      && Listed(s1.blockList) == Without(Listed(s.blockList), x)
      && Listed(s2.blockList) == Without(Listed(s.blockList), x) + [ip]
  {
    var s1 := ApiUnblockCorrectedStep(s, Some(x), sim, false, fw).0;
    AlertManager.RewriteReadsBack(s.blockList, x);
    ApiBlockAppends(s1, ip, sim', fw');
  }
}
