/**
 * The state the three programs share on one host: the block-list file
 * `blocked_ip.txt`, the action journal `data/actions.log`, and the Windows
 * firewall, of which the model keeps the rule commands it was asked to run.
 */
module Store {
  import opened Text

  datatype Option<T> = None | Some(value: T)

  /** The actions a journal line can record. */
  datatype Action =
    | Block | Unblock
    | SimulatedBlock | SimulatedUnblock
    | BlockFailed | UnblockFailed
    | BlockError | UnblockError

  /** The upper-case word written for an action. */
  function ActionName(a: Action): (r: string)
    ensures Clean(r)
  {
    match a
    case Block => "BLOCK"
    case Unblock => "UNBLOCK"
    case SimulatedBlock => "SIMULATED_BLOCK"
    case SimulatedUnblock => "SIMULATED_UNBLOCK"
    case BlockFailed => "BLOCK_FAILED"
    case UnblockFailed => "UNBLOCK_FAILED"
    case BlockError => "BLOCK_ERROR"
    case UnblockError => "UNBLOCK_ERROR"
  }

  /**
   * One line of the action journal, in the format of the program that wrote
   * it; the timestamp every line starts with is not part of the model.
   */
  datatype LogLine =
    | DetectLine(action: Action, ip: string)                  // "<ts> | ACTION | ip"
    | ManagerLine(user: string, action: Action, ip: string)   // "[<ts>] user ACTION ip"
    | WebLine(action: Action, ip: string, simulate: bool)     // "<ts> | ACTION | ip | Simulate=True"
  {
    /** The IP address the line is about. */
    function Address(): string {
      match this
      case DetectLine(_, ip) => ip
      case ManagerLine(_, _, ip) => ip
      case WebLine(_, ip, _) => ip
    }
  }

  /** Python's `str()` of a boolean. */
  function BoolText(b: bool): string {
    if b then "True" else "False"
  }

  /** The text appended to the journal for `line`, given the timestamp `ts` it was stamped with. */
  function Render(line: LogLine, ts: string): (r: string)
    ensures |r| > 0 && r[|r| - 1] == '\n'
  {
    Fields(line, ts) + "\n"
  }

  /** A journal line without its line break: the timestamp, the action word and the address, with the writer's separators. */
  function Fields(line: LogLine, ts: string): string {
    match line
    case DetectLine(a, ip) => ts + " | " + ActionName(a) + " | " + ip
    case ManagerLine(user, a, ip) => "[" + ts + "] " + user + " " + ActionName(a) + " " + ip
    case WebLine(a, ip, sim) => ts + " | " + ActionName(a) + " | " + ip + " | Simulate=" + BoolText(sim)
  }

  /** A firewall command, as `netsh advfirewall firewall add rule` / `delete rule` is invoked. */
  datatype FwCall =
    | AddRule(name: string, remote: string)
    | DeleteRule(name: string)

  /** What running a firewall command came to: exit status 0, another status, or an exception. */
  datatype FwOutcome = Ok | NonZero | Raised

  /** The rule name both the add and the delete command use for an address. */
  function RuleName(ip: string): (r: string)
    ensures |r| == 6 + |ip| && r[..6] == "Block_" && r[6..] == ip
  {
    "Block_" + ip
  }

  /**
   * Different addresses get different rule names, so the delete command for
   * an address removes only the rule its add command created.
   */
  lemma RuleNameInjective(a: string, b: string)
    ensures RuleName(a) == RuleName(b) <==> a == b
  {
    if RuleName(a) == RuleName(b) {
      assert a == RuleName(a)[6..] == RuleName(b)[6..] == b;
    }
  }

  /** The block-list file after `open(path, "a").write(text)`: created when absent. */
  function Appended(file: Option<string>, text: string): (r: Option<string>)
    ensures r.Some?
    ensures file.Some? ==> r.value == file.value + text
    ensures file.None? ==> r.value == text
  {
    match file
    case None => Some(text)
    case Some(t) => Some(t + text)
  }

  /** The addresses a reader of the block list sees; an absent file holds none. */
  function Listed(file: Option<string>): (r: seq<string>)
    ensures forall e :: e in r ==> Clean(e)
  {
    match file
    case None => []
    case Some(t) => EntriesClean(t); Entries(t)
  }

  /** The block-list file ends with a line break (or is empty or absent). */
  predicate WellFormed(file: Option<string>) {
    file.None? || Terminated(file.value)
  }

  /** A value view of everything on the host the programs change. */
  datatype Files = Files(blockList: Option<string>, journal: seq<LogLine>, firewall: seq<FwCall>)

  /** The host: files that are appended to and rewritten in place, and the firewall's command record. */
  class Host {
    var blockList: Option<string>
    var journal: seq<LogLine>
    var firewall: seq<FwCall>

    function State(): Files
      reads this
    {
      Files(blockList, journal, firewall)
    }

    constructor (initial: Files)
      ensures State() == initial
    {
      blockList := initial.blockList;
      journal := initial.journal;
      firewall := initial.firewall;
    }
  }

  // ---------------------------------------------------------------------------
  // Properties of the block-list file shared by every writer

  /**
   * Appending an address and a line break to a well-formed file adds exactly
   * that address to what readers see, after every earlier entry (duplicates
   * kept), and the file stays well-formed.
   */
  lemma AppendAddress(file: Option<string>, ip: string)
    requires WellFormed(file) && Clean(ip)
    ensures WellFormed(Appended(file, ip + "\n"))
    ensures Listed(Appended(file, ip + "\n")) == Listed(file) + [ip]
  {
    var t := if file.Some? then file.value else "";
    assert Appended(file, ip + "\n").value == t + (ip + "\n");
    EntriesAppend(t, ip + "\n");
    EntriesOfLine(ip);
    if file.None? {
      assert Entries("") == [];
    }
  }

  /** Appending two texts one after the other is appending their concatenation. */
  lemma AppendedTwice(file: Option<string>, x: string, y: string)
    ensures Appended(file, x + y) == Appended(Appended(file, x), y)
  {
    if file.Some? {
      assert file.value + (x + y) == (file.value + x) + y;
    }
  }

  /** One address per line, split after the first line. */
  lemma TerminateCons(ips: seq<string>)
    requires ips != []
    ensures Terminate(ips) == (ips[0] + "\n") + Terminate(ips[1..])
    ensures |ips| == 1 ==> Terminate(ips) == ips[0] + "\n"
  {
  }

  /** Appending several addresses, one line each, adds them in order. */
  lemma {:induction false} AppendAddresses(file: Option<string>, ips: seq<string>)
    requires WellFormed(file) && forall ip :: ip in ips ==> Clean(ip)
    ensures ips != [] ==> WellFormed(Appended(file, Terminate(ips)))
    ensures ips != [] ==> Listed(Appended(file, Terminate(ips))) == Listed(file) + ips
    decreases |ips|
  {
    if ips != [] {
      var first, rest := ips[0], ips[1..];
      assert first in ips;
      var next := Appended(file, first + "\n");
      AppendAddress(file, first);
      TerminateCons(ips);
      if rest == [] {
        SplitFirst(ips);
      } else {
        AppendAddresses(next, rest);
        AppendedTwice(file, first + "\n", Terminate(rest));
        ConcatCons(Listed(file), ips);
      }
    }
  }

  /** A journal line written with a one-line timestamp and address is one line of the journal file. */
  lemma RenderedIsOneLine(line: LogLine, ts: string)
    requires '\n' !in ts && '\n' !in line.Address()
    requires '\r' !in ts && '\r' !in line.Address()
    requires line.ManagerLine? ==> '\n' !in line.user && '\r' !in line.user
    ensures Lines(Newlines(Render(line, ts))) == [Render(line, ts)]
  {
    var name := ActionName(line.action);
    assert '\n' !in name && '\r' !in name;
    var body := Fields(line, ts);
    assert '\r' !in body + "\n";
    NewlinesPlain(body + "\n");
    LinesOfLine(body);
  }
}
