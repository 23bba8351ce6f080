/** Commands as argument vectors, the three ways a `subprocess.run` call
    ends, and the exceptions the engine raises or catches. A `Shell` records
    every command it is asked to run; what each run does is decided by an
    oracle indexed by the position of the command in the trace, so the same
    command may succeed once and fail the next time. */
module Shell {
  import opened Text

  /** The commands the engine runs; `Argv` gives each one's argument
      vector. */
  datatype Cmd =
    | IpLink(dev: string, up: bool)
    | IpAddrFlush(dev: string)
    | IpAddrAdd(cidr: string, dev: string)
    | IpRouteDelDefault(dev: string)
    | IpRouteAddDefault(via: string, dev: string)
    | Dhclient(dev: string)
    | NetplanGenerate
    | NetplanApply
    | NetplanInfo(path: string)
    | IfUpDown(up: bool, dev: string)
    | NmcliConnection(up: bool, dev: string)
    | SystemctlRestart(unit: string)
    | InitScriptRestart
    | HostnamectlHostname
    | HostnameCmd
    | HostnamectlSet(host: string)

  function UpDown(up: bool): string {
    if up then "up" else "down"
  }

  /** The argument vector handed to `subprocess.run`. */
  function Argv(c: Cmd): seq<string> {
    match c
    case IpLink(dev, up) => ["ip", "link", "set", "dev", dev, UpDown(up)]
    case IpAddrFlush(dev) => ["ip", "addr", "flush", "dev", dev]
    case IpAddrAdd(cidr, dev) => ["ip", "addr", "add", cidr, "dev", dev]
    case IpRouteDelDefault(dev) => ["ip", "route", "del", "default", "dev", dev]
    case IpRouteAddDefault(via, dev) => ["ip", "route", "add", "default", "via", via, "dev", dev]
    case Dhclient(dev) => ["dhclient", dev]
    case NetplanGenerate => ["netplan", "generate"]
    case NetplanApply => ["netplan", "apply"]
    case NetplanInfo(path) => ["netplan", "info", path]
    case IfUpDown(up, dev) => [if up then "ifup" else "ifdown", dev]
    case NmcliConnection(up, dev) => ["nmcli", "connection", UpDown(up), dev]
    case SystemctlRestart(unit) => ["systemctl", "restart", unit]
    case InitScriptRestart => ["/etc/init.d/networking", "restart"]
    case HostnamectlHostname => ["hostnamectl", "hostname"]
    case HostnameCmd => ["hostname"]
    case HostnamectlSet(host) => ["hostnamectl", "set-hostname", host]
  }

  /** Exit status 0, a non-zero exit status, or no such executable. */
  datatype Outcome = Ok | Fail | Missing

  /** The exceptions that matter to the engine's control flow. */
  datatype Exc =
    | CalledProcessError    // a checked command exited non-zero
    | FileNotFound          // the executable does not exist
    | ValueError            // `int()` of a malformed piece, or a negative shift count
    | WriteError            // a file could not be written
    | Http(status: int)     // an `HTTPException` with that status code

  /** A computation that yields a `T` or raises. */
  datatype Result<T> = Value(value: T) | Raised(exc: Exc)

  /** What `subprocess.run(cmd, check=check)` raises for an outcome: a
      missing executable raises whatever `check` says; a non-zero status
      raises only when checked. */
  function Raises(o: Outcome, check: bool): (e: Option<Exc>)
    ensures e == None <==> o == Ok || (o == Fail && !check)
    ensures o == Missing ==> e == Some(FileNotFound)
    ensures e.Some? && o != Missing ==> e == Some(CalledProcessError)
  {
    match o
    case Ok => None
    case Fail => if check then Some(CalledProcessError) else None
    case Missing => Some(FileNotFound)
  }

  /** `except (subprocess.CalledProcessError, FileNotFoundError)`. */
  predicate IsCommandError(e: Exc) {
    e == CalledProcessError || e == FileNotFound
  }

  /** What the `except` clauses around a command do with what it raised. */
  datatype Handler =
    | Escape   // not caught: it propagates out of the block
    | Stop     // caught by the block's own `except`: the rest of the block is skipped
    | Resume   // caught around this command alone: the block goes on

  /** A statement of a `try` block: a command run with `check` and the
      handlers for a non-zero exit and for a missing executable, or an
      exception raised outright. */
  datatype Step = Exec(cmd: Cmd, check: bool, onFail: Handler, onMissing: Handler) | Throw(exc: Exc)

  /** What a block did: the commands it ran, the exception that escaped it,
      and whether its `except` caught one. */
  datatype Ran = Ran(cmds: seq<Cmd>, raised: Option<Exc>, caught: bool)

  /** The handler that applies to what a command raised. */
  function Handling(e: Option<Exc>, onFail: Handler, onMissing: Handler): Handler {
    if e.None? then Resume else if e == Some(CalledProcessError) then onFail else onMissing
  }

  /** A block run from the `k`-th command of the trace: each command in
      turn, until one raises something that is not resumed. */
  function RunBlock(steps: seq<Step>, ans: (nat, Cmd) -> Outcome, k: nat): Ran
    decreases |steps|
  {
    if steps == [] then Ran([], None, false)
    else
      match steps[0]
      case Throw(x) => Ran([], Some(x), false)
      case Exec(c, check, onFail, onMissing) =>
        var e := Raises(ans(k, c), check);
        match Handling(e, onFail, onMissing)
        case Escape => Ran([c], e, false)
        case Stop => Ran([c], None, true)
        case Resume =>
          var r := RunBlock(steps[1..], ans, k + 1);
          Ran([c] + r.cmds, r.raised, r.caught)
  }

  /** Two blocks one after the other: the second runs only when the first
      ran to its end. */
  function Sequenced(r1: Ran, r2: Ran): Ran {
    if r1.raised.Some? || r1.caught then r1 else Ran(r1.cmds + r2.cmds, r2.raised, r2.caught)
  }

  /** `try: a except ...: b`: `b` runs only when `a`'s `except` caught. */
  function Excepted(r1: Ran, r2: Ran): Ran {
    if r1.caught then Ran(r1.cmds + r2.cmds, r2.raised, r2.caught) else r1
  }

  /** A block of two parts runs the first, then the second from where the
      first stopped. */
  lemma {:induction false} RunBlockAppend(a: seq<Step>, b: seq<Step>, ans: (nat, Cmd) -> Outcome, k: nat)
    ensures RunBlock(a + b, ans, k) == Sequenced(RunBlock(a, ans, k), RunBlock(b, ans, k + |RunBlock(a, ans, k).cmds|))
  {
    if a == [] {
      var rb := RunBlock(b, ans, k);
      assert a + b == b;
      assert RunBlock(a, ans, k) == Ran([], None, false);
      assert [] + rb.cmds == rb.cmds;
      assert Sequenced(Ran([], None, false), rb) == rb;
    } else {
      var s := StepRan(a[0], ans, k);
      var j := k + |s.cmds|;
      RunBlockConsAppend(a, b, ans, k);
      RunBlockCons(a, ans, k);
      RunBlockAppend(a[1..], b, ans, j);
      var r := RunBlock(a[1..], ans, j);
      var q := RunBlock(b, ans, j + |r.cmds|);
      var ra := RunBlock(a, ans, k);
      var q2 := RunBlock(b, ans, k + |ra.cmds|);
      assert ra == Sequenced(s, r);
      if s.raised.None? && !s.caught {
        assert k + |ra.cmds| == j + |r.cmds|;
      }
      SequencedRegroup(RunBlock(a + b, ans, k), s, r, q, ra, q2);
    }
  }

  /** The first step of `a + b` is the first step of `a`. */
  lemma RunBlockConsAppend(a: seq<Step>, b: seq<Step>, ans: (nat, Cmd) -> Outcome, k: nat)
    requires a != []
    ensures RunBlock(a + b, ans, k) ==
      Sequenced(StepRan(a[0], ans, k), RunBlock(a[1..] + b, ans, k + |StepRan(a[0], ans, k).cmds|))
  {
    var ab := a + b;
    assert ab[0] == a[0];
    assert ab[1..] == a[1..] + b;
    RunBlockCons(ab, ans, k);
  }

  /** The regrouping step of `RunBlockAppend`: the tail runs from the same
      place whenever the first part went on. */
  lemma SequencedRegroup(x: Ran, s: Ran, r: Ran, q: Ran, ra: Ran, q2: Ran)
    requires x == Sequenced(s, Sequenced(r, q))
    requires ra == Sequenced(s, r)
    requires s.raised.None? && !s.caught ==> q2 == q
    ensures x == Sequenced(ra, q2)
  {
    SequencedAssoc(s, r, q);
  }

  /** Running three parts in turn does not depend on how they are grouped. */
  lemma SequencedAssoc(s: Ran, r: Ran, q: Ran)
    ensures Sequenced(s, Sequenced(r, q)) == Sequenced(Sequenced(s, r), q)
  {
    if s.raised.None? && !s.caught && r.raised.None? && !r.caught {
      ConcatAssoc(s.cmds, r.cmds, q.cmds);
    }
  }

  lemma ConcatAssoc(a: seq<Cmd>, b: seq<Cmd>, c: seq<Cmd>)
    ensures (a + b) + c == a + (b + c)
  {
  }

  /** What one command step does on its own. */
  function StepRan(s: Step, ans: (nat, Cmd) -> Outcome, k: nat): Ran {
    match s
    case Throw(x) => Ran([], Some(x), false)
    case Exec(c, check, onFail, onMissing) =>
      var e := Raises(ans(k, c), check);
      match Handling(e, onFail, onMissing)
      case Escape => Ran([c], e, false)
      case Stop => Ran([c], None, true)
      case Resume => Ran([c], None, false)
  }

  /** A block is its first step, then (when that step resumed) the rest. */
  lemma RunBlockCons(steps: seq<Step>, ans: (nat, Cmd) -> Outcome, k: nat)
    requires steps != []
    ensures RunBlock(steps, ans, k) == Sequenced(StepRan(steps[0], ans, k), RunBlock(steps[1..], ans, k + |StepRan(steps[0], ans, k).cmds|))
  {
  }

  /** A block of two steps: the second runs when the first resumed. */
  lemma RunBlockPair(steps: seq<Step>, ans: (nat, Cmd) -> Outcome, k: nat)
    requires |steps| == 2
    ensures RunBlock(steps, ans, k) == Sequenced(StepRan(steps[0], ans, k), StepRan(steps[1], ans, k + |StepRan(steps[0], ans, k).cmds|))
  {
    RunBlockCons(steps, ans, k);
    var rest := steps[1..];
    assert rest[0] == steps[1] && rest[1..] == [];
    RunBlockCons(rest, ans, k + |StepRan(steps[0], ans, k).cmds|);
  }

  /** Only a checked command, a missing executable or a `Throw` raises out
      of a block, and a block whose handlers never stop is never caught. */
  lemma {:induction false} RunBlockRaised(steps: seq<Step>, ans: (nat, Cmd) -> Outcome, k: nat)
    ensures var r := RunBlock(steps, ans, k);
      r.raised.Some? ==> r.raised.value in {CalledProcessError, FileNotFound} || Throw(r.raised.value) in steps
    ensures (forall i :: 0 <= i < |steps| && steps[i].Exec? ==> steps[i].onFail != Stop && steps[i].onMissing != Stop) ==>
      !RunBlock(steps, ans, k).caught
  {
    if steps != [] && steps[0].Exec? {
      RunBlockRaised(steps[1..], ans, k + 1);
      assert forall i :: 0 <= i < |steps[1..]| ==> steps[1..][i] == steps[i + 1];
      var x := RunBlock(steps[1..], ans, k + 1).raised;
      if x.Some? && Throw(x.value) in steps[1..] {
        assert Throw(x.value) in steps;
      }
    }
  }

  /** The `j`-th command run is the command of the `j`-th step. */
  predicate InOrder(steps: seq<Step>, cmds: seq<Cmd>) {
    |cmds| <= |steps| && forall j :: 0 <= j < |cmds| ==> steps[j].Exec? && steps[j].cmd == cmds[j]
  }

  lemma InOrderCons(steps: seq<Step>, cmds: seq<Cmd>)
    requires steps != [] && steps[0].Exec? && InOrder(steps[1..], cmds)
    ensures InOrder(steps, [steps[0].cmd] + cmds)
  {
    var all := [steps[0].cmd] + cmds;
    forall j | 0 <= j < |all|
      ensures steps[j].Exec? && steps[j].cmd == all[j]
    {
      if j > 0 {
        assert all[j] == cmds[j - 1];
        assert steps[1..][j - 1] == steps[j];
      }
    }
  }

  /** A block runs a prefix of its commands, in the order written. */
  lemma {:induction false} RunBlockInOrder(steps: seq<Step>, ans: (nat, Cmd) -> Outcome, k: nat)
    ensures InOrder(steps, RunBlock(steps, ans, k).cmds)
  {
    if steps != [] && steps[0].Exec? {
      var c := steps[0].cmd;
      var r := RunBlock(steps, ans, k);
      var r' := RunBlock(steps[1..], ans, k + 1);
      RunBlockInOrder(steps[1..], ans, k + 1);
      InOrderCons(steps, r'.cmds);
      InOrderCons(steps, []);
      if Handling(Raises(ans(k, c), steps[0].check), steps[0].onFail, steps[0].onMissing) == Resume {
        assert r.cmds == [c] + r'.cmds;
      } else {
        assert r.cmds == [c] + [];
      }
    }
  }

  /** A block whose handlers never let an exception escape, and which
      throws nothing itself, raises nothing. */
  lemma {:induction false} RunBlockContained(steps: seq<Step>, ans: (nat, Cmd) -> Outcome, k: nat)
    requires forall i :: 0 <= i < |steps| ==> steps[i].Exec? && steps[i].onFail != Escape && steps[i].onMissing != Escape
    ensures RunBlock(steps, ans, k).raised.None?
  {
    if steps != [] {
      assert steps[0].Exec?;
      RunBlockContained(steps[1..], ans, k + 1);
    }
  }

  class Shell {
    /** The commands run so far, oldest first. */
    var trace: seq<Cmd>
    /** How the `k`-th command of the trace ends. */
    const answer: (nat, Cmd) -> Outcome
    /** What the `k`-th command of the trace prints on its standard output. */
    const output: (nat, Cmd) -> string

    constructor (answer: (nat, Cmd) -> Outcome, output: (nat, Cmd) -> string)
      ensures trace == [] && this.answer == answer && this.output == output
    {
      trace := [];
      this.answer := answer;
      this.output := output;
    }

    /** `subprocess.run(c, check=check)`: records the command and raises as
        its outcome says. */
    method Run(c: Cmd, check: bool) returns (e: Option<Exc>)
      modifies this
      ensures trace == old(trace) + [c]
      ensures e == Raises(answer(|old(trace)|, c), check)
    {
      e := Raises(answer(|trace|, c), check);
      trace := trace + [c];
    }

    /** `subprocess.run(c, check=False)` read through its `returncode`:
        records the command and returns how it ended (`Missing` stands for
        the `FileNotFoundError` it raises). */
    method Exec(c: Cmd) returns (o: Outcome)
      modifies this
      ensures trace == old(trace) + [c]
      ensures o == answer(|old(trace)|, c)
    {
      o := answer(|trace|, c);
      trace := trace + [c];
    }

    /** `subprocess.run(c, capture_output=True, text=True, check=True)`:
        like `Run`, and also returns what the command printed. */
    method Capture(c: Cmd) returns (e: Option<Exc>, out: string)
      modifies this
      ensures trace == old(trace) + [c]
      ensures e == Raises(answer(|old(trace)|, c), true)
      ensures out == output(|old(trace)|, c)
    {
      e := Raises(answer(|trace|, c), true);
      out := output(|trace|, c);
      trace := trace + [c];
    }
  }
}
