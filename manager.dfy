/** The `NetworkManager` object: the host's plain text files, the netplan
    directory and the commands it runs, with the configuration chains that
    combine them (direct `ip` configuration, the netplan and interfaces
    backends, the hostname). Every chain is specified by a function of the
    state before the call and of the shell's outcomes. */
module Manager {
  import opened Text
  import opened Shell
  import opened Models
  import opened Address
  import opened Detect
  import opened Parsers
  import opened Netplan
  import opened Rewriters
  import opened Interfaces

  // ---- The text files the engine reads and writes ----

  /** `/etc/resolv.conf`, `/etc/hosts`, `/etc/hostname`, `/etc/network/interfaces`. */
  datatype TextFile = ResolvConf | HostsFile | HostnameFile | InterfacesFile

  /** The content of a file, `None` when it does not exist. */
  function ReadIn(files: map<TextFile, string>, f: TextFile): (r: Option<string>)
    ensures r.Some? <==> f in files
    ensures r.Some? ==> r.value == files[f]
  {
    if f in files then Some(files[f]) else None
  }

  /** Writing `text` to `f`: the file is created or replaced when it is
      writable; otherwise the write raises and nothing changes. */
  function SaveIn(files: map<TextFile, string>, writable: set<TextFile>, f: TextFile, text: string): (r: map<TextFile, string>)
    ensures f in writable ==> f in r && r[f] == text
    ensures forall g :: g != f ==> (g in r <==> g in files) && (g in r ==> r[g] == files[g])
    ensures f !in writable ==> r == files
  {
    if f in writable then files[f := text] else files
  }

  // ---- `_apply_ip_directly` ----

  /** What one direct configuration did: the commands it ran, the DNS
      servers it wrote to `/etc/resolv.conf` (if any) and what it raised. */
  datatype DirectRun = DirectRun(cmds: seq<Cmd>, dns: Option<seq<string>>, raised: Option<Exc>)

  /** `ip link set dev <name> up`, unchecked; a missing `ip` escapes. */
  function UpStep(name: string): Step {
    Exec(IpLink(name, true), false, Escape, Escape)
  }

  /** DHCP: the old addresses are flushed unchecked and `dhclient` starts;
      the block's `except` swallows every command error. */
  function DhcpScript(name: string): seq<Step> {
    [Exec(IpAddrFlush(name), false, Stop, Stop), Exec(Dhclient(name), true, Stop, Stop)]
  }

  /** Flush unchecked, then add the address checked: the outer `except`
      re-raises. */
  function AddressSteps(name: string, cidr: string): seq<Step> {
    [Exec(IpAddrFlush(name), false, Escape, Escape), Exec(IpAddrAdd(cidr, name), true, Escape, Escape)]
  }

  /** The default route: deleted unchecked, then added checked; a failing
      add is caught around the route block, a missing `ip` escapes. */
  function GatewaySteps(name: string, cfg: NetworkConfig): seq<Step> {
    if HasGateway(cfg) then
      [Exec(IpRouteDelDefault(name), false, Escape, Escape), Exec(IpRouteAddDefault(cfg.gateway.value, name), true, Resume, Escape)]
    else []
  }

  /** Static: the address is computed first (a malformed netmask raises
      `ValueError`), then the address and route steps. */
  function StaticScript(name: string, cfg: NetworkConfig): seq<Step> {
    match CalculateCidr(cfg.ipAddress, cfg.netmask)
    case None => [Throw(ValueError)]
    case Some(cidr) => AddressSteps(name, cidr) + GatewaySteps(name, cfg)
  }

  /** The commands of `_apply_ip_directly`: the link is brought up, then
      the DHCP or static steps. */
  function DirectScript(name: string, cfg: NetworkConfig): seq<Step> {
    [UpStep(name)] + ModeScript(name, cfg)
  }

  /** The DHCP or static steps, after the link is up. */
  function ModeScript(name: string, cfg: NetworkConfig): seq<Step> {
    if cfg.isDhcp then DhcpScript(name) else StaticScript(name, cfg)
  }

  /** The direct configuration is the link step, then (when it resumed)
      the DHCP or static steps. */
  lemma DirectBlock(name: string, cfg: NetworkConfig, ans: (nat, Cmd) -> Outcome, k: nat)
    ensures var up := StepRan(UpStep(name), ans, k);
      RunBlock(DirectScript(name, cfg), ans, k) == Sequenced(up, RunBlock(ModeScript(name, cfg), ans, k + |up.cmds|))
  {
    var d := DirectScript(name, cfg);
    assert d[0] == UpStep(name) && d[1..] == ModeScript(name, cfg);
    RunBlockCons(d, ans, k);
  }

  /** The DNS servers a static configuration writes, `if config.dns_servers:`,
      once every command before it passed. */
  function DnsWritten(cfg: NetworkConfig, r: Ran): Option<seq<string>> {
    if !cfg.isDhcp && HasDns(cfg) && r.raised.None? then cfg.dnsServers else None
  }

  /** `_apply_ip_directly`, its first command being the `k`-th of the trace. */
  function DirectApply(name: string, cfg: NetworkConfig, ans: (nat, Cmd) -> Outcome, k: nat): DirectRun {
    var r := RunBlock(DirectScript(name, cfg), ans, k);
    DirectRun(r.cmds, DnsWritten(cfg, r), r.raised)
  }

  /** With every command succeeding: the full command list of a static
      configuration. */
  function StaticPlan(name: string, cfg: NetworkConfig, cidr: string): seq<Cmd> {
    [IpLink(name, true), IpAddrFlush(name), IpAddrAdd(cidr, name)] +
    (if HasGateway(cfg) then [IpRouteDelDefault(name), IpRouteAddDefault(cfg.gateway.value, name)] else [])
  }

  /** The files after a run: `/etc/resolv.conf` rewritten when it wrote DNS. */
  function DnsAfter(files: map<TextFile, string>, writable: set<TextFile>, dns: Option<seq<string>>): map<TextFile, string> {
    if dns.None? then files
    else SaveIn(files, writable, ResolvConf, ResolvText(ReadIn(files, ResolvConf), dns.value))
  }

  function DnsAfterRuns(files: map<TextFile, string>, writable: set<TextFile>, runs: seq<DirectRun>): map<TextFile, string>
    decreases |runs|
  {
    if runs == [] then files else DnsAfterRuns(DnsAfter(files, writable, runs[0].dns), writable, runs[1..])
  }

  /** The DNS rewrite touches `/etc/resolv.conf` and nothing else. */
  lemma DnsAfterKeepsOthers(files: map<TextFile, string>, writable: set<TextFile>, dns: Option<seq<string>>, f: TextFile)
    requires f != ResolvConf
    ensures ReadIn(DnsAfter(files, writable, dns), f) == ReadIn(files, f)
  {
  }

  /** A static block with a computable address: the address steps, then
      (when they raised nothing) the route steps. */
  lemma StaticBlock(name: string, cfg: NetworkConfig, cidr: string, ans: (nat, Cmd) -> Outcome, k: nat)
    requires CalculateCidr(cfg.ipAddress, cfg.netmask) == Some(cidr)
    ensures var r1 := RunBlock(AddressSteps(name, cidr), ans, k);
      var r2 := RunBlock(GatewaySteps(name, cfg), ans, k + |r1.cmds|);
      && !r1.caught && !r2.caught
      && RunBlock(StaticScript(name, cfg), ans, k) == (if r1.raised.Some? then r1 else Ran(r1.cmds + r2.cmds, r2.raised, false))
  {
    var a := AddressSteps(name, cidr);
    var g := GatewaySteps(name, cfg);
    assert StaticScript(name, cfg) == a + g;
    RunBlockAppend(a, g, ans, k);
    RunBlockPair(a, ans, k);
    if HasGateway(cfg) {
      RunBlockPair(g, ans, k + |RunBlock(a, ans, k).cmds|);
    }
  }

  /** The link is always brought up first. A DHCP configuration raises
      only when `ip` is missing for that first command; a static one raises
      a command error or, with a malformed netmask, `ValueError`; DNS is
      written only by a static run that raised nothing. */
  lemma {:induction false} DirectApplyOutcomes(name: string, cfg: NetworkConfig, ans: (nat, Cmd) -> Outcome, k: nat)
    ensures var r := DirectApply(name, cfg, ans, k);
      && r.cmds != [] && r.cmds[0] == IpLink(name, true)
      && (cfg.isDhcp && r.raised.Some? ==> r.raised == Some(FileNotFound) && r.cmds == [IpLink(name, true)])
      && (r.raised == Some(ValueError) <==> ans(k, IpLink(name, true)) != Missing && !cfg.isDhcp && CalculateCidr(cfg.ipAddress, cfg.netmask).None?)
      && (r.raised.Some? && r.raised != Some(ValueError) ==> IsCommandError(r.raised.value))
      && (r.dns.Some? <==> !cfg.isDhcp && HasDns(cfg) && r.raised.None?)
  {
    var rest := ModeScript(name, cfg);
    DirectBlock(name, cfg, ans, k);
    RunBlockRaised(rest, ans, k + 1);
    if cfg.isDhcp {
      var d := DhcpScript(name);
      RunBlockPair(d, ans, k + 1);
    } else if CalculateCidr(cfg.ipAddress, cfg.netmask).Some? {
      var cidr := CalculateCidr(cfg.ipAddress, cfg.netmask).value;
      assert Throw(ValueError) !in AddressSteps(name, cidr) + GatewaySteps(name, cfg);
    }
  }

  /** With every command succeeding, a static configuration runs the whole
      plan, raises nothing and writes its DNS servers when it has any. */
  lemma {:induction false} DirectApplyAllOk(name: string, cfg: NetworkConfig, ans: (nat, Cmd) -> Outcome, k: nat, cidr: string)
    requires forall j: nat, c: Cmd :: ans(j, c) == Ok
    requires !cfg.isDhcp && CalculateCidr(cfg.ipAddress, cfg.netmask) == Some(cidr)
    ensures var r := DirectApply(name, cfg, ans, k);
      r.cmds == StaticPlan(name, cfg, cidr) && r.raised.None? && r.dns == (if HasDns(cfg) then cfg.dnsServers else None)
  {
    var a := AddressSteps(name, cidr);
    var g := GatewaySteps(name, cfg);
    assert StaticScript(name, cfg) == a + g;
    DirectBlock(name, cfg, ans, k);
    RunBlockAppend(a, g, ans, k + 1);
    RunBlockPair(a, ans, k + 1);
    if HasGateway(cfg) {
      RunBlockPair(g, ans, k + 3);
    }
  }

  // ---- `_configure_netplan` ----

  /** The document `_configure_netplan` writes, `None` when a static
      address cannot be computed (the `ValueError` becomes a 500). */
  function NetplanDoc(name: string, cfg: NetworkConfig): (d: Option<Entry>)
    ensures d.None? <==> !cfg.isDhcp && CalculateCidr(cfg.ipAddress, cfg.netmask).None?
    ensures !cfg.isDhcp && d.Some? ==> d.value == BuildDoc(name, cfg, CalculateCidr(cfg.ipAddress, cfg.netmask).value)
  {
    if cfg.isDhcp then Some(BuildDoc(name, cfg, ""))
    else match CalculateCidr(cfg.ipAddress, cfg.netmask)
      case None => None
      case Some(cidr) => Some(BuildDoc(name, cfg, cidr))
  }

  /** The netplan directory after `_cleanup_netplan_files`. */
  function Cleaned(dirExists: bool, files: seq<File>, name: string, locked: set<string>): seq<File> {
    if dirExists then CleanAll(files, name, locked) else files
  }

  /** What applying the written configuration did: its commands, the direct
      configurations it ran (in order) and what escaped. */
  datatype Activation = Activation(cmds: seq<Cmd>, runs: seq<DirectRun>, raised: Option<Exc>)

  /** In a container, `netplan generate` runs checked and the address is
      then applied directly; a command error from either step falls back to
      one more direct configuration. On a host, `netplan apply` runs checked
      and only its failure falls back to a direct configuration. */
  function NetplanActivation(name: string, cfg: NetworkConfig, ans: (nat, Cmd) -> Outcome, k: nat, container: bool): Activation {
    if container then ContainerActivation(name, cfg, ans, k) else HostActivation(name, cfg, ans, k)
  }

  function ContainerActivation(name: string, cfg: NetworkConfig, ans: (nat, Cmd) -> Outcome, k: nat): Activation {
    if Raises(ans(k, NetplanGenerate), true).Some? then Fallback(NetplanGenerate, DirectApply(name, cfg, ans, k + 1))
    else Retried(NetplanGenerate, DirectApply(name, cfg, ans, k + 1), name, cfg, ans, k + 1)
  }

  function HostActivation(name: string, cfg: NetworkConfig, ans: (nat, Cmd) -> Outcome, k: nat): Activation {
    if Raises(ans(k, NetplanApply), true).Some? then Fallback(NetplanApply, DirectApply(name, cfg, ans, k + 1))
    else Activation([NetplanApply], [], None)
  }

  /** A netplan command that raised, then one direct configuration. */
  function Fallback(c: Cmd, r: DirectRun): Activation {
    Activation([c] + r.cmds, [r], r.raised)
  }

  /** `generate` succeeded and the first direct run `r1` (from the `k`-th
      command) ended; a command error repeats it once. */
  function Retried(c: Cmd, r1: DirectRun, name: string, cfg: NetworkConfig, ans: (nat, Cmd) -> Outcome, k: nat): Activation {
    if r1.raised.Some? && IsCommandError(r1.raised.value) then
      var r2 := DirectApply(name, cfg, ans, k + |r1.cmds|);
      Activation([c] + r1.cmds + r2.cmds, [r1, r2], r2.raised)
    else Fallback(c, r1)
  }

  lemma DnsAfterOneRun(files: map<TextFile, string>, writable: set<TextFile>, r: DirectRun)
    ensures DnsAfterRuns(files, writable, [r]) == DnsAfter(files, writable, r.dns)
  {
    assert [r][1..] == [];
  }

  lemma DnsAfterTwoRuns(files: map<TextFile, string>, writable: set<TextFile>, r1: DirectRun, r2: DirectRun)
    ensures DnsAfterRuns(files, writable, [r1, r2]) == DnsAfter(DnsAfter(files, writable, r1.dns), writable, r2.dns)
  {
    assert [r1, r2][1..] == [r2];
    DnsAfterOneRun(DnsAfter(files, writable, r1.dns), writable, r2);
  }

  /** A host whose `netplan apply` succeeds configures nothing directly. */
  lemma HostApplyIsEnough(name: string, cfg: NetworkConfig, ans: (nat, Cmd) -> Outcome, k: nat)
    requires ans(k, NetplanApply) == Ok
    ensures NetplanActivation(name, cfg, ans, k, false) == Activation([NetplanApply], [], None)
  {
  }

  /** A DHCP activation never fails unless `ip` itself is missing: every
      escaping error is a `FileNotFoundError` of the last direct run. */
  lemma DhcpActivationOutcome(name: string, cfg: NetworkConfig, ans: (nat, Cmd) -> Outcome, k: nat, container: bool)
    requires cfg.isDhcp
    ensures var a := NetplanActivation(name, cfg, ans, k, container);
      a.raised.Some? ==> a.runs != [] && a.raised == Some(FileNotFound) && a.runs[|a.runs| - 1].raised == a.raised
  {
    DirectApplyOutcomes(name, cfg, ans, k + 1);
    if container && Raises(ans(k, NetplanGenerate), true).None? {
      var r1 := DirectApply(name, cfg, ans, k + 1);
      DirectApplyOutcomes(name, cfg, ans, k + 1 + |r1.cmds|);
    }
  }

  /** The steps of a direct run name only `ip` and `dhclient` commands. */
  predicate NoNetplanStep(steps: seq<Step>) {
    forall j :: 0 <= j < |steps| && steps[j].Exec? ==> !steps[j].cmd.NetplanApply? && !steps[j].cmd.NetplanGenerate?
  }

  /** A direct run never runs a `netplan` command. */
  lemma DirectRunNoNetplan(name: string, cfg: NetworkConfig, ans: (nat, Cmd) -> Outcome, k: nat)
    ensures var r := DirectApply(name, cfg, ans, k);
      NetplanApply !in r.cmds && NetplanGenerate !in r.cmds
  {
    var steps := DirectScript(name, cfg);
    assert NoNetplanStep(steps);
    RunBlockInOrder(steps, ans, k);
    var cmds := RunBlock(steps, ans, k).cmds;
    assert forall j :: 0 <= j < |cmds| ==> !cmds[j].NetplanApply? && !cmds[j].NetplanGenerate?;
  }

  /** On a host `netplan apply` runs first, and the direct configuration
      runs once, from the next command, exactly when it raised. */
  lemma HostActivationShape(name: string, cfg: NetworkConfig, ans: (nat, Cmd) -> Outcome, k: nat)
    ensures var a := HostActivation(name, cfg, ans, k);
      && a.cmds != [] && a.cmds[0] == NetplanApply && |a.runs| <= 1
      && (a.runs != [] <==> Raises(ans(k, NetplanApply), true).Some?)
      && (a.runs != [] ==> a.runs[0] == DirectApply(name, cfg, ans, k + 1))
  {
  }

  /** The shape of a container activation, over the two direct runs it
      may hold; `again` says whether the second one ran. */
  lemma ContainerShapeOf(a: Activation, r1: DirectRun, r2: DirectRun, again: bool)
    requires NetplanApply !in r1.cmds && NetplanApply !in r2.cmds
    requires a == if again then Activation([NetplanGenerate] + r1.cmds + r2.cmds, [r1, r2], r2.raised)
      else Activation([NetplanGenerate] + r1.cmds, [r1], r1.raised)
    ensures a.cmds != [] && a.cmds[0] == NetplanGenerate && NetplanApply !in a.cmds
    ensures 1 <= |a.runs| <= 2 && a.runs[0] == r1 && (|a.runs| == 2 ==> again)
  {
  }

  /** In a container `netplan generate` runs first, `netplan apply` never
      runs, and the direct configuration runs from the next command, a
      second time only after a command error of the first. */
  lemma ContainerActivationShape(name: string, cfg: NetworkConfig, ans: (nat, Cmd) -> Outcome, k: nat)
    ensures var a := ContainerActivation(name, cfg, ans, k);
      && a.cmds != [] && a.cmds[0] == NetplanGenerate && NetplanApply !in a.cmds
      && 1 <= |a.runs| <= 2 && a.runs[0] == DirectApply(name, cfg, ans, k + 1)
      && (|a.runs| == 2 ==> a.runs[0].raised.Some? && IsCommandError(a.runs[0].raised.value))
  {
    var a := ContainerActivation(name, cfg, ans, k);
    var r1 := DirectApply(name, cfg, ans, k + 1);
    var r2 := DirectApply(name, cfg, ans, k + 1 + |r1.cmds|);
    var again := Raises(ans(k, NetplanGenerate), true).None? && r1.raised.Some? && IsCommandError(r1.raised.value);
    DirectRunNoNetplan(name, cfg, ans, k + 1);
    DirectRunNoNetplan(name, cfg, ans, k + 1 + |r1.cmds|);
    assert a == if again then Activation([NetplanGenerate] + r1.cmds + r2.cmds, [r1, r2], r2.raised)
      else Activation([NetplanGenerate] + r1.cmds, [r1], r1.raised);
    ContainerShapeOf(a, r1, r2, again);
  }

  /** The activation runs its netplan command first and the direct
      configuration at most twice, from the command after it; a second
      run happens only in a container, after a command error. */
  lemma ActivationShape(name: string, cfg: NetworkConfig, ans: (nat, Cmd) -> Outcome, k: nat, container: bool)
    ensures var a := NetplanActivation(name, cfg, ans, k, container);
      && a.cmds != [] && |a.runs| <= 2
      && (a.runs != [] ==> a.runs[0] == DirectApply(name, cfg, ans, k + 1))
      && (|a.runs| == 2 ==> container && a.runs[0].raised.Some? && IsCommandError(a.runs[0].raised.value))
      && (container ==> a.cmds[0] == NetplanGenerate && NetplanApply !in a.cmds && a.runs != [])
      && (!container ==> a.cmds[0] == NetplanApply && (a.runs != [] <==> Raises(ans(k, NetplanApply), true).Some?))
  {
    if container {
      ContainerActivationShape(name, cfg, ans, k);
    } else {
      HostActivationShape(name, cfg, ans, k);
    }
  }

  // ---- `_configure_interfaces` ----

  /** `ifdown` unchecked, then `ifup` checked; the block's `except`
      catches every command error. */
  function IfScript(name: string): seq<Step> {
    [Exec(IfUpDown(false, name), false, Stop, Stop), Exec(IfUpDown(true, name), true, Stop, Stop)]
  }

  /** The `ip link` fallback: down unchecked, up checked. A failing `up` is
      reported and swallowed; a missing `ip` escapes. */
  function LinkScript(name: string): seq<Step> {
    [Exec(IpLink(name, false), false, Escape, Escape), Exec(IpLink(name, true), true, Stop, Escape)]
  }

  /** The restart of `_configure_interfaces`. */
  function LegacyRestart(name: string, ans: (nat, Cmd) -> Outcome, k: nat): Ran {
    var r := RunBlock(IfScript(name), ans, k);
    Excepted(r, RunBlock(LinkScript(name), ans, k + |r.cmds|))
  }

  /** The restart raises only when `ip` is missing in the fallback, and an
      `ifdown`/`ifup` pair that succeeds is all it runs. */
  lemma LegacyRestartOutcome(name: string, ans: (nat, Cmd) -> Outcome, k: nat)
    ensures var s := LegacyRestart(name, ans, k);
      && (s.raised.Some? ==> s.raised == Some(FileNotFound) && RunBlock(IfScript(name), ans, k).caught)
      && (ans(k, IfUpDown(false, name)) != Missing && ans(k + 1, IfUpDown(true, name)) == Ok ==>
            s == Ran([IfUpDown(false, name), IfUpDown(true, name)], None, false))
  {
    var i := IfScript(name);
    RunBlockPair(i, ans, k);
    var r := RunBlock(i, ans, k);
    if r.caught {
      RunBlockPair(LinkScript(name), ans, k + |r.cmds|);
    }
  }

  /** The files an interface's netplan cleanup may leave in place: every
      file parses, and a locked one does not mention the interface. */
  ghost predicate ReadBackReady(files: seq<File>, name: string, locked: set<string>) {
    forall f :: f in files ==> f.entry.Doc? && (f.path in locked ==> !Defines(f.entry, name))
  }

  // ---- `get_hostname` and `set_hostname` ----

  /** What looking up the hostname did: its commands and its answer. */
  datatype Lookup = Lookup(cmds: seq<Cmd>, result: Result<string>)

  /** `get_hostname`: `hostnamectl hostname`, else `hostname`, else the
      stripped `/etc/hostname`, else `"unknown"`. A missing `hostname`
      executable is not caught. */
  function HostnameLookup(ans: (nat, Cmd) -> Outcome, out: (nat, Cmd) -> string, k: nat,
                          files: map<TextFile, string>): Lookup {
    if Raises(ans(k, HostnamectlHostname), true).None? then
      Lookup([HostnamectlHostname], Value(Strip(out(k, HostnamectlHostname))))
    else
      var e := Raises(ans(k + 1, HostnameCmd), true);
      if e.None? then Lookup([HostnamectlHostname, HostnameCmd], Value(Strip(out(k + 1, HostnameCmd))))
      else if e == Some(FileNotFound) then Lookup([HostnamectlHostname, HostnameCmd], Raised(FileNotFound))
      else Lookup([HostnamectlHostname, HostnameCmd], Value(match ReadIn(files, HostnameFile)
                                                             case Some(c) => Strip(c)
                                                             case None => "unknown"))
  }

  /** The files after `set_hostname` wrote them: `/etc/hostname` holds the
      name and a line break, then `/etc/hosts` maps `127.0.1.1` to it;
      either write may fail and be ignored. */
  function HostnameSaved(files: map<TextFile, string>, writable: set<TextFile>, host: string): map<TextFile, string> {
    var f := SaveIn(files, writable, HostnameFile, host + "\n");
    SaveIn(f, writable, HostsFile, HostsText(ReadIn(f, HostsFile), host))
  }

  /** A name with no surrounding white space survives its trip through
      `/etc/hostname`. */
  lemma StripHostnameLine(host: string)
    requires host != [] ==> !IsSpace(host[0]) && !IsSpace(host[|host| - 1])
    ensures Strip(host + "\n") == host
  {
    var s := host + "\n";
    assert s[..|s| - 1] == host;
    assert RStrip(s) == RStrip(host);
    StripTrimmed(host);
  }

  /** Where neither `hostnamectl` nor `hostname` answers, the name that
      `set_hostname` wrote is the one `get_hostname` reads. */
  lemma {:induction false} HostnameRoundTrip(files: map<TextFile, string>, writable: set<TextFile>, host: string,
                                             ans: (nat, Cmd) -> Outcome, out: (nat, Cmd) -> string, k: nat)
    requires HostnameFile in writable
    requires host != [] ==> !IsSpace(host[0]) && !IsSpace(host[|host| - 1])
    requires ans(k, HostnamectlHostname) != Ok && ans(k + 1, HostnameCmd) == Fail
    ensures HostnameLookup(ans, out, k, HostnameSaved(files, writable, host)).result == Value(host)
  {
    var f := SaveIn(files, writable, HostnameFile, host + "\n");
    assert ReadIn(HostnameSaved(files, writable, host), HostnameFile) == Some(host + "\n");
    StripHostnameLine(host);
  }

  class NetworkManager {
    /** `config_type`, detected once at construction. */
    const kind: Kind
    /** `is_container`, detected once at construction. */
    const isContainer: bool
    /** The commands run so far, and how each one ends. */
    const sh: Shell
    /** `/etc/netplan`. */
    const netplan: NetplanStore
    /** The text files the process may write. */
    const writable: set<TextFile>
    /** The text files that exist, with their contents. */
    var files: map<TextFile, string>

    ghost predicate Valid()
      reads this, netplan
    {
      netplan.Valid()
    }

    /** `__init__`: the backend and the container flag are detected from
        the filesystem and environment the probes describe. */
    constructor (fs: FsProbe, probe: ContainerProbe, sh: Shell, netplan: NetplanStore,
                 writable: set<TextFile>, files: map<TextFile, string>)
      requires netplan.Valid()
      ensures Valid()
      ensures kind == DetectKind(fs) && isContainer == IsContainer(probe)
      ensures this.sh == sh && this.netplan == netplan && this.writable == writable && this.files == files
    {
      kind := DetectKind(fs);
      isContainer := IsContainer(probe);
      this.sh := sh;
      this.netplan := netplan;
      this.writable := writable;
      this.files := files;
    }

    /** `_update_dns_servers`: `/etc/resolv.conf` keeps its other lines and
        lists the given servers; a failing write is reported and ignored. */
    method UpdateDnsServers(dns: seq<string>)
      modifies this
      ensures files == DnsAfter(old(files), writable, Some(dns))
    {
      var text := Rewriters.UpdateDnsServers(ReadIn(files, ResolvConf), dns);
      files := SaveIn(files, writable, ResolvConf, text);
    }

    /** `_update_hosts_file`: the hosts file keeps its other lines and maps
        `127.0.1.1` to the new name; a failing write is ignored. */
    method UpdateHostsFile(host: string)
      modifies this
      ensures files == SaveIn(old(files), writable, HostsFile, HostsText(ReadIn(old(files), HostsFile), host))
    {
      var text := Rewriters.UpdateHostsFile(ReadIn(files, HostsFile), host);
      files := SaveIn(files, writable, HostsFile, text);
    }

    /** The DHCP block of `_apply_ip_directly`. */
    method ApplyDhcp(name: string)
      modifies sh
      ensures sh.trace == old(sh.trace) + RunBlock(DhcpScript(name), sh.answer, |old(sh.trace)|).cmds
    {
      var d := DhcpScript(name);
      RunBlockPair(d, sh.answer, |sh.trace|);
      var e := sh.Run(IpAddrFlush(name), false);
      if e.None? {
        var _ := sh.Run(Dhclient(name), true);
      }
    }

    /** Flushing and adding the address. */
    method AddAddress(name: string, cidr: string) returns (e: Option<Exc>)
      modifies sh
      ensures var r := RunBlock(AddressSteps(name, cidr), sh.answer, |old(sh.trace)|);
        sh.trace == old(sh.trace) + r.cmds && e == r.raised && !r.caught
    {
      var a := AddressSteps(name, cidr);
      RunBlockPair(a, sh.answer, |sh.trace|);
      e := sh.Run(IpAddrFlush(name), false);
      if e.Some? {
        return;
      }
      e := sh.Run(IpAddrAdd(cidr, name), true);
    }

    /** The route block. */
    method AddGateway(name: string, cfg: NetworkConfig) returns (e: Option<Exc>)
      modifies sh
      ensures var r := RunBlock(GatewaySteps(name, cfg), sh.answer, |old(sh.trace)|);
        sh.trace == old(sh.trace) + r.cmds && e == r.raised && !r.caught
    {
      if !HasGateway(cfg) {
        return None;
      }
      var g := GatewaySteps(name, cfg);
      RunBlockPair(g, sh.answer, |sh.trace|);
      e := sh.Run(IpRouteDelDefault(name), false);
      if e.Some? {
        return;
      }
      e := sh.Run(IpRouteAddDefault(cfg.gateway.value, name), true);
      if e == Some(CalledProcessError) {
        e := None;
      }
    }

    /** The static block of `_apply_ip_directly`, then the DNS update. */
    method ApplyStatic(name: string, cfg: NetworkConfig) returns (e: Option<Exc>)
      requires !cfg.isDhcp
      modifies this, sh
      ensures var r := RunBlock(StaticScript(name, cfg), sh.answer, |old(sh.trace)|);
        && sh.trace == old(sh.trace) + r.cmds && e == r.raised
        && files == DnsAfter(old(files), writable, DnsWritten(cfg, r))
    {
      var cidr := CalculateCidr(cfg.ipAddress, cfg.netmask);
      if cidr.None? {
        assert StaticScript(name, cfg) == [Throw(ValueError)];
        return Some(ValueError);
      }
      ghost var t := sh.trace;
      StaticBlock(name, cfg, cidr.value, sh.answer, |t|);
      e := AddAddress(name, cidr.value);
      if e.Some? {
        return;
      }
      ghost var r1 := RunBlock(AddressSteps(name, cidr.value), sh.answer, |t|);
      ghost var t1 := sh.trace;
      assert t1 == t + r1.cmds && |t1| == |t| + |r1.cmds|;
      e := AddGateway(name, cfg);
      ghost var r2 := RunBlock(GatewaySteps(name, cfg), sh.answer, |t1|);
      assert sh.trace == t1 + r2.cmds;
      ConcatAssoc(t, r1.cmds, r2.cmds);
      if e.None? && HasDns(cfg) {
        UpdateDnsServers(cfg.dnsServers.value);
      }
    }

    /** `_apply_ip_directly`: the commands and the DNS write are those of
        `DirectApply`, and so is what it raises. */
    method ApplyIpDirectly(name: string, cfg: NetworkConfig) returns (e: Option<Exc>)
      modifies this, sh
      ensures var r := DirectApply(name, cfg, sh.answer, |old(sh.trace)|);
        sh.trace == old(sh.trace) + r.cmds && e == r.raised && files == DnsAfter(old(files), writable, r.dns)
    {
      ghost var k := |sh.trace|;
      ghost var t := sh.trace;
      ghost var rest := ModeScript(name, cfg);
      DirectBlock(name, cfg, sh.answer, k);
      var up := sh.Run(IpLink(name, true), false);
      if up.Some? {
        return up;
      }
      if cfg.isDhcp {
        ghost var d := DhcpScript(name);
        RunBlockPair(d, sh.answer, k + 1);
        ApplyDhcp(name);
        return None;
      }
      ghost var t1 := sh.trace;
      assert t1 == t + [IpLink(name, true)] && |t1| == k + 1;
      e := ApplyStatic(name, cfg);
      ConcatAssoc(t, [IpLink(name, true)], RunBlock(rest, sh.answer, k + 1).cmds);
    }

    /** `_validate_netplan_config` of a file holding `e`: `netplan info`
        run unchecked; without `netplan`, whether the file loads. */
    method ValidateNetplanConfig(path: string, e: Entry) returns (ok: bool)
      modifies sh
      ensures sh.trace == old(sh.trace) + [NetplanInfo(path)]
      ensures ok == IsValidConfig(sh.answer(|old(sh.trace)|, NetplanInfo(path)), e)
    {
      var o := sh.Exec(NetplanInfo(path));
      ok := o == Ok || (o == Missing && e.Doc?);
    }

    /** The `try` block of `_configure_netplan` that applies the written
        file. */
    method ActivateNetplan(name: string, cfg: NetworkConfig) returns (e: Option<Exc>)
      modifies this, sh
      ensures var a := NetplanActivation(name, cfg, sh.answer, |old(sh.trace)|, isContainer);
        sh.trace == old(sh.trace) + a.cmds && e == a.raised && files == DnsAfterRuns(old(files), writable, a.runs)
    {
      if isContainer {
        e := ActivateInContainer(name, cfg);
      } else {
        e := ActivateOnHost(name, cfg);
      }
    }

    /** A netplan command `c` that raised: one direct configuration. */
    method FallBack(ghost c: Cmd, ghost t: seq<Cmd>, name: string, cfg: NetworkConfig) returns (e: Option<Exc>)
      requires sh.trace == t + [c]
      modifies this, sh
      ensures var a := Fallback(c, DirectApply(name, cfg, sh.answer, |t| + 1));
        sh.trace == t + a.cmds && e == a.raised && files == DnsAfterRuns(old(files), writable, a.runs)
    {
      ghost var r := DirectApply(name, cfg, sh.answer, |t| + 1);
      e := ApplyIpDirectly(name, cfg);
      ConcatAssoc(t, [c], r.cmds);
      DnsAfterOneRun(old(files), writable, r);
    }

    /** `netplan apply`, checked. */
    method ActivateOnHost(name: string, cfg: NetworkConfig) returns (e: Option<Exc>)
      modifies this, sh
      ensures var a := HostActivation(name, cfg, sh.answer, |old(sh.trace)|);
        sh.trace == old(sh.trace) + a.cmds && e == a.raised && files == DnsAfterRuns(old(files), writable, a.runs)
    {
      ghost var t := sh.trace;
      var a := sh.Run(NetplanApply, true);
      if a.None? {
        return None;
      }
      e := FallBack(NetplanApply, t, name, cfg);
    }

    /** `netplan generate`, checked, then the direct configuration. */
    method ActivateInContainer(name: string, cfg: NetworkConfig) returns (e: Option<Exc>)
      modifies this, sh
      ensures var a := ContainerActivation(name, cfg, sh.answer, |old(sh.trace)|);
        sh.trace == old(sh.trace) + a.cmds && e == a.raised && files == DnsAfterRuns(old(files), writable, a.runs)
    {
      ghost var t := sh.trace;
      var g := sh.Run(NetplanGenerate, true);
      if g.Some? {
        e := FallBack(NetplanGenerate, t, name, cfg);
        return;
      }
      ghost var r1 := DirectApply(name, cfg, sh.answer, |t| + 1);
      var d := ApplyIpDirectly(name, cfg);
      e := Retry(name, cfg, d, r1, t, old(files));
    }

    /** The `except` branch after the direct configuration `r1` that
        followed `generate` and returned `d`: a command error runs it once
        more. */
    method Retry(name: string, cfg: NetworkConfig, d: Option<Exc>, ghost r1: DirectRun, ghost t: seq<Cmd>,
                 ghost f0: map<TextFile, string>) returns (e: Option<Exc>)
      requires d == r1.raised && sh.trace == t + [NetplanGenerate] + r1.cmds && files == DnsAfter(f0, writable, r1.dns)
      modifies this, sh
      ensures var a := Retried(NetplanGenerate, r1, name, cfg, sh.answer, |t| + 1);
        sh.trace == t + a.cmds && e == a.raised && files == DnsAfterRuns(f0, writable, a.runs)
    {
      if d.Some? && IsCommandError(d.value) {
        ghost var r2 := DirectApply(name, cfg, sh.answer, |sh.trace|);
        assert |sh.trace| == |t| + 1 + |r1.cmds|;
        e := ApplyIpDirectly(name, cfg);
        ConcatAssoc(t, [NetplanGenerate], r1.cmds);
        ConcatAssoc(t, [NetplanGenerate] + r1.cmds, r2.cmds);
        DnsAfterTwoRuns(f0, writable, r1, r2);
      } else {
        e := d;
        ConcatAssoc(t, [NetplanGenerate], r1.cmds);
        DnsAfterOneRun(f0, writable, r1);
      }
    }

    /** The part of `_configure_netplan` after the document is built:
        write it to `path`, validate it and apply it. */
    method Install(name: string, cfg: NetworkConfig, path: string, doc: Entry) returns (r: Result<bool>)
      requires Valid()
      modifies this, sh, netplan
      ensures Valid()
      ensures netplan.dirExists == old(netplan.dirExists)
      ensures if !netplan.dirExists || path in netplan.locked then
          r == Raised(Http(500)) && netplan.files == old(netplan.files) && sh.trace == old(sh.trace) && files == old(files)
        else
          var a := NetplanActivation(name, cfg, sh.answer, |old(sh.trace)| + 1, isContainer);
          && netplan.files == Put(old(netplan.files), path, doc)
          && sh.trace == old(sh.trace) + [NetplanInfo(path)] + a.cmds
          && files == DnsAfterRuns(old(files), writable, a.runs)
          && r == (if a.raised.Some? then Raised(Http(500)) else Value(true))
    {
      var ok := netplan.Write(path, doc);
      if !ok {
        return Raised(Http(500));
      }
      var _ := ValidateNetplanConfig(path, doc);
      var e := ActivateNetplan(name, cfg);
      if e.Some? {
        return Raised(Http(500));
      }
      return Value(true);
    }

    /** `_configure_netplan`: clean the interface out of every file, write
        `01-<name>.yaml`, validate it (the verdict is only printed) and
        apply it. A static address that cannot be computed, a failing write
        or an error escaping the activation is a 500; the cleanup stays. */
    method ConfigureNetplan(name: string, cfg: NetworkConfig) returns (r: Result<bool>)
      requires Valid()
      modifies this, sh, netplan
      ensures Valid()
      ensures netplan.dirExists == old(netplan.dirExists)
      ensures var cleaned := Cleaned(old(netplan.dirExists), old(netplan.files), name, netplan.locked);
        var doc := NetplanDoc(name, cfg);
        if doc.None? || !netplan.dirExists || ConfigPath(name) in netplan.locked then
          r == Raised(Http(500)) && netplan.files == cleaned && sh.trace == old(sh.trace) && files == old(files)
        else
          var a := NetplanActivation(name, cfg, sh.answer, |old(sh.trace)| + 1, isContainer);
          && netplan.files == Put(cleaned, ConfigPath(name), doc.value)
          && sh.trace == old(sh.trace) + [NetplanInfo(ConfigPath(name))] + a.cmds
          && files == DnsAfterRuns(old(files), writable, a.runs)
          && r == (if a.raised.Some? then Raised(Http(500)) else Value(true))
    {
      netplan.Cleanup(name);
      var doc := NetplanDoc(name, cfg);
      if doc.None? {
        return Raised(Http(500));
      }
      r := Install(name, cfg, ConfigPath(name), doc.value);
    }

    /** The `ifdown`/`ifup` block. */
    method IfDownUp(name: string) returns (caught: bool)
      modifies sh
      ensures var r := RunBlock(IfScript(name), sh.answer, |old(sh.trace)|);
        sh.trace == old(sh.trace) + r.cmds && caught == r.caught && r.raised.None?
    {
      var i := IfScript(name);
      RunBlockPair(i, sh.answer, |sh.trace|);
      var e := sh.Run(IfUpDown(false, name), false);
      if e.Some? {
        return true;
      }
      e := sh.Run(IfUpDown(true, name), true);
      caught := e.Some?;
    }

    /** The `ip link` block. */
    method LinkDownUp(name: string) returns (e: Option<Exc>)
      modifies sh
      ensures var r := RunBlock(LinkScript(name), sh.answer, |old(sh.trace)|);
        sh.trace == old(sh.trace) + r.cmds && e == r.raised
    {
      var l := LinkScript(name);
      RunBlockPair(l, sh.answer, |sh.trace|);
      e := sh.Run(IpLink(name, false), false);
      if e.Some? {
        return;
      }
      e := sh.Run(IpLink(name, true), true);
      if e == Some(CalledProcessError) {
        e := None;
      }
    }

    /** The restart step of `_configure_interfaces`. */
    method RestartLegacy(name: string) returns (e: Option<Exc>)
      modifies sh
      ensures var s := LegacyRestart(name, sh.answer, |old(sh.trace)|);
        sh.trace == old(sh.trace) + s.cmds && e == s.raised
    {
      var caught := IfDownUp(name);
      if caught {
        e := LinkDownUp(name);
      } else {
        e := None;
      }
    }

    /** The restart and direct application that follow the write of
        `/etc/network/interfaces`. */
    method RestartAndApply(name: string, cfg: NetworkConfig) returns (r: Result<bool>)
      modifies this, sh
      ensures var s := LegacyRestart(name, sh.answer, |old(sh.trace)|);
        if s.raised.Some? then
          r == Raised(Http(500)) && files == old(files) && sh.trace == old(sh.trace) + s.cmds
        else
          var d := DirectApply(name, cfg, sh.answer, |old(sh.trace)| + |s.cmds|);
          r == Value(true) && files == DnsAfter(old(files), writable, d.dns) && sh.trace == old(sh.trace) + s.cmds + d.cmds
    {
      ghost var k := |sh.trace|;
      var e := RestartLegacy(name);
      ghost var s := LegacyRestart(name, sh.answer, k);
      if e.Some? {
        return Raised(Http(500));
      }
      ghost var t1 := sh.trace;
      assert |t1| == k + |s.cmds|;
      var _ := ApplyIpDirectly(name, cfg);
      return Value(true);
    }

    /** `_configure_interfaces`: the interface's old stanzas are cut out of
        `/etc/network/interfaces` and the new stanza appended; the
        interface is restarted and the address applied directly, whose
        errors are all swallowed. A failing write, or a restart that finds no
        `ip`, is a 500. */
    method ConfigureInterfaces(name: string, cfg: NetworkConfig) returns (r: Result<bool>)
      modifies this, sh
      ensures var saved := old(files)[InterfacesFile := InterfacesText(ReadIn(old(files), InterfacesFile), name, cfg)];
        var s := LegacyRestart(name, sh.answer, |old(sh.trace)|);
        if InterfacesFile !in writable then
          r == Raised(Http(500)) && files == old(files) && sh.trace == old(sh.trace)
        else if s.raised.Some? then
          r == Raised(Http(500)) && files == saved && sh.trace == old(sh.trace) + s.cmds
        else
          var d := DirectApply(name, cfg, sh.answer, |old(sh.trace)| + |s.cmds|);
          r == Value(true) && files == DnsAfter(saved, writable, d.dns) && sh.trace == old(sh.trace) + s.cmds + d.cmds
    {
      if InterfacesFile !in writable {
        return Raised(Http(500));
      }
      WriteInterfaces(name, cfg);
      ghost var t0 := sh.trace;
      assert t0 == old(sh.trace);
      r := RestartAndApply(name, cfg);
    }

    /** The write of the new `/etc/network/interfaces`. */
    method WriteInterfaces(name: string, cfg: NetworkConfig)
      modifies this
      ensures sh.trace == old(sh.trace)
      ensures files == old(files)[InterfacesFile := InterfacesText(ReadIn(old(files), InterfacesFile), name, cfg)]
    {
      var content := InterfacesText(ReadIn(files, InterfacesFile), name, cfg);
      files := files[InterfacesFile := content];
    }

    /** `_is_dhcp_enabled`: what the active backend's files say. */
    function IsDhcpEnabled(name: string): (b: bool)
      reads this, netplan
      ensures kind.Netplan? ==> b == CheckDhcp(netplan.files, name)
      ensures kind.Interfaces? ==> b == CheckDhcpInterfaces(ReadIn(files, InterfacesFile), name)
      ensures !kind.Netplan? && !kind.Interfaces? ==> !b
    {
      if kind.Netplan? then CheckDhcp(netplan.files, name)
      else if kind.Interfaces? then CheckDhcpInterfaces(ReadIn(files, InterfacesFile), name)
      else false
    }

    /** `configure_interface`: the netplan or interfaces backend, or a 400
        that changes nothing. A successful configuration reads back: netplan
        reports the requested DHCP mode, and the interfaces file reports a
        requested DHCP. */
    method ConfigureInterface(name: string, cfg: NetworkConfig) returns (r: Result<bool>)
      requires Valid()
      modifies this, sh, netplan
      ensures Valid()
      ensures !kind.Netplan? && !kind.Interfaces? ==>
        r == Raised(Http(400)) && files == old(files) && sh.trace == old(sh.trace) && netplan.files == old(netplan.files)
      ensures kind.Netplan? && r == Value(true) && ReadBackReady(old(netplan.files), name, netplan.locked) ==>
        IsDhcpEnabled(name) == cfg.isDhcp
      ensures kind.Netplan? && r == Value(true) && ReadBackReady(old(netplan.files), name, netplan.locked) ==>
        NetplanDoc(name, cfg).Some? && File(ConfigPath(name), NetplanDoc(name, cfg).value) in netplan.files &&
        forall g :: g in netplan.files && Defines(g.entry, name) ==> g == File(ConfigPath(name), NetplanDoc(name, cfg).value)
      ensures kind.Interfaces? && r == Value(true) && cfg.isDhcp && name != [] && !IsSpace(name[0]) ==>
        IsDhcpEnabled(name)
    {
      if kind.Netplan? {
        ghost var before := netplan.files;
        r := ConfigureNetplan(name, cfg);
        if r == Value(true) && ReadBackReady(before, name, netplan.locked) {
          var doc := NetplanDoc(name, cfg);
          var cidr := if cfg.isDhcp then "" else CalculateCidr(cfg.ipAddress, cfg.netmask).value;
          assert doc.value == BuildDoc(name, cfg, cidr);
          ConfigureReadBack(before, name, cfg, cidr, netplan.locked);
        }
      } else if kind.Interfaces? {
        ghost var before := files;
        r := ConfigureInterfaces(name, cfg);
        if r == Value(true) && cfg.isDhcp && name != [] && !IsSpace(name[0]) {
          InterfacesDhcpReadBack(ReadIn(before, InterfacesFile), name, cfg);
          var saved := before[InterfacesFile := InterfacesText(ReadIn(before, InterfacesFile), name, cfg)];
          var d := DirectApply(name, cfg, sh.answer, |old(sh.trace)| + |LegacyRestart(name, sh.answer, |old(sh.trace)|).cmds|);
          DnsAfterKeepsOthers(saved, writable, d.dns, InterfacesFile);
        }
      } else {
        r := Raised(Http(400));
      }
    }

    /** `get_hostname`, as `HostnameLookup` describes it. */
    method GetHostname() returns (r: Result<string>)
      modifies sh
      ensures var l := HostnameLookup(sh.answer, sh.output, |old(sh.trace)|, files);
        sh.trace == old(sh.trace) + l.cmds && r == l.result
    {
      var e, out := sh.Capture(HostnamectlHostname);
      if e.None? {
        return Value(Strip(out));
      }
      e, out := sh.Capture(HostnameCmd);
      if e.None? {
        return Value(Strip(out));
      }
      if e == Some(FileNotFound) {
        return Raised(FileNotFound);
      }
      match ReadIn(files, HostnameFile)
      case Some(c) => r := Value(Strip(c));
      case None => r := Value("unknown");
    }

    /** `set_hostname`: `hostnamectl set-hostname` runs checked and its
        failure is remembered; `/etc/hostname` and `/etc/hosts` are then
        written. Only a failing `/etc/hostname` write after a failed
        `hostnamectl` is an error (a 500). */
    method SetHostname(host: string) returns (r: Result<bool>)
      modifies this, sh
      ensures sh.trace == old(sh.trace) + [HostnamectlSet(host)]
      ensures var done := Raises(sh.answer(|old(sh.trace)|, HostnamectlSet(host)), true).None?;
        if HostnameFile !in writable && !done then r == Raised(Http(500)) && files == old(files)
        else r == Value(true) && files == HostnameSaved(old(files), writable, host)
    {
      var e := sh.Run(HostnamectlSet(host), true);
      var success := e.None?;
      if HostnameFile !in writable && !success {
        return Raised(Http(500));
      }
      files := SaveIn(files, writable, HostnameFile, host + "\n");
      UpdateHostsFile(host);
      return Value(true);
    }
  }
}
