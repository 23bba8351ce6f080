/** The decision logic of the HTTP handlers (`api/interface_routes.py`,
    `api/network_routes.py`, `api/hostname_routes.py`, which `main.py`
    repeats): input normalisation and guards, the interface listing, the
    restart/enable/disable command chains, and the apply-config and
    validate aggregates. */
module Routes {
  import opened Text
  import opened Shell
  import opened Models
  import opened Names
  import opened Detect
  import opened Parsers
  import opened Netplan
  import opened Manager

  // ---- `set_hostname`: normalisation and the name grammar ----

  /** `[a-z0-9]`. */
  predicate IsLowerAlnum(c: char) {
    'a' <= c <= 'z' || '0' <= c <= '9'
  }

  /** `[a-z0-9\-]`. */
  predicate IsLabelChar(c: char) {
    IsLowerAlnum(c) || c == '-'
  }

  /** `c.lower()` on ASCII. */
  function LowerChar(c: char): char {
    if 'A' <= c <= 'Z' then (c as int + 32) as char else c
  }

  /** `s.lower()` on ASCII. */
  function Lower(s: string): (r: string)
    ensures |r| == |s|
    ensures forall i :: 0 <= i < |s| ==> r[i] == LowerChar(s[i])
  {
    seq(|s|, i requires 0 <= i < |s| => LowerChar(s[i]))
  }

  /** `[a-z0-9\-]{0,n}[a-z0-9]$` against the whole of `s`: each character
      of the repetition is taken in turn, and the last one must close the
      name. */
  function TailMatches(s: string, n: nat): bool
    decreases |s|
  {
    if |s| == 0 then false
    else if |s| == 1 then IsLowerAlnum(s[0])
    else n > 0 && IsLabelChar(s[0]) && TailMatches(s[1..], n - 1)
  }

  /** `re.match(r'^[a-z0-9]([a-z0-9\-]{0,61}[a-z0-9])?$', h)`. */
  predicate HostnameRegex(h: string) {
    |h| >= 1 && IsLowerAlnum(h[0]) && (|h| == 1 || TailMatches(h[1..], 61))
  }

  /** A host name label as section 2.1 of RFC 1123 allows it, in
      lower case: 1 to 63 letters, digits and hyphens, starting and ending
      with no hyphen. */
  ghost predicate ValidLabel(h: string) {
    && 1 <= |h| <= 63
    && (forall i :: 0 <= i < |h| ==> IsLabelChar(h[i]))
    && h[0] != '-' && h[|h| - 1] != '-'
  }

  lemma {:induction false} TailMatchesIff(s: string, n: nat)
    ensures TailMatches(s, n) <==>
      1 <= |s| <= n + 1 && IsLowerAlnum(s[|s| - 1]) && forall i :: 0 <= i < |s| - 1 ==> IsLabelChar(s[i])
  {
    if |s| > 1 {
      var t := s[1..];
      TailMatchesIff(t, if n > 0 then n - 1 else 0);
      assert t[|t| - 1] == s[|s| - 1];
      assert forall i :: 0 <= i < |t| - 1 ==> t[i] == s[i + 1];
      if n > 0 && TailMatches(s, n) {
        forall i | 0 <= i < |s| - 1
          ensures IsLabelChar(s[i])
        {
          if i > 0 {
            assert s[i] == t[i - 1];
          }
        }
      }
    }
  }

  /** The pattern accepts exactly the RFC 1123 labels. */
  lemma HostnameRegexIff(h: string)
    ensures HostnameRegex(h) <==> ValidLabel(h)
  {
    if |h| > 1 {
      var t := h[1..];
      TailMatchesIff(t, 61);
      assert t[|t| - 1] == h[|h| - 1];
      assert forall i :: 0 <= i < |t| ==> t[i] == h[i + 1];
      if HostnameRegex(h) {
        forall i | 0 <= i < |h|
          ensures IsLabelChar(h[i])
        {
          if i > 0 {
            assert h[i] == t[i - 1];
          }
        }
      }
    }
  }

  /** The checks before anything runs: an empty or blank name, and a name
      that once stripped and lower-cased does not match the pattern, are a
      400; otherwise the normalised name. */
  function CheckHostname(raw: string): (r: Result<string>)
    ensures r.Raised? ==> r.exc == Http(400)
    ensures r.Value? ==> r.value == Lower(Strip(raw))
  {
    if raw == [] || |Strip(raw)| == 0 then Raised(Http(400))
    else
      var h := Lower(Strip(raw));
      if HostnameRegex(h) then Value(h) else Raised(Http(400))
  }

  /** A name is accepted iff its normalised form is an RFC 1123 label. */
  lemma CheckHostnameIff(raw: string)
    ensures CheckHostname(raw).Value? <==> ValidLabel(Lower(Strip(raw)))
  {
    HostnameRegexIff(Lower(Strip(raw)));
  }

  /** A mixed-case name is accepted in lower case. */
  lemma MixedCaseAccepted(a: string, w: string)
    requires a == "Web-Server-01" && w == "web-server-01"
    ensures CheckHostname(a) == Value(w)
  {
    assert Strip(a) == a by { StripTrimmed(a); }
    assert Lower(a) == w;
    assert HostnameRegex(w) by { HostnameRegexIff(w); }
  }

  /** An underscore, or a hyphen at either end, is refused. */
  lemma BadLabelsRejected(b: string, c: string, d: string)
    requires b == "My_Host!" && c == "-a" && d == "a-"
    ensures CheckHostname(b).Raised? && CheckHostname(c).Raised? && CheckHostname(d).Raised?
  {
    StripTrimmed(b);
    assert Lower(b)[2] == '_';
    HostnameRegexIff(Lower(b));
    StripTrimmed(c);
    HostnameRegexIff(Lower(c));
    StripTrimmed(d);
    HostnameRegexIff(Lower(d));
  }

  /** A blank name is refused before the pattern is tried. */
  lemma BlankRejected(e: string)
    requires e == "   "
    ensures CheckHostname(e).Raised?
  {
    BlankStrips(e);
  }

  /** Any 64-character name is refused. */
  lemma LongHostnameRejected(raw: string)
    requires |Lower(Strip(raw))| == 64
    ensures CheckHostname(raw).Raised?
  {
    HostnameRegexIff(Lower(Strip(raw)));
  }

  /** What the set-hostname handler answers: the name was already set, or
      it changed from the old one. */
  datatype HostnameReply = Unchanged(host: string) | Changed(oldHost: string, newHost: string)

  /** Looking up the hostname never sets it. */
  lemma LookupNeverSets(ans: (nat, Cmd) -> Outcome, out: (nat, Cmd) -> string, k: nat,
                        files: map<TextFile, string>, h: string)
    ensures HostnamectlSet(h) !in HostnameLookup(ans, out, k, files).cmds
  {
  }

  /** The set-hostname handler: the name is checked and normalised; the
      current name is looked up; an equal one is reported unchanged and
      nothing is set; otherwise the manager sets it, and its failure is a
      500. A refused name runs nothing and writes nothing. */
  method SetHostnameHandler(m: NetworkManager, raw: string) returns (r: Result<HostnameReply>)
    modifies m, m.sh
    ensures CheckHostname(raw).Raised? ==>
      r == Raised(Http(400)) && m.sh.trace == old(m.sh.trace) && m.files == old(m.files)
    ensures CheckHostname(raw).Value? ==> SetOutcome(m, CheckHostname(raw).value, r)
  {
    var c := CheckHostname(raw);
    if c.Raised? {
      return Raised(Http(400));
    }
    r := SetValidHostname(m, c.value);
  }

  /** What `set_hostname` does with a name that passed validation: the
      current name is looked up; a failed lookup is the reply, an equal
      name changes nothing, and otherwise the manager's `set_hostname`
      runs. */
  twostate predicate SetOutcome(m: NetworkManager, h: string, new r: Result<HostnameReply>)
    reads m, m.sh
  {
    var l := HostnameLookup(m.sh.answer, m.sh.output, |old(m.sh.trace)|, old(m.files));
    if l.result.Raised? then
      r == Raised(l.result.exc) && m.sh.trace == old(m.sh.trace) + l.cmds && m.files == old(m.files)
    else if l.result.value == h then
      r == Value(Unchanged(h)) && m.sh.trace == old(m.sh.trace) + l.cmds && m.files == old(m.files)
    else
      var done := Raises(m.sh.answer(|old(m.sh.trace)| + |l.cmds|, HostnamectlSet(h)), true).None?;
      && m.sh.trace == old(m.sh.trace) + l.cmds + [HostnamectlSet(h)]
      && if HostnameFile !in m.writable && !done then r == Raised(Http(500)) && m.files == old(m.files)
         else r == Value(Changed(l.result.value, h)) && m.files == HostnameSaved(old(m.files), m.writable, h)
  }

  method SetValidHostname(m: NetworkManager, h: string) returns (r: Result<HostnameReply>)
    modifies m, m.sh
    ensures SetOutcome(m, h, r)
  {
    var current := m.GetHostname();
    if current.Raised? {
      return Raised(current.exc);
    }
    if current.value == h {
      return Value(Unchanged(h));
    }
    ghost var t1 := m.sh.trace;
    r := ChangeHostname(m, current.value, h);
  }

  /** The tail of `set_hostname` once the current name is known and
      differs: the manager's `set_hostname` runs and its outcome is the
      reply. */
  method ChangeHostname(m: NetworkManager, current: string, h: string) returns (r: Result<HostnameReply>)
    modifies m, m.sh
    ensures m.sh.trace == old(m.sh.trace) + [HostnamectlSet(h)]
    ensures var done := Raises(m.sh.answer(|old(m.sh.trace)|, HostnamectlSet(h)), true).None?;
      if HostnameFile !in m.writable && !done then r == Raised(Http(500)) && m.files == old(m.files)
      else r == Value(Changed(current, h)) && m.files == HostnameSaved(old(m.files), m.writable, h)
  {
    var success := m.SetHostname(h);
    if success.Raised? {
      return Raised(success.exc);
    }
    r := Value(Changed(current, h));
  }

  // ---- `get_all_interfaces` ----

  /** One entry of the listing: its name, whether `UP` is among its flags,
      the `local` of its first `inet` address, and its side. */
  datatype InterfaceInfo = InterfaceInfo(name: string, isActive: bool, ipAddress: Option<string>, isPublic: bool)

  function InfoOf(rec: IpRecord): (i: InterfaceInfo)
    ensures i.name == rec.ifname
    ensures i.isActive <==> "UP" in rec.flags
    ensures i.isPublic <==> IsPublic(rec.ifname)
    ensures FirstInet(rec.addrInfo).None? ==> i.ipAddress.None?
    ensures FirstInet(rec.addrInfo).Some? ==> i.ipAddress == FirstInet(rec.addrInfo).value.local
  {
    InterfaceInfo(rec.ifname, "UP" in rec.flags,
                  match FirstInet(rec.addrInfo) case Some(a) => a.local case None => None,
                  IsPublic(rec.ifname))
  }

  /** The entries of a listing on one side, in the order of the records. */
  function Side(records: seq<IpRecord>, public: bool): seq<InterfaceInfo>
    decreases |records|
  {
    if records == [] then []
    else OnSide(records[0], public) + Side(records[1..], public)
  }

  /** One record's entry when it is on the side asked for. */
  function OnSide(rec: IpRecord, public: bool): seq<InterfaceInfo> {
    if IsPublic(rec.ifname) == public then [InfoOf(rec)] else []
  }

  lemma {:induction false} SideAppend(a: seq<IpRecord>, b: seq<IpRecord>, public: bool)
    ensures Side(a + b, public) == Side(a, public) + Side(b, public)
  {
    if a != [] {
      var h := OnSide(a[0], public);
      assert (a + b)[0] == a[0];
      assert (a + b)[1..] == a[1..] + b;
      assert Side(a + b, public) == h + Side(a[1..] + b, public);
      SideAppend(a[1..], b, public);
      assert h + (Side(a[1..], public) + Side(b, public)) == (h + Side(a[1..], public)) + Side(b, public);
    } else {
      assert a + b == b;
    }
  }

  lemma SideSnoc(records: seq<IpRecord>, i: nat, public: bool)
    requires i < |records|
    ensures Side(records[..i + 1], public) ==
      Side(records[..i], public) + (if IsPublic(records[i].ifname) == public then [InfoOf(records[i])] else [])
  {
    assert records[..i + 1] == records[..i] + [records[i]];
    SideAppend(records[..i], [records[i]], public);
    assert [records[i]][1..] == [];
  }

  /** Every record lands on exactly one side: the two lists together hold
      one entry per record, and each entry is on the side the classifier
      gives it. */
  lemma {:induction false} SidesPartition(records: seq<IpRecord>)
    ensures |Side(records, true)| + |Side(records, false)| == |records|
    ensures multiset(Side(records, true)) + multiset(Side(records, false)) == multiset(seq(|records|, i requires 0 <= i < |records| => InfoOf(records[i])))
    ensures forall x :: x in Side(records, true) ==> x.isPublic
    ensures forall x :: x in Side(records, false) ==> !x.isPublic
  {
    if records != [] {
      var rest := records[1..];
      SidesPartition(rest);
      var all := seq(|records|, i requires 0 <= i < |records| => InfoOf(records[i]));
      var allRest := seq(|rest|, i requires 0 <= i < |rest| => InfoOf(rest[i]));
      assert all == [InfoOf(records[0])] + allRest;
    }
  }

  /** What `get_all_interfaces` returns: the record count and both lists. */
  datatype AllInterfaces = AllInterfaces(total: nat, publicList: seq<InterfaceInfo>, systemList: seq<InterfaceInfo>)

  /** `get_all_interfaces`: `ip -j addr show` must succeed (any error is a
      500); each parsed record is described and appended to its side. */
  method GetAllInterfaces(listing: Outcome, records: seq<IpRecord>) returns (r: Result<AllInterfaces>)
    ensures listing != Ok ==> r == Raised(Http(500))
    ensures listing == Ok ==> r == Value(AllInterfaces(|records|, Side(records, true), Side(records, false)))
  {
    if listing != Ok {
      return Raised(Http(500));
    }
    var publicList: seq<InterfaceInfo> := [];
    var systemList: seq<InterfaceInfo> := [];
    var i := 0;
    while i < |records|
      invariant 0 <= i <= |records|
      invariant publicList == Side(records[..i], true)
      invariant systemList == Side(records[..i], false)
    {
      var info := InfoOf(records[i]);
      SideSnoc(records, i, true);
      SideSnoc(records, i, false);
      if info.isPublic {
        publicList := publicList + [info];
      } else {
        systemList := systemList + [info];
      }
      i := i + 1;
    }
    assert records[..|records|] == records;
    return Value(AllInterfaces(|records|, publicList, systemList));
  }

  // ---- `configure_interface` and `cleanup_netplan_interface` ----

  /** What `get_interfaces` reads: how `ip -j addr show` ended, its
      decoded records, each interface's route listing, the resolver file
      and the DHCP check. */
  datatype ListingInput = ListingInput(listing: Outcome, records: seq<IpRecord>, routes: string -> Reply,
                                       resolv: Option<seq<string>>, dhcp: string -> bool)

  /** `get_interfaces` on those inputs. */
  function InventoryOf(l: ListingInput): Result<seq<NetworkInterface>> {
    if l.listing == Fail then Raised(Http(500))
    else if l.listing == Missing then Raised(FileNotFound)
    else Inventory(l.records, l.routes, l.resolv, l.dhcp)
  }

  /** `any(iface.name == interface_name for iface in interfaces)`. */
  predicate Mentions(ifaces: seq<NetworkInterface>, name: string) {
    exists i :: 0 <= i < |ifaces| && ifaces[i].name == name
  }

  /** The guards the two handlers share: a non-public name is a 400; the
      inventory's own error propagates; a name it does not list is a 404. */
  function Guard(name: string, l: ListingInput): (r: Option<Exc>)
    ensures r == None <==> IsPublic(name) && InventoryOf(l).Value? && Mentions(InventoryOf(l).value, name)
    ensures !IsPublic(name) ==> r == Some(Http(400))
    ensures IsPublic(name) && InventoryOf(l).Raised? ==> r == Some(InventoryOf(l).exc)
    ensures r.Some? && IsPublic(name) && InventoryOf(l).Value? ==> r == Some(Http(404))
  {
    if !IsPublic(name) then Some(Http(400))
    else match InventoryOf(l)
      case Raised(x) => Some(x)
      case Value(ifaces) => if Mentions(ifaces, name) then None else Some(Http(404))
  }

  /** The inventory steps of both handlers, as `get_interfaces` runs them. */
  method GuardInterface(name: string, l: ListingInput) returns (g: Option<Exc>)
    ensures g == Guard(name, l)
  {
    if !IsPublic(name) {
      return Some(Http(400));
    }
    var inv := GetInterfaces(l.listing, l.records, l.routes, l.resolv, l.dhcp);
    if inv.Raised? {
      return Some(inv.exc);
    }
    var found := false;
    var i := 0;
    while i < |inv.value|
      invariant 0 <= i <= |inv.value|
      invariant found <==> exists j :: 0 <= j < i && inv.value[j].name == name
    {
      if inv.value[i].name == name {
        found := true;
      }
      i := i + 1;
    }
    if !found {
      return Some(Http(404));
    }
    return None;
  }

  /** The configure handler: the guards, then the manager's
      `configure_interface`; a `False` from it is a 500. A guard that
      fails changes nothing, and a configuration that succeeds reads back
      as the manager promises. */
  method ConfigureHandler(m: NetworkManager, name: string, cfg: NetworkConfig, l: ListingInput)
    returns (r: Result<bool>)
    requires m.Valid()
    modifies m, m.sh, m.netplan
    ensures m.Valid()
    ensures Guard(name, l).Some? ==>
      r == Raised(Guard(name, l).value) && m.files == old(m.files) && m.sh.trace == old(m.sh.trace) &&
      m.netplan.files == old(m.netplan.files)
    ensures Guard(name, l).None? && !m.kind.Netplan? && !m.kind.Interfaces? ==>
      r == Raised(Http(400)) && m.files == old(m.files) && m.sh.trace == old(m.sh.trace)
    ensures m.kind.Netplan? && r == Value(true) && ReadBackReady(old(m.netplan.files), name, m.netplan.locked) ==>
      m.IsDhcpEnabled(name) == cfg.isDhcp
    ensures m.kind.Netplan? && r == Value(true) && ReadBackReady(old(m.netplan.files), name, m.netplan.locked) ==>
      NetplanDoc(name, cfg).Some? && File(ConfigPath(name), NetplanDoc(name, cfg).value) in m.netplan.files &&
      forall g :: g in m.netplan.files && Defines(g.entry, name) ==> g == File(ConfigPath(name), NetplanDoc(name, cfg).value)
    ensures m.kind.Interfaces? && r == Value(true) && cfg.isDhcp ==> m.IsDhcpEnabled(name)
  {
    var g := GuardInterface(name, l);
    if g.Some? {
      return Raised(g.value);
    }
    Names.PublicNameShape(name);
    r := m.ConfigureInterface(name, cfg);
    if r == Value(false) {
      r := Raised(Http(500));
    }
  }

  /** The cleanup handler: the guards (an inventory error that is not an
      HTTP error is a 500), then the netplan cleanup for the interface. */
  method CleanupHandler(m: NetworkManager, name: string, l: ListingInput) returns (r: Result<bool>)
    requires m.Valid()
    modifies m.netplan
    ensures m.Valid()
    ensures var g := Guard(name, l);
      if g.Some? then
        r == Raised(if g.value.Http? then g.value else Http(500)) && m.netplan.files == old(m.netplan.files)
      else
        r == Value(true) && m.netplan.files == Cleaned(m.netplan.dirExists, old(m.netplan.files), name, m.netplan.locked)
  {
    var g := GuardInterface(name, l);
    if g.Some? {
      return Raised(if g.value.Http? then g.value else Http(500));
    }
    m.netplan.Cleanup(name);
    return Value(true);
  }

  // ---- `restart_interface`, `enable_interface`, `disable_interface` ----

  /** The netplan block: the link goes down and up around `netplan apply`
      (checked) on a host, or around `netplan generate` (every error of
      which is swallowed) in a container; the block's `except` catches
      every command error. */
  function NetplanCycleScript(name: string, container: bool): seq<Step> {
    [Exec(IpLink(name, false), true, Stop, Stop),
     if container then Exec(NetplanGenerate, false, Resume, Resume) else Exec(NetplanApply, true, Stop, Stop),
     Exec(IpLink(name, true), true, Stop, Stop)]
  }

  /** The NetworkManager block: the connection goes down unchecked and up
      checked; the block's `except` catches every command error. */
  function NmcliScript(name: string): seq<Step> {
    [Exec(NmcliConnection(false, name), false, Stop, Stop), Exec(NmcliConnection(true, name), true, Stop, Stop)]
  }

  /** The bare `ip link` cycle, down unchecked and up checked, with nothing
      caught: it is the fallback of every backend block, and all the
      handler does for the other backends. */
  function CycleScript(name: string): seq<Step> {
    [Exec(IpLink(name, false), false, Escape, Escape), Exec(IpLink(name, true), true, Escape, Escape)]
  }

  /** Whether the backend has a restart block of its own. */
  predicate HasBlock(kind: Kind) {
    kind.Netplan? || kind.Interfaces? || kind.NetworkManagerKind?
  }

  /** That block. */
  function BlockScript(kind: Kind, name: string, container: bool): seq<Step>
    requires HasBlock(kind)
  {
    if kind.Netplan? then NetplanCycleScript(name, container)
    else if kind.Interfaces? then IfScript(name)
    else NmcliScript(name)
  }

  /** The restart, from the `k`-th command: the backend's block and, when
      its `except` caught, the cycle; the cycle alone for other backends. */
  function RestartRun(kind: Kind, container: bool, name: string, ans: (nat, Cmd) -> Outcome, k: nat): Ran {
    if HasBlock(kind) then
      var r := RunBlock(BlockScript(kind, name, container), ans, k);
      Excepted(r, RunBlock(CycleScript(name), ans, k + |r.cmds|))
    else RunBlock(CycleScript(name), ans, k)
  }

  /** The reply for what escaped the handler's `try`: success carries `v`,
      a CalledProcessError becomes a 500, anything else propagates. */
  function Answer<T>(v: T, e: Option<Exc>): (r: Result<T>)
    ensures r.Value? <==> e.None?
  {
    match e
    case None => Value(v)
    case Some(x) => Raised(if x == CalledProcessError then Http(500) else x)
  }

  /** A checked command's reply: success iff it exited 0, a 500 iff it
      failed, and a missing executable propagates. */
  lemma AnswerChecked<T>(v: T, o: Outcome)
    ensures Answer(v, Raises(o, true)) == (if o == Ok then Value(v) else if o == Fail then Raised(Http(500)) else Raised(FileNotFound))
  {
  }

  /** A block of three steps: the first, then the other two. */
  lemma RunBlockTriple(steps: seq<Step>, ans: (nat, Cmd) -> Outcome, k: nat)
    requires |steps| == 3
    ensures var s0 := StepRan(steps[0], ans, k);
      RunBlock(steps, ans, k) == Sequenced(s0, Sequenced(StepRan(steps[1], ans, k + |s0.cmds|),
        StepRan(steps[2], ans, k + |s0.cmds| + |StepRan(steps[1], ans, k + |s0.cmds|).cmds|)))
  {
    RunBlockCons(steps, ans, k);
    var rest := steps[1..];
    assert rest[0] == steps[1] && rest[1] == steps[2];
    RunBlockPair(rest, ans, k + |StepRan(steps[0], ans, k).cmds|);
  }

  /** The backend blocks let nothing escape. */
  lemma BlockContained(kind: Kind, name: string, container: bool, ans: (nat, Cmd) -> Outcome, k: nat)
    requires HasBlock(kind)
    ensures RunBlock(BlockScript(kind, name, container), ans, k).raised.None?
  {
    RunBlockContained(BlockScript(kind, name, container), ans, k);
  }

  /** What may escape a restart run from the `k`-th command: a
      CalledProcessError, when the last command was the link-up and it
      exited non-zero, or a missing executable. */
  predicate FailsOnLinkUp(s: Ran, name: string, ans: (nat, Cmd) -> Outcome, k: nat) {
    && (s.raised.Some? ==> s.raised == Some(CalledProcessError) || s.raised == Some(FileNotFound))
    && (s.raised == Some(CalledProcessError) ==>
          |s.cmds| >= 2 && s.cmds[|s.cmds| - 1] == IpLink(name, true) && ans(k + |s.cmds| - 1, IpLink(name, true)) == Fail)
  }

  /** The cycle fails only on its link-up. */
  lemma CycleFailure(name: string, ans: (nat, Cmd) -> Outcome, j: nat)
    ensures FailsOnLinkUp(RunBlock(CycleScript(name), ans, j), name, ans, j)
  {
    RunBlockPair(CycleScript(name), ans, j);
  }

  /** A block that raised nothing, followed by a fallback that fails only
      on its link-up, fails only on that link-up. */
  lemma ExceptedFailure(r: Ran, c: Ran, name: string, ans: (nat, Cmd) -> Outcome, k: nat)
    requires r.raised.None?
    requires FailsOnLinkUp(c, name, ans, k + |r.cmds|)
    ensures FailsOnLinkUp(Excepted(r, c), name, ans, k)
  {
    if r.caught && c.raised == Some(CalledProcessError) {
      var all := r.cmds + c.cmds;
      assert all[|all| - 1] == c.cmds[|c.cmds| - 1];
    }
  }

  /** Only the cycle raises: a CalledProcessError means its final link-up
      was the last command and exited non-zero, and otherwise it is a
      missing executable. */
  lemma {:induction false} RestartFailure(kind: Kind, container: bool, name: string, ans: (nat, Cmd) -> Outcome, k: nat)
    ensures FailsOnLinkUp(RestartRun(kind, container, name, ans, k), name, ans, k)
  {
    if HasBlock(kind) {
      var r := RunBlock(BlockScript(kind, name, container), ans, k);
      BlockContained(kind, name, container, ans, k);
      CycleFailure(name, ans, k + |r.cmds|);
      ExceptedFailure(r, RunBlock(CycleScript(name), ans, k + |r.cmds|), name, ans, k);
    } else {
      CycleFailure(name, ans, k);
    }
  }

  /** In a container the netplan restart never runs `netplan apply`. */
  lemma ContainerNeverApplies(name: string, ans: (nat, Cmd) -> Outcome, k: nat)
    ensures NetplanApply !in RestartRun(Kind.Netplan, true, name, ans, k).cmds
  {
    var r := RunBlock(NetplanCycleScript(name, true), ans, k);
    RunBlockTriple(NetplanCycleScript(name, true), ans, k);
    RunBlockPair(CycleScript(name), ans, k + |r.cmds|);
  }

  /** On a host whose commands all succeed, the netplan restart is link
      down, `netplan apply`, link up, and nothing else. */
  lemma HostRestartAllOk(name: string, ans: (nat, Cmd) -> Outcome, k: nat)
    requires ans(k, IpLink(name, false)) == Ok && ans(k + 1, NetplanApply) == Ok && ans(k + 2, IpLink(name, true)) == Ok
    ensures RestartRun(Kind.Netplan, false, name, ans, k) == Ran([IpLink(name, false), NetplanApply, IpLink(name, true)], None, false)
  {
    RunBlockTriple(NetplanCycleScript(name, false), ans, k);
  }

  /** The cycle on its own. */
  method RunCycle(sh: Shell, name: string) returns (e: Option<Exc>)
    modifies sh
    ensures var r := RunBlock(CycleScript(name), sh.answer, |old(sh.trace)|);
      sh.trace == old(sh.trace) + r.cmds && e == r.raised
  {
    RunBlockPair(CycleScript(name), sh.answer, |sh.trace|);
    e := sh.Run(IpLink(name, false), false);
    if e.Some? {
      return;
    }
    e := sh.Run(IpLink(name, true), true);
  }

  /** The netplan block. */
  method RunNetplanCycle(sh: Shell, name: string, container: bool) returns (caught: bool)
    modifies sh
    ensures var r := RunBlock(NetplanCycleScript(name, container), sh.answer, |old(sh.trace)|);
      sh.trace == old(sh.trace) + r.cmds && caught == r.caught
  {
    RunBlockTriple(NetplanCycleScript(name, container), sh.answer, |sh.trace|);
    var e := sh.Run(IpLink(name, false), true);
    if e.Some? {
      return true;
    }
    if container {
      e := sh.Run(NetplanGenerate, false);
    } else {
      e := sh.Run(NetplanApply, true);
      if e.Some? {
        return true;
      }
    }
    e := sh.Run(IpLink(name, true), true);
    caught := e.Some?;
  }

  /** The NetworkManager block. */
  method RunNmcli(sh: Shell, name: string) returns (caught: bool)
    modifies sh
    ensures var r := RunBlock(NmcliScript(name), sh.answer, |old(sh.trace)|);
      sh.trace == old(sh.trace) + r.cmds && caught == r.caught
  {
    RunBlockPair(NmcliScript(name), sh.answer, |sh.trace|);
    var e := sh.Run(NmcliConnection(false, name), false);
    if e.Some? {
      return true;
    }
    e := sh.Run(NmcliConnection(true, name), true);
    caught := e.Some?;
  }

  /** The backend's own block. */
  method RunBackendBlock(m: NetworkManager, name: string) returns (caught: bool)
    requires HasBlock(m.kind)
    modifies m.sh
    ensures var r := RunBlock(BlockScript(m.kind, name, m.isContainer), m.sh.answer, |old(m.sh.trace)|);
      m.sh.trace == old(m.sh.trace) + r.cmds && caught == r.caught
  {
    if m.kind.Netplan? {
      caught := RunNetplanCycle(m.sh, name, m.isContainer);
    } else if m.kind.Interfaces? {
      caught := m.IfDownUp(name);
    } else {
      caught := RunNmcli(m.sh, name);
    }
  }

  /** The restart of a backend that has a block: the block, then the cycle
      when its `except` caught. */
  method RestartWithBlock(m: NetworkManager, name: string) returns (e: Option<Exc>)
    requires HasBlock(m.kind)
    modifies m.sh
    ensures var s := RestartRun(m.kind, m.isContainer, name, m.sh.answer, |old(m.sh.trace)|);
      m.sh.trace == old(m.sh.trace) + s.cmds && e == s.raised
  {
    ghost var t := m.sh.trace;
    var caught := RunBackendBlock(m, name);
    ghost var b := RunBlock(BlockScript(m.kind, name, m.isContainer), m.sh.answer, |t|);
    BlockContained(m.kind, name, m.isContainer, m.sh.answer, |t|);
    if caught {
      e := RunCycle(m.sh, name);
      ConcatAssoc(t, b.cmds, RunBlock(CycleScript(name), m.sh.answer, |t| + |b.cmds|).cmds);
    } else {
      e := None;
    }
  }

  /** The restart handler: a non-public name is a 400 before anything
      runs; otherwise the restart runs and its reply names the backend. */
  method RestartInterface(m: NetworkManager, name: string) returns (r: Result<Kind>)
    modifies m.sh
    ensures !IsPublic(name) ==> r == Raised(Http(400)) && m.sh.trace == old(m.sh.trace)
    ensures IsPublic(name) ==>
      var s := RestartRun(m.kind, m.isContainer, name, m.sh.answer, |old(m.sh.trace)|);
      m.sh.trace == old(m.sh.trace) + s.cmds && r == Answer(m.kind, s.raised)
  {
    if !IsPublic(name) {
      return Raised(Http(400));
    }
    var e: Option<Exc>;
    if HasBlock(m.kind) {
      e := RestartWithBlock(m, name);
    } else {
      e := RunCycle(m.sh, name);
    }
    r := Answer(m.kind, e);
  }

  /** `ip link set up`, checked, and on netplan a `netplan apply` whose
      every error is swallowed. */
  function EnableScript(name: string, netplan: bool): seq<Step> {
    [Exec(IpLink(name, true), true, Escape, Escape)] + (if netplan then [Exec(NetplanApply, false, Resume, Resume)] else [])
  }

  /** Enabling fails exactly when the link-up does, and then runs nothing
      more; otherwise it is the link-up and, on netplan, `netplan apply`. */
  lemma EnableOutcome(name: string, netplan: bool, ans: (nat, Cmd) -> Outcome, k: nat)
    ensures var r := RunBlock(EnableScript(name, netplan), ans, k);
      && (r.raised.None? <==> ans(k, IpLink(name, true)) == Ok)
      && r.raised == Raises(ans(k, IpLink(name, true)), true)
      && (r.raised.Some? ==> r.cmds == [IpLink(name, true)])
      && (r.raised.None? ==> r.cmds == [IpLink(name, true)] + (if netplan then [NetplanApply] else []))
  {
    var steps := EnableScript(name, netplan);
    if netplan {
      RunBlockPair(steps, ans, k);
    } else {
      RunBlockCons(steps, ans, k);
    }
  }

  /** The enable handler; its reply says whether `netplan apply` was part
      of the method. */
  method EnableInterface(m: NetworkManager, name: string) returns (r: Result<bool>)
    modifies m.sh
    ensures !IsPublic(name) ==> r == Raised(Http(400)) && m.sh.trace == old(m.sh.trace)
    ensures IsPublic(name) ==>
      var s := RunBlock(EnableScript(name, m.kind.Netplan?), m.sh.answer, |old(m.sh.trace)|);
      m.sh.trace == old(m.sh.trace) + s.cmds && r == Answer(m.kind.Netplan?, s.raised)
  {
    if !IsPublic(name) {
      return Raised(Http(400));
    }
    var steps := EnableScript(name, m.kind.Netplan?);
    if m.kind.Netplan? {
      RunBlockPair(steps, m.sh.answer, |m.sh.trace|);
    } else {
      RunBlockCons(steps, m.sh.answer, |m.sh.trace|);
    }
    var e := m.sh.Run(IpLink(name, true), true);
    if e.None? && m.kind.Netplan? {
      var _ := m.sh.Run(NetplanApply, false);
    }
    r := Answer(m.kind.Netplan?, e);
  }

  /** The disable handler: `ip link set down`, checked. */
  method DisableInterface(m: NetworkManager, name: string) returns (r: Result<bool>)
    modifies m.sh
    ensures !IsPublic(name) ==> r == Raised(Http(400)) && m.sh.trace == old(m.sh.trace)
    ensures IsPublic(name) ==>
      m.sh.trace == old(m.sh.trace) + [IpLink(name, false)] &&
      r == Answer(true, Raises(m.sh.answer(|old(m.sh.trace)|, IpLink(name, false)), true))
  {
    if !IsPublic(name) {
      return Raised(Http(400));
    }
    var e := m.sh.Run(IpLink(name, false), true);
    r := Answer(true, e);
  }

  // ---- `apply_network_config` ----

  /** The entries `actions_performed` can hold. */
  datatype Action =
    | NetplanGenerated | NetplanApplied | NetplanFailed
    | NetworkingRestarted | InitScriptRan | NetworkingFailed
    | NetworkManagerRestarted | NetworkManagerFailed
    | NoAction

  /** The handler's report. */
  datatype ApplyReport = ApplyReport(kind: Kind, actions: seq<Action>, success: bool)

  /** What apply-config did: its commands and its report. */
  datatype Applied = Applied(cmds: seq<Cmd>, report: ApplyReport)

  /** The `systemctl` units apply-config restarts. */
  const NetworkingUnit: string := "networking"
  const NetworkManagerUnit: string := "NetworkManager"

  /** apply-config from the `k`-th command. netplan: `netplan generate` in
      a container, `netplan apply` on a host, checked. interfaces: the
      `networking` unit, and the init script when that fails, both checked.
      networkmanager: its unit, checked. Any other backend: nothing, and
      failure. */
  function ApplyConfigRun(kind: Kind, container: bool, ans: (nat, Cmd) -> Outcome, k: nat): Applied {
    if kind.Netplan? then
      var c := if container then NetplanGenerate else NetplanApply;
      var ok := ans(k, c) == Ok;
      Applied([c], ApplyReport(kind, [if !ok then NetplanFailed else if container then NetplanGenerated else NetplanApplied], ok))
    else if kind.Interfaces? then
      var c1 := SystemctlRestart(NetworkingUnit);
      if ans(k, c1) == Ok then Applied([c1], ApplyReport(kind, [NetworkingRestarted], true))
      else
        var ok := ans(k + 1, InitScriptRestart) == Ok;
        Applied([c1, InitScriptRestart], ApplyReport(kind, [if ok then InitScriptRan else NetworkingFailed], ok))
    else if kind.NetworkManagerKind? then
      var c := SystemctlRestart(NetworkManagerUnit);
      var ok := ans(k, c) == Ok;
      Applied([c], ApplyReport(kind, [if ok then NetworkManagerRestarted else NetworkManagerFailed], ok))
    else Applied([], ApplyReport(kind, [NoAction], false))
  }

  /** One action is reported; the run succeeds iff the backend is one the
      handler knows and the last command it ran exited 0; the other
      backends run nothing; a container never runs `netplan apply`; the
      init script runs only after the `networking` unit failed. */
  lemma ApplyConfigOutcome(kind: Kind, container: bool, ans: (nat, Cmd) -> Outcome, k: nat)
    ensures var a := ApplyConfigRun(kind, container, ans, k);
      && |a.report.actions| == 1 && a.report.kind == kind
      && (a.report.success <==> HasBlock(kind) && a.cmds != [] && ans(k + |a.cmds| - 1, a.cmds[|a.cmds| - 1]) == Ok)
      && (a.cmds == [] <==> !HasBlock(kind))
      && (kind.Netplan? && container ==> NetplanApply !in a.cmds)
      && (InitScriptRestart in a.cmds ==> kind.Interfaces? && ans(k, SystemctlRestart(NetworkingUnit)) != Ok)
  {
  }

  /** The apply-config handler, appending to its report as it goes. */
  method ApplyConfig(m: NetworkManager) returns (report: ApplyReport)
    modifies m.sh
    ensures var a := ApplyConfigRun(m.kind, m.isContainer, m.sh.answer, |old(m.sh.trace)|);
      m.sh.trace == old(m.sh.trace) + a.cmds && report == a.report
  {
    var actions: seq<Action> := [];
    var success := true;
    if m.kind.Netplan? {
      if m.isContainer {
        var e := m.sh.Run(NetplanGenerate, true);
        if e.None? {
          actions := actions + [NetplanGenerated];
        } else {
          actions := actions + [NetplanFailed];
          success := false;
        }
      } else {
        var e := m.sh.Run(NetplanApply, true);
        if e.None? {
          actions := actions + [NetplanApplied];
        } else {
          actions := actions + [NetplanFailed];
          success := false;
        }
      }
    } else if m.kind.Interfaces? {
      var e := m.sh.Run(SystemctlRestart(NetworkingUnit), true);
      if e.None? {
        actions := actions + [NetworkingRestarted];
      } else {
        e := m.sh.Run(InitScriptRestart, true);
        if e.None? {
          actions := actions + [InitScriptRan];
        } else {
          actions := actions + [NetworkingFailed];
          success := false;
        }
      }
    } else if m.kind.NetworkManagerKind? {
      var e := m.sh.Run(SystemctlRestart(NetworkManagerUnit), true);
      if e.None? {
        actions := actions + [NetworkManagerRestarted];
      } else {
        actions := actions + [NetworkManagerFailed];
        success := false;
      }
    } else {
      actions := actions + [NoAction];
      success := false;
    }
    report := ApplyReport(m.kind, actions, success);
  }

  // ---- `get_netplan_files` ----

  /** The listing handler: one record per `*.yaml` file when the directory
      exists, none otherwise; `total_files` is the number of records. */
  method GetNetplanFiles(store: NetplanStore) returns (listing: seq<Listed>, total: nat)
    ensures listing == (if store.dirExists then ListFiles(store.files) else [])
    ensures total == |listing|
  {
    listing := [];
    if store.dirExists {
      var files := store.files;
      var i := 0;
      while i < |files|
        invariant 0 <= i <= |files|
        invariant |listing| == i
        invariant forall j :: 0 <= j < i ==>
          listing[j] == Listed(files[j].path, Ethernets(files[j].entry).Keys, files[j].entry.Unparseable?)
      {
        var f := files[i];
        listing := listing + [Listed(f.path, Ethernets(f.entry).Keys, f.entry.Unparseable?)];
        i := i + 1;
      }
      var expected := ListFiles(files);
      assert forall j :: 0 <= j < |files| ==> listing[j] == expected[j];
    }
    total := |listing|;
  }

  // ---- `validate_netplan` ----

  /** One entry of the validation report. */
  datatype Check = Check(path: string, valid: bool, permissionWarning: bool)

  /** `st_mode & 0o777 != 0o600`. */
  predicate PermissionWarning(mode: nat) {
    mode % 512 != 384
  }

  /** The checks of `files`, the `netplan info` of the `i`-th one being the
      `(k + i)`-th command; `modes` gives each path's `st_mode`. */
  function Checks(files: seq<File>, ans: (nat, Cmd) -> Outcome, k: nat, modes: string -> nat): (r: seq<Check>)
    ensures |r| == |files|
    decreases |files|
  {
    if files == [] then []
    else
      [Check(files[0].path, IsValidConfig(ans(k, NetplanInfo(files[0].path)), files[0].entry), PermissionWarning(modes(files[0].path)))]
      + Checks(files[1..], ans, k + 1, modes)
  }

  /** The commands the checks run. */
  function InfoCmds(files: seq<File>): (r: seq<Cmd>)
    ensures |r| == |files|
    decreases |files|
  {
    if files == [] then [] else [NetplanInfo(files[0].path)] + InfoCmds(files[1..])
  }

  lemma {:induction false} ChecksAppend(a: seq<File>, b: seq<File>, ans: (nat, Cmd) -> Outcome, k: nat, modes: string -> nat)
    ensures Checks(a + b, ans, k, modes) == Checks(a, ans, k, modes) + Checks(b, ans, k + |a|, modes)
  {
    if a == [] {
      assert a + b == b;
    } else {
      assert (a + b)[0] == a[0];
      assert (a + b)[1..] == a[1..] + b;
      ChecksAppend(a[1..], b, ans, k + 1, modes);
    }
  }

  lemma {:induction false} InfoCmdsAppend(a: seq<File>, b: seq<File>)
    ensures InfoCmds(a + b) == InfoCmds(a) + InfoCmds(b)
  {
    if a == [] {
      assert a + b == b;
    } else {
      assert (a + b)[0] == a[0];
      assert (a + b)[1..] == a[1..] + b;
      InfoCmdsAppend(a[1..], b);
    }
  }

  lemma ChecksSnoc(files: seq<File>, i: nat, ans: (nat, Cmd) -> Outcome, k: nat, modes: string -> nat)
    requires i < |files|
    ensures Checks(files[..i + 1], ans, k, modes) == Checks(files[..i], ans, k, modes) +
      [Check(files[i].path, IsValidConfig(ans(k + i, NetplanInfo(files[i].path)), files[i].entry), PermissionWarning(modes(files[i].path)))]
    ensures InfoCmds(files[..i + 1]) == InfoCmds(files[..i]) + [NetplanInfo(files[i].path)]
  {
    assert files[..i + 1] == files[..i] + [files[i]];
    ChecksAppend(files[..i], [files[i]], ans, k, modes);
    InfoCmdsAppend(files[..i], [files[i]]);
    assert [files[i]][1..] == [];
  }

  /** The `i`-th check is about the `i`-th file and its own command. */
  lemma {:induction false} ChecksAt(files: seq<File>, ans: (nat, Cmd) -> Outcome, k: nat, modes: string -> nat, i: nat)
    requires i < |files|
    ensures Checks(files, ans, k, modes)[i] ==
      Check(files[i].path, IsValidConfig(ans(k + i, NetplanInfo(files[i].path)), files[i].entry), PermissionWarning(modes(files[i].path)))
    ensures InfoCmds(files)[i] == NetplanInfo(files[i].path)
    decreases i
  {
    if i > 0 {
      ChecksAt(files[1..], ans, k + 1, modes, i - 1);
      assert files[1..][i - 1] == files[i];
    }
  }

  /** `sum(1 for r in validation_results if r["valid"])`. */
  function ValidCount(checks: seq<Check>): nat
    decreases |checks|
  {
    if checks == [] then 0 else (if checks[0].valid then 1 else 0) + ValidCount(checks[1..])
  }

  /** `all(r["valid"] for r in validation_results)`. */
  predicate AllValid(checks: seq<Check>) {
    forall i :: 0 <= i < |checks| ==> checks[i].valid
  }

  /** The valid count never exceeds the total, and reaches it exactly when
      every file is valid; an empty report is all-valid. */
  lemma {:induction false} ValidCountBounds(checks: seq<Check>)
    ensures ValidCount(checks) <= |checks|
    ensures ValidCount(checks) == |checks| <==> AllValid(checks)
  {
    if checks != [] {
      ValidCountBounds(checks[1..]);
      assert forall i :: 1 <= i < |checks| ==> checks[i] == checks[1..][i - 1];
    }
  }

  /** The validation report. */
  datatype Validation = Validation(checks: seq<Check>, allValid: bool, total: nat, validFiles: nat)

  /** The validate handler: every `*.yaml` file, when the directory exists,
      is checked in turn, and the report aggregates the checks. */
  method ValidateNetplan(m: NetworkManager, modes: string -> nat) returns (v: Validation)
    modifies m.sh
    ensures var files := if m.netplan.dirExists then m.netplan.files else [];
      var checks := Checks(files, m.sh.answer, |old(m.sh.trace)|, modes);
      && m.sh.trace == old(m.sh.trace) + InfoCmds(files)
      && v == Validation(checks, AllValid(checks), |checks|, ValidCount(checks))
  {
    var files := if m.netplan.dirExists then m.netplan.files else [];
    ghost var t := m.sh.trace;
    ghost var k := |t|;
    var checks: seq<Check> := [];
    var i := 0;
    while i < |files|
      invariant 0 <= i <= |files|
      invariant m.sh.trace == t + InfoCmds(files[..i])
      invariant checks == Checks(files[..i], m.sh.answer, k, modes)
    {
      var f := files[i];
      ChecksSnoc(files, i, m.sh.answer, k, modes);
      ghost var t1 := m.sh.trace;
      var valid := m.ValidateNetplanConfig(f.path, f.entry);
      ConcatAssoc(t, InfoCmds(files[..i]), [NetplanInfo(f.path)]);
      checks := checks + [Check(f.path, valid, PermissionWarning(modes(f.path)))];
      i := i + 1;
    }
    assert files[..i] == files;
    v := Validation(checks, AllValid(checks), |checks|, ValidCount(checks));
  }
}
