/** The read-only probes of `NetworkManager`: the default gateway from
    `ip route show dev <name>`, the nameserver list of `/etc/resolv.conf`,
    DHCP detection in `/etc/network/interfaces`, and the inventory built from
    the records of `ip -j addr show`. */
module Parsers {
  import opened Text
  import opened Names
  import opened Address
  import opened Shell
  import opened Models

  // ---- Gateway ----

  /** What one line of the route listing offers: the token after the first
      `via`, on a line that contains `default` somewhere. */
  function LineGateway(line: string): Option<string> {
    if !Contains(line, "default") then None
    else
      var parts := Words(line);
      if "via" !in parts then None
      else
        var k := IndexOf(parts, "via");
        if k + 1 < |parts| then Some(parts[k + 1]) else None
  }

  /** `_get_gateway_for_interface` over the listing's lines: the offer of
      the first line that makes one. */
  function Gateway(lines: seq<string>): Option<string> {
    if lines == [] then None
    else
      match LineGateway(lines[0])
      case Some(g) => Some(g)
      case None => Gateway(lines[1..])
  }

  /** The gateway is the offer of the first offering line; there is none
      exactly when no line offers one. */
  lemma {:induction false} GatewayIsFirstOffer(lines: seq<string>)
    ensures Gateway(lines).None? <==> forall i :: 0 <= i < |lines| ==> LineGateway(lines[i]).None?
    ensures Gateway(lines).Some? ==>
      exists i :: 0 <= i < |lines| && LineGateway(lines[i]) == Gateway(lines) &&
        forall j :: 0 <= j < i ==> LineGateway(lines[j]).None?
  {
    if lines != [] {
      GatewayIsFirstOffer(lines[1..]);
      if LineGateway(lines[0]).None? {
        assert forall i :: 1 <= i < |lines| ==> lines[i] == lines[1..][i - 1];
        if Gateway(lines).Some? {
          var i :| 0 <= i < |lines[1..]| && LineGateway(lines[1..][i]) == Gateway(lines[1..]) &&
            forall j :: 0 <= j < i ==> LineGateway(lines[1..][j]).None?;
          assert LineGateway(lines[i + 1]) == Gateway(lines);
          assert forall j :: 0 <= j < i + 1 ==> LineGateway(lines[j]).None? by {
            forall j | 0 <= j < i + 1 ensures LineGateway(lines[j]).None? {
              if j > 0 {
                assert lines[j] == lines[1..][j - 1];
              }
            }
          }
        }
      } else {
        assert LineGateway(lines[0]) == Gateway(lines);
      }
    }
  }

  /** A route line of the usual shape, `default via <g> ...`, offers `g`. */
  lemma DefaultViaOffers(d: string, v: string, g: string, rest: string)
    requires d == "default" && v == "via" && IsWord(g)
    ensures LineGateway(d + " " + (v + " " + (g + " " + rest))) == Some(g)
  {
    var line := d + " " + (v + " " + (g + " " + rest));
    StartsWithContains(line, d);
    var parts := WordsOfThree(d, v, g, rest);
    IndexOfFirst(parts, v, 1);
  }

  lemma StartsWithContains(s: string, t: string)
    requires StartsWith(s, t)
    ensures Contains(s, t)
  {
    ContainsAt(s, t, 0);
  }

  lemma WordsOfThree(a: string, b: string, c: string, rest: string) returns (ws: seq<string>)
    requires IsWord(a) && IsWord(b) && IsWord(c)
    ensures ws == Words(a + " " + (b + " " + (c + " " + rest)))
    ensures |ws| >= 3 && ws[0] == a && ws[1] == b && ws[2] == c
  {
    WordsCons(c, rest);
    var w3 := Words(c + " " + rest);
    WordsCons(b, c + " " + rest);
    var w2 := Words(b + " " + (c + " " + rest));
    assert w2 == [b] + w3;
    WordsCons(a, b + " " + (c + " " + rest));
    ws := [a] + w2;
  }

  /** What the engine reads from a command: how it ended and its output. */
  datatype Reply = Reply(outcome: Outcome, out: string)

  /** `_get_gateway_for_interface`: a failing listing means no gateway, but
      a missing `ip` executable escapes, since only CalledProcessError is
      caught. */
  function GatewayFor(route: Reply): (r: Result<Option<string>>)
    ensures r.Raised? <==> route.outcome == Missing
  {
    match route.outcome
    case Ok => Value(Gateway(Lines(route.out)))
    case Fail => Value(None)
    case Missing => Raised(FileNotFound)
  }

  // ---- Nameservers ----

  /** The nameserver list of the lines of `/etc/resolv.conf`: the second
      word of every line whose stripped text starts with `nameserver`. A
      line with no second word raises IndexError, which ends the scan: the
      servers found so far are the answer. */
  function Nameservers(lines: seq<string>): seq<string> {
    if lines == [] then []
    else
      var t := Strip(lines[0]);
      if !StartsWith(t, "nameserver") then Nameservers(lines[1..])
      else
        var ws := Words(t);
        if |ws| < 2 then [] else [ws[1]] + Nameservers(lines[1..])
  }

  /** `_get_dns_servers`: `None` is a missing `/etc/resolv.conf`. */
  function DnsServers(resolv: Option<seq<string>>): seq<string> {
    if resolv.None? then [] else Nameservers(resolv.value)
  }

  /** Every server read is a single word. */
  lemma {:induction false} NameserversAreWords(lines: seq<string>)
    ensures forall i :: 0 <= i < |Nameservers(lines)| ==> IsWord(Nameservers(lines)[i])
  {
    if lines != [] {
      NameserversAreWords(lines[1..]);
    }
  }

  /** A line that says `nameserver` and nothing more hides every later
      server. */
  lemma {:induction false} BareNameserverStops(before: seq<string>, line: string, after: seq<string>)
    requires StartsWith(Strip(line), "nameserver") && |Words(Strip(line))| < 2
    ensures Nameservers(before + [line] + after) == Nameservers(before)
  {
    if before == [] {
      assert before + [line] + after == [line] + after;
    } else {
      assert (before + [line] + after)[1..] == before[1..] + [line] + after;
      BareNameserverStops(before[1..], line, after);
    }
  }

  /** Lines that are not nameserver lines contribute nothing. */
  lemma {:induction false} NameserversSkipsOthers(kept: seq<string>, rest: seq<string>)
    requires forall i :: 0 <= i < |kept| ==> !StartsWith(Strip(kept[i]), "nameserver")
    ensures Nameservers(kept + rest) == Nameservers(rest)
  {
    if kept != [] {
      assert (kept + rest)[0] == kept[0];
      assert (kept + rest)[1..] == kept[1..] + rest;
      assert forall i :: 0 <= i < |kept| - 1 ==> kept[1..][i] == kept[i + 1];
      NameserversSkipsOthers(kept[1..], rest);
      assert !StartsWith(Strip(kept[0]), "nameserver");
    } else {
      assert kept + rest == rest;
    }
  }

  // ---- DHCP in /etc/network/interfaces ----

  /** `\s+` at the start of `s`: what follows the run, if there is one. */
  function AfterSpaces(s: string): Option<string> {
    if s != [] && IsSpace(s[0]) then Some(LStrip(s)) else None
  }

  /** The search pattern `iface\s+<name>\s+inet\s+dhcp` matched at the start
      of `s`. Each `\s+` is followed by a literal that starts with a
      non-space, so the greedy run is the only possible one. */
  predicate DhcpAt(s: string, name: string) {
    StartsWith(s, "iface") &&
    match AfterSpaces(s[5..])
    case None => false
    case Some(t1) =>
      StartsWith(t1, name) &&
      match AfterSpaces(t1[|name|..])
      case None => false
      case Some(t2) =>
        StartsWith(t2, "inet") &&
        match AfterSpaces(t2[4..])
        case None => false
        case Some(t3) => StartsWith(t3, "dhcp")
  }

  /** `re.search`: a match at some position. */
  predicate SearchDhcp(content: string, name: string)
    decreases |content|
  {
    DhcpAt(content, name) || (content != [] && SearchDhcp(content[1..], name))
  }

  /** `_check_dhcp_interfaces`: `None` is a file that cannot be read. */
  function CheckDhcpInterfaces(content: Option<string>, name: string): bool {
    content.Some? && SearchDhcp(content.value, name)
  }

  /** A non-empty run of whitespace. */
  ghost predicate Blank(w: string) {
    w != [] && forall i :: 0 <= i < |w| ==> IsSpace(w[i])
  }

  /** The pattern, read as a regular expression: the literal words with a
      non-empty blank run between each, then anything. */
  ghost predicate DhcpRegexAt(s: string, name: string) {
    exists w1, w2, w3, rest :: Blank(w1) && Blank(w2) && Blank(w3) &&
      s == DhcpText(w1, name, w2, w3, rest)
  }

  /** `iface<w1><name><w2>inet<w3>dhcp<rest>`. */
  function DhcpText(w1: string, name: string, w2: string, w3: string, rest: string): string {
    "iface" + (w1 + (name + (w2 + ("inet" + (w3 + ("dhcp" + rest))))))
  }

  /** Stripping a blank run off text that starts with a non-space. */
  lemma LStripBlank(w: string, r: string)
    requires Blank(w) && (r == [] || !IsSpace(r[0]))
    ensures AfterSpaces(w + r) == Some(r)
    decreases |w|
  {
    if |w| > 1 {
      assert (w + r)[1..] == w[1..] + r;
      assert Blank(w[1..]) by {
        forall i | 0 <= i < |w| - 1 ensures IsSpace(w[1..][i]) {
          assert w[1..][i] == w[i + 1];
        }
      }
      LStripBlank(w[1..], r);
    } else {
      assert (w + r)[1..] == r;
      assert LStrip(r) == r;
    }
  }

  /** What `AfterSpaces` strips is a blank run. */
  lemma AfterSpacesSplit(s: string) returns (w: string)
    requires AfterSpaces(s).Some?
    ensures Blank(w) && s == w + AfterSpaces(s).value
  {
    LStripSpec(s);
    var t := LStrip(s);
    w := s[..|s| - |t|];
    assert s == w + t;
  }

  lemma StartsWithSplit(s: string, p: string)
    requires StartsWith(s, p)
    ensures s == p + s[|p|..]
  {
  }

  /** For a name that starts with a non-space, the matcher agrees with the
      regular-expression reading, in both directions. */
  lemma DhcpAtIff(s: string, name: string)
    requires name != [] && !IsSpace(name[0])
    ensures DhcpAt(s, name) <==> DhcpRegexAt(s, name)
  {
    if DhcpAt(s, name) {
      DhcpAtWitness(s, name);
    }
    if DhcpRegexAt(s, name) {
      var w1, w2, w3, rest :| Blank(w1) && Blank(w2) && Blank(w3) &&
        s == DhcpText(w1, name, w2, w3, rest);
      DhcpRegexMatches(name, w1, w2, w3, rest);
    }
  }

  lemma DhcpAtWitness(s: string, name: string)
    requires DhcpAt(s, name)
    ensures DhcpRegexAt(s, name)
  {
    var s1 := s[5..];
    var w1 := AfterSpacesSplit(s1);
    var t1 := AfterSpaces(s1).value;
    StartsWithSplit(t1, name);
    var u1 := t1[|name|..];
    var w2 := AfterSpacesSplit(u1);
    var t2 := AfterSpaces(u1).value;
    StartsWithSplit(t2, "inet");
    var u2 := t2[4..];
    var w3 := AfterSpacesSplit(u2);
    var t3 := AfterSpaces(u2).value;
    StartsWithSplit(t3, "dhcp");
    StartsWithSplit(s, "iface");
    assert s == DhcpText(w1, name, w2, w3, t3[4..]);
  }

  lemma DhcpRegexMatches(name: string, w1: string, w2: string, w3: string, rest: string)
    requires name != [] && !IsSpace(name[0])
    requires Blank(w1) && Blank(w2) && Blank(w3)
    ensures DhcpAt(DhcpText(w1, name, w2, w3, rest), name)
  {
    var t3 := "dhcp" + rest;
    var t2 := "inet" + (w3 + t3);
    var t1 := name + (w2 + t2);
    var s := "iface" + (w1 + t1);
    assert s == DhcpText(w1, name, w2, w3, rest);
    assert s[..5] == "iface" && s[5..] == w1 + t1;
    LStripBlank(w1, t1);
    assert t1[..|name|] == name && t1[|name|..] == w2 + t2;
    LStripBlank(w2, t2);
    assert t2[..4] == "inet" && t2[4..] == w3 + t3;
    LStripBlank(w3, t3);
    assert t3[..4] == "dhcp";
  }

  /** `SearchDhcp` finds a match at any position. */
  lemma {:induction false} SearchFindsAt(content: string, name: string, i: nat)
    requires i <= |content| && DhcpAt(content[i..], name)
    ensures SearchDhcp(content, name)
    decreases i
  {
    if i > 0 {
      assert content[1..][i - 1..] == content[i..];
      SearchFindsAt(content[1..], name, i - 1);
    }
  }

  /** The search has no notion of lines or comments: a stanza behind `#`,
      or one for `inet dhcp6`, still counts as DHCP. */
  lemma StanzaAnywhereCounts(before: string, name: string, after: string, sp: string)
    requires name != [] && !IsSpace(name[0]) && sp == " "
    ensures SearchDhcp(before + DhcpText(sp, name, sp, sp, after), name)
  {
    var c := before + DhcpText(sp, name, sp, sp, after);
    assert c[|before|..] == DhcpText(sp, name, sp, sp, after);
    assert Blank(sp);
    DhcpRegexMatches(name, sp, sp, sp, after);
    SearchFindsAt(c, name, |before|);
  }

  // ---- Inventory ----

  /** One entry of `addr_info`; absent keys are `None`. */
  datatype AddrInfo = AddrInfo(family: Option<string>, local: Option<string>, prefixlen: Option<int>)

  /** One record of `ip -j addr show`; an absent `flags` or `addr_info` is
      the empty list the source defaults it to. */
  datatype IpRecord = IpRecord(ifname: string, flags: seq<string>, addrInfo: seq<AddrInfo>)

  predicate IsInet(a: AddrInfo) {
    a.family == Some("inet")
  }

  /** The first `inet` entry, where the address loop breaks. */
  function FirstInet(infos: seq<AddrInfo>): Option<AddrInfo> {
    if infos == [] then None
    else if IsInet(infos[0]) then Some(infos[0])
    else FirstInet(infos[1..])
  }

  lemma {:induction false} FirstInetIsFirst(infos: seq<AddrInfo>)
    ensures FirstInet(infos).None? <==> forall i :: 0 <= i < |infos| ==> !IsInet(infos[i])
    ensures FirstInet(infos).Some? ==>
      exists i :: 0 <= i < |infos| && infos[i] == FirstInet(infos).value && IsInet(infos[i]) &&
        forall j :: 0 <= j < i ==> !IsInet(infos[j])
  {
    if infos != [] && !IsInet(infos[0]) {
      FirstInetIsFirst(infos[1..]);
      assert forall i :: 1 <= i < |infos| ==> infos[i] == infos[1..][i - 1];
      if FirstInet(infos).Some? {
        var i :| 0 <= i < |infos[1..]| && infos[1..][i] == FirstInet(infos).value && IsInet(infos[1..][i]) &&
          forall j :: 0 <= j < i ==> !IsInet(infos[1..][j]);
        assert infos[i + 1] == FirstInet(infos).value;
        forall j | 0 <= j < i + 1 ensures !IsInet(infos[j]) {
          if j > 0 {
            assert infos[j] == infos[1..][j - 1];
          }
        }
      }
    } else if infos != [] {
      assert infos[0] == FirstInet(infos).value;
    }
  }

  /** The prefix length of an address entry, 24 when absent. */
  function PrefixOf(a: AddrInfo): int {
    if a.prefixlen.Some? then a.prefixlen.value else 24
  }

  /** One public record made into a `NetworkInterface`: address and netmask
      from its first `inet` entry (a prefix above 32 raises ValueError),
      then the gateway, the shared nameserver list and the DHCP flag. */
  function Describe(rec: IpRecord, route: Reply, resolv: Option<seq<string>>, dhcp: bool): Result<NetworkInterface> {
    var active := "UP" in rec.flags;
    var inet := FirstInet(rec.addrInfo);
    var addr: Result<(Option<string>, Option<string>)> :=
      if inet.None? then Value((None, None))
      else
        match PrefixToNetmask(PrefixOf(inet.value))
        case None => Raised(ValueError)
        case Some(m) => Value((inet.value.local, Some(m)));
    match addr
    case Raised(e) => Raised(e)
    case Value((ip, mask)) =>
      match GatewayFor(route)
      case Raised(e) => Raised(e)
      case Value(gw) => Value(NetworkInterface(rec.ifname, ip, mask, gw, DnsServers(resolv), dhcp, active))
  }

  /** The records `get_interfaces` keeps, in their order: exactly the
      records of public interfaces. */
  function PublicRecords(records: seq<IpRecord>): (r: seq<IpRecord>)
    ensures |r| <= |records|
    ensures forall x :: x in r <==> x in records && IsPublic(x.ifname)
  {
    if records == [] then []
    else if IsPublic(records[0].ifname) then [records[0]] + PublicRecords(records[1..])
    else PublicRecords(records[1..])
  }

  /** `sub` is `s` with some elements left out and the rest in order. */
  ghost predicate Subsequence<T>(sub: seq<T>, s: seq<T>)
    decreases |s|
  {
    if sub == [] then true
    else if s == [] then false
    else (sub[0] == s[0] && Subsequence(sub[1..], s[1..])) || Subsequence(sub, s[1..])
  }

  /** The kept records keep their input order, and every public record is
      kept. */
  lemma {:induction false} PublicRecordsInOrder(records: seq<IpRecord>)
    ensures Subsequence(PublicRecords(records), records)
    ensures (forall i :: 0 <= i < |records| ==> IsPublic(records[i].ifname)) ==> PublicRecords(records) == records
  {
    if records != [] {
      PublicRecordsInOrder(records[1..]);
      var r := PublicRecords(records);
      if IsPublic(records[0].ifname) {
        assert r[0] == records[0] && r[1..] == PublicRecords(records[1..]);
      }
      if forall i :: 0 <= i < |records| ==> IsPublic(records[i].ifname) {
        assert forall i :: 0 <= i < |records[1..]| ==> IsPublic(records[1..][i].ifname) by {
          forall i | 0 <= i < |records[1..]| ensures IsPublic(records[1..][i].ifname) {
            assert records[1..][i] == records[i + 1];
          }
        }
        assert IsPublic(records[0].ifname);
      }
    }
  }

  /** `Describe` with the record's own route listing and DHCP flag. */
  function DescribeIn(rec: IpRecord, routes: string -> Reply, resolv: Option<seq<string>>,
                      dhcp: string -> bool): Result<NetworkInterface>
  {
    Describe(rec, routes(rec.ifname), resolv, dhcp(rec.ifname))
  }

  /** Every public record described in order; the first record that raises
      ends the scan. */
  function Inventory(records: seq<IpRecord>, routes: string -> Reply, resolv: Option<seq<string>>,
                     dhcp: string -> bool): Result<seq<NetworkInterface>>
  {
    if records == [] then Value([])
    else if !IsPublic(records[0].ifname) then Inventory(records[1..], routes, resolv, dhcp)
    else
      match DescribeIn(records[0], routes, resolv, dhcp)
      case Raised(e) => Raised(e)
      case Value(x) =>
        match Inventory(records[1..], routes, resolv, dhcp)
        case Raised(e) => Raised(e)
        case Value(xs) => Value([x] + xs)
  }

  /** `get_interfaces`: the records of `ip -j addr show` (its output, already
      decoded) turned into interfaces. A failing listing becomes HTTP 500; a
      missing `ip` executable escapes. The per-name route listing, the
      resolver file and the DHCP check are inputs. */
  method GetInterfaces(listing: Outcome, records: seq<IpRecord>, routes: string -> Reply,
                       resolv: Option<seq<string>>, dhcp: string -> bool)
    returns (r: Result<seq<NetworkInterface>>)
    ensures listing == Fail ==> r == Raised(Http(500))
    ensures listing == Missing ==> r == Raised(FileNotFound)
    ensures listing == Ok ==> r == Inventory(records, routes, resolv, dhcp)
  {
    if listing == Fail {
      return Raised(Http(500));
    } else if listing == Missing {
      return Raised(FileNotFound);
    }
    var interfaces: seq<NetworkInterface> := [];
    var i := 0;
    assert records[i..] == records;
    PrependEmpty(Inventory(records, routes, resolv, dhcp));
    while i < |records|
      invariant 0 <= i <= |records|
      invariant Inventory(records, routes, resolv, dhcp) ==
        Prepend(interfaces, Inventory(records[i..], routes, resolv, dhcp))
    {
      var rec := records[i];
      assert records[i..][0] == rec && records[i..][1..] == records[i + 1..];
      if IsPublic(rec.ifname) {
        var d := DescribeIn(rec, routes, resolv, dhcp);
        if d.Raised? {
          return Raised(d.exc);
        }
        PrependAssoc(interfaces, d.value, Inventory(records[i + 1..], routes, resolv, dhcp));
        interfaces := interfaces + [d.value];
      }
      i := i + 1;
    }
    assert records[i..] == [];
    assert interfaces + [] == interfaces;
    r := Value(interfaces);
  }

  /** `xs` in front of a result's list; an exception passes through. */
  function Prepend<T>(xs: seq<T>, r: Result<seq<T>>): Result<seq<T>> {
    match r
    case Raised(e) => Raised(e)
    case Value(ys) => Value(xs + ys)
  }

  lemma PrependEmpty<T>(r: Result<seq<T>>)
    ensures Prepend([], r) == r
  {
    if r.Value? {
      assert [] + r.value == r.value;
    }
  }

  lemma PrependAssoc<T>(xs: seq<T>, x: T, r: Result<seq<T>>)
    ensures Prepend(xs, Prepend([x], r)) == Prepend(xs + [x], r)
  {
    if r.Value? {
      assert xs + ([x] + r.value) == xs + [x] + r.value;
    }
  }

  /** The inventory raises exactly when describing one of the public
      records raises. */
  lemma InventoryRaisesIff(records: seq<IpRecord>, routes: string -> Reply,
                           resolv: Option<seq<string>>, dhcp: string -> bool)
    ensures Inventory(records, routes, resolv, dhcp).Raised? <==>
      exists i :: 0 <= i < |PublicRecords(records)| && DescribeIn(PublicRecords(records)[i], routes, resolv, dhcp).Raised?
  {
    InventoryRaisesAny(records, routes, resolv, dhcp);
    AnyRaisesIff(PublicRecords(records), routes, resolv, dhcp);
  }

  /** Some record of `rs` raises when described. */
  predicate AnyRaises(rs: seq<IpRecord>, routes: string -> Reply, resolv: Option<seq<string>>, dhcp: string -> bool) {
    rs != [] && (DescribeIn(rs[0], routes, resolv, dhcp).Raised? || AnyRaises(rs[1..], routes, resolv, dhcp))
  }

  lemma {:induction false} InventoryRaisesAny(records: seq<IpRecord>, routes: string -> Reply,
                                              resolv: Option<seq<string>>, dhcp: string -> bool)
    ensures Inventory(records, routes, resolv, dhcp).Raised? <==> AnyRaises(PublicRecords(records), routes, resolv, dhcp)
  {
    if records != [] {
      InventoryRaisesAny(records[1..], routes, resolv, dhcp);
      if IsPublic(records[0].ifname) {
        var pub := PublicRecords(records);
        assert pub[0] == records[0] && pub[1..] == PublicRecords(records[1..]);
      }
    }
  }

  lemma {:induction false} AnyRaisesIff(rs: seq<IpRecord>, routes: string -> Reply,
                                        resolv: Option<seq<string>>, dhcp: string -> bool)
    ensures AnyRaises(rs, routes, resolv, dhcp) <==>
      exists i :: 0 <= i < |rs| && DescribeIn(rs[i], routes, resolv, dhcp).Raised?
  {
    if rs != [] {
      AnyRaisesIff(rs[1..], routes, resolv, dhcp);
      if AnyRaises(rs, routes, resolv, dhcp) && !DescribeIn(rs[0], routes, resolv, dhcp).Raised? {
        var i :| 0 <= i < |rs[1..]| && DescribeIn(rs[1..][i], routes, resolv, dhcp).Raised?;
        assert rs[i + 1] == rs[1..][i];
      }
      if !AnyRaises(rs, routes, resolv, dhcp) {
        forall i | 0 <= i < |rs| ensures !DescribeIn(rs[i], routes, resolv, dhcp).Raised? {
          if i > 0 {
            assert rs[i] == rs[1..][i - 1];
          }
        }
      }
    }
  }

  /** A successful inventory describes exactly the public records, in their
      order. */
  lemma {:induction false} InventoryDescribesPublic(records: seq<IpRecord>, routes: string -> Reply,
                                                    resolv: Option<seq<string>>, dhcp: string -> bool)
    requires Inventory(records, routes, resolv, dhcp).Value?
    ensures |Inventory(records, routes, resolv, dhcp).value| == |PublicRecords(records)|
    ensures forall i :: 0 <= i < |PublicRecords(records)| ==>
      DescribeIn(PublicRecords(records)[i], routes, resolv, dhcp) == Value(Inventory(records, routes, resolv, dhcp).value[i])
  {
    if records != [] {
      InventoryDescribesPublic(records[1..], routes, resolv, dhcp);
      var pub := PublicRecords(records);
      var tail := PublicRecords(records[1..]);
      if IsPublic(records[0].ifname) {
        var r := Inventory(records, routes, resolv, dhcp).value;
        var rt := Inventory(records[1..], routes, resolv, dhcp).value;
        assert pub == [records[0]] + tail;
        assert r == [r[0]] + rt;
        forall i | 0 <= i < |pub| ensures DescribeIn(pub[i], routes, resolv, dhcp) == Value(r[i]) {
          if i > 0 {
            assert pub[i] == tail[i - 1] && r[i] == rt[i - 1];
          }
        }
      }
    }
  }

  /** What `Describe` promises of an interface it builds: the record's name,
      `is_active` iff `UP` is among the flags, the nameservers of the
      resolver file, the DHCP flag, and address and netmask from the first
      `inet` entry or neither. */
  lemma DescribeFields(rec: IpRecord, route: Reply, resolv: Option<seq<string>>, dhcp: bool)
    ensures var d := Describe(rec, route, resolv, dhcp);
      && (d.Raised? <==>
            (route.outcome == Missing || (FirstInet(rec.addrInfo).Some? && PrefixOf(FirstInet(rec.addrInfo).value) > 32)))
      && (d.Value? ==>
            && d.value.name == rec.ifname
            && (d.value.isActive <==> "UP" in rec.flags)
            && d.value.dnsServers == DnsServers(resolv)
            && d.value.isDhcp == dhcp
            && (route.outcome == Ok ==> d.value.gateway == Gateway(Lines(route.out)))
            && (route.outcome == Fail ==> d.value.gateway == None)
            && (FirstInet(rec.addrInfo).None? ==> d.value.ipAddress == None && d.value.netmask == None)
            && (FirstInet(rec.addrInfo).Some? ==>
                  d.value.ipAddress == FirstInet(rec.addrInfo).value.local &&
                  d.value.netmask == PrefixToNetmask(PrefixOf(FirstInet(rec.addrInfo).value))))
  {
  }

  /** An `inet` entry without `prefixlen` gets the netmask of prefix 24. */
  lemma DefaultPrefixIs24(rec: IpRecord, route: Reply, resolv: Option<seq<string>>, dhcp: bool, mask: string)
    requires FirstInet(rec.addrInfo).Some? && FirstInet(rec.addrInfo).value.prefixlen.None?
    requires route.outcome != Missing && mask == "255.255.255.0"
    ensures Describe(rec, route, resolv, dhcp).Value?
    ensures Describe(rec, route, resolv, dhcp).value.netmask == Some(mask)
  {
    NetmaskExample(24, mask);
  }
}
