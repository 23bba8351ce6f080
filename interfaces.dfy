/** The rewrite of `/etc/network/interfaces` by `_configure_interfaces`:
    the old stanza of the interface is cut out by a regular-expression
    substitution and the new stanza is appended. The substitution stops at
    the first header of any kind, so the `iface` lines of the old stanza stay
    in place. */
module Interfaces {
  import opened Text
  import opened Models
  import opened Parsers

  /** `<kw>\s+` at the start of `s`: the text after the blank run. */
  function AfterKeyword(s: string, kw: string): (r: Option<string>)
    ensures r.Some? ==> |r.value| + |kw| < |s|
  {
    if StartsWith(s, kw) then AfterSpaces(s[|kw|..]) else None
  }

  /** `\w` right after the blank run. */
  predicate WordAfter(t: Option<string>) {
    t.Some? && t.value != [] && IsWordChar(t.value[0])
  }

  /** The lookahead `auto\s+\w+|iface\s+\w+`: a header of any stanza. */
  predicate HeaderAt(s: string) {
    WordAfter(AfterKeyword(s, "auto")) || WordAfter(AfterKeyword(s, "iface"))
  }

  /** The lazy `.*?` under DOTALL: the length up to the first position where
      the lookahead holds, or up to the end of the text (`\Z`). */
  function StanzaEnd(t: string): (k: nat)
    ensures k <= |t|
  {
    if t == [] || HeaderAt(t) then 0 else 1 + StanzaEnd(t[1..])
  }

  /** `auto\s+<name>` at the start of `s`: the text after the name. The name
      is matched as it stands, with no word boundary after it. */
  function AutoHeader(s: string, name: string): (r: Option<string>)
    ensures r.Some? ==> |r.value| < |s|
  {
    match AfterKeyword(s, "auto")
    case Some(t) => if StartsWith(t, name) then Some(t[|name|..]) else None
    case None => None
  }

  /** `re.sub(pattern, "", content, flags=re.DOTALL)` with the pattern of
      `_configure_interfaces`: the text is scanned left to right, and at each
      match the header and the lazily matched text after it are dropped. */
  function RemoveStanzas(s: string, name: string): string
    decreases |s|
  {
    match AutoHeader(s, name)
    case Some(t) => RemoveStanzas(t[StanzaEnd(t)..], name)
    case None => if s == [] then [] else [s[0]] + RemoveStanzas(s[1..], name)
  }

  /** The stanza `_configure_interfaces` appends. */
  function Stanza(name: string, cfg: NetworkConfig): string {
    "\nauto " + name + "\n" + IfaceLines(name, cfg)
  }

  function IfaceLines(name: string, cfg: NetworkConfig): string {
    if cfg.isDhcp then "iface " + name + " inet dhcp\n"
    else "iface " + name + " inet static\n" + StaticLines(cfg)
  }

  /** The option lines of a static stanza; the servers are joined by a space. */
  function StaticLines(cfg: NetworkConfig): string {
    ("    address " + cfg.ipAddress + "\n") +
    ("    netmask " + cfg.netmask + "\n") +
    (if HasGateway(cfg) then "    gateway " + cfg.gateway.value + "\n" else "") +
    (if HasDns(cfg) then "    dns-nameservers " + Join(cfg.dnsServers.value, " ") + "\n" else "")
  }

  /** The stanza as the lines it consists of: a blank line, the `auto`
      line, then the dhcp line, or the static line with its `address` and
      `netmask` lines, a `gateway` line when a gateway is given and a
      `dns-nameservers` line when the server list is not empty. */
  function StanzaLines(name: string, cfg: NetworkConfig): seq<string> {
    ["", "auto " + name] + IfaceLineList(name, cfg)
  }

  function IfaceLineList(name: string, cfg: NetworkConfig): seq<string> {
    if cfg.isDhcp then ["iface " + name + " inet dhcp"]
    else ["iface " + name + " inet static"] + OptionLines(cfg)
  }

  function OptionLines(cfg: NetworkConfig): seq<string> {
    ["    address " + cfg.ipAddress, "    netmask " + cfg.netmask] + GatewayLines(cfg) + DnsLines(cfg)
  }

  function GatewayLines(cfg: NetworkConfig): seq<string> {
    if HasGateway(cfg) then ["    gateway " + cfg.gateway.value] else []
  }

  function DnsLines(cfg: NetworkConfig): seq<string> {
    if HasDns(cfg) then ["    dns-nameservers " + Join(cfg.dnsServers.value, " ")] else []
  }

  /** The old content, or `""` when the file does not exist. */
  function OldContent(existing: Option<string>): string {
    if existing.Some? then existing.value else ""
  }

  /** The new file: what the substitution left of the old one, then the
      new stanza. */
  function InterfacesText(existing: Option<string>, name: string, cfg: NetworkConfig): string {
    RemoveStanzas(OldContent(existing), name) + Stanza(name, cfg)
  }

  // ---- lemmas ----

  lemma AfterKeywordOf(kw: string, w: string, r: string)
    requires Blank(w) && (r == [] || !IsSpace(r[0]))
    ensures AfterKeyword(kw + w + r, kw) == Some(r)
  {
    assert (kw + w + r)[..|kw|] == kw;
    assert (kw + w + r)[|kw|..] == w + r;
    LStripBlank(w, r);
  }

  /** A text ending in a line break that holds no `w` cannot start a `w`
      that runs on into what follows. */
  lemma NoWordStart(x: string, rest: string, w: string)
    requires x != [] && x[|x| - 1] == '\n' && !Contains(x, w) && '\n' !in w
    ensures !StartsWith(x + rest, w)
  {
    if |w| <= |x| {
      assert x[..|w|] == (x + rest)[..|w|];
    } else {
      assert (x + rest)[|x| - 1] == '\n';
    }
  }

  lemma ContainsTail(x: string, w: string)
    requires x != [] && !Contains(x, w)
    ensures !Contains(x[1..], w)
  {
  }

  /** The lazy match runs over a header-free line to what follows it. */
  lemma {:induction false} StanzaEndSkips(x: string, rest: string)
    requires x != [] && x[|x| - 1] == '\n'
    requires !Contains(x, "auto") && !Contains(x, "iface")
    ensures StanzaEnd(x + rest) == |x| + StanzaEnd(rest)
    decreases |x|
  {
    NoWordStart(x, rest, "auto");
    NoWordStart(x, rest, "iface");
    assert !HeaderAt(x + rest);
    assert (x + rest)[1..] == x[1..] + rest;
    if |x| > 1 {
      ContainsTail(x, "auto");
      ContainsTail(x, "iface");
      StanzaEndSkips(x[1..], rest);
    } else {
      assert x[1..] + rest == rest;
    }
  }

  /** Text with no `auto` in it passes the substitution unchanged. */
  lemma {:induction false} RemoveStanzasNoAuto(s: string, name: string)
    requires !Contains(s, "auto")
    ensures RemoveStanzas(s, name) == s
    decreases |s|
  {
    assert !StartsWith(s, "auto");
    if s != [] {
      ContainsTail(s, "auto");
      RemoveStanzasNoAuto(s[1..], name);
    }
  }

  /** A match ends at the next header of ANY kind, `iface` included, and
      the name needs no word boundary: the substitution drops
      the line `auto <name><more>` and nothing after it when the next line is
      a header. With `more == ""` and an `iface <name> ...` line next, the
      old `iface` stanza of the interface survives; with `more == "0"` the
      `auto eth10` line goes when `eth1` is configured. */
  lemma AutoLineOnly(name: string, more: string, rest: string)
    requires name != [] && !IsSpace(name[0])
    requires !Contains(more + "\n", "auto") && !Contains(more + "\n", "iface")
    requires rest == [] || HeaderAt(rest)
    ensures RemoveStanzas("auto " + name + more + "\n" + rest, name) == RemoveStanzas(rest, name)
  {
    var x := more + "\n";
    assert "auto " + name + more + "\n" + rest == "auto " + name + (x + rest);
    AutoHeaderOf(name, x + rest);
    StanzaEndSkips(x, rest);
    assert (x + rest)[|x|..] == rest;
  }

  /** `auto <name>` at the front matches, leaving what follows the name. */
  lemma AutoHeaderOf(name: string, t: string)
    requires name != [] && !IsSpace(name[0])
    ensures AutoHeader("auto " + name + t, name) == Some(t)
  {
    var s := "auto " + name + t;
    assert s == "auto" + " " + (name + t);
    AfterKeywordOf("auto", " ", name + t);
    assert (name + t)[..|name|] == name;
    assert (name + t)[|name|..] == t;
  }

  /** `iface <name> ...` is a header of the lookahead. */
  lemma IfaceLineIsHeader(name: string, tail: string, body: string)
    requires name != [] && IsWordChar(name[0])
    requires body == "iface " + name + tail
    ensures HeaderAt(body)
  {
    assert !IsSpace(name[0]);
    assert body == "iface" + " " + (name + tail);
    AfterKeywordOf("iface", " ", name + tail);
  }

  /** A `iface <name> inet dhcp` line at the front is found by the search. */
  lemma DhcpLineCounts(name: string, body: string, after: string, sp: string)
    requires name != [] && !IsSpace(name[0]) && sp == " "
    requires body == "iface " + name + " inet dhcp\n"
    ensures SearchDhcp(body + after, name)
  {
    assert body + after == "" + DhcpText(sp, name, sp, sp, "\n" + after);
    StanzaAnywhereCounts("", name, "\n" + after, sp);
  }

  /** The consequence: an interface that was on DHCP and is reconfigured
      with a static address still reads as DHCP to
      `_check_dhcp_interfaces`, since its old `iface ... inet dhcp` line
      is kept ahead of the new stanza. */
  lemma StaleDhcpAfterStatic(name: string, cfg: NetworkConfig, body: string, content: string)
    requires name != [] && IsWordChar(name[0])
    requires body == "iface " + name + " inet dhcp\n" && !Contains(body, "auto")
    requires content == "auto " + name + "\n" + body
    ensures !cfg.isDhcp ==> CheckDhcpInterfaces(Some(InterfacesText(Some(content), name, cfg)), name)
  {
    IfaceLineIsHeader(name, " inet dhcp\n", body);
    assert content == "auto " + name + "" + "\n" + body;
    AutoLineOnly(name, "", body);
    RemoveStanzasNoAuto(body, name);
    DhcpLineCounts(name, body, Stanza(name, cfg), " ");
  }

  /** A DHCP configuration reads back as DHCP, whatever was kept of the old
      file. */
  lemma DhcpReadBack(kept: string, name: string, cfg: NetworkConfig)
    requires name != [] && !IsSpace(name[0]) && cfg.isDhcp
    ensures SearchDhcp(kept + Stanza(name, cfg), name)
  {
    var before := kept + "\nauto " + name + "\n";
    var body := "iface " + name + " inet dhcp\n";
    assert kept + Stanza(name, cfg) == before + body;
    DhcpLineCounts(name, body, "", " ");
    assert body + "" == body;
    SearchAfter(before, body, name);
  }

  /** A match in a suffix is a match of the whole text. */
  lemma {:induction false} SearchAfter(before: string, t: string, name: string)
    requires SearchDhcp(t, name)
    ensures SearchDhcp(before + t, name)
    decreases |before|
  {
    if before != [] {
      assert (before + t)[1..] == before[1..] + t;
      SearchAfter(before[1..], t, name);
    } else {
      assert before + t == t;
    }
  }

  /** `_check_dhcp_interfaces` after a DHCP configuration. */
  lemma InterfacesDhcpReadBack(existing: Option<string>, name: string, cfg: NetworkConfig)
    requires name != [] && !IsSpace(name[0]) && cfg.isDhcp
    ensures CheckDhcpInterfaces(Some(InterfacesText(existing, name, cfg)), name)
  {
    DhcpReadBack(RemoveStanzas(OldContent(existing), name), name, cfg);
  }

  /** The fields of a configuration hold no line break. */
  predicate OneLine(name: string, cfg: NetworkConfig) {
    '\n' !in name && '\n' !in cfg.ipAddress && '\n' !in cfg.netmask &&
    (cfg.gateway.Some? ==> '\n' !in cfg.gateway.value) &&
    (cfg.dnsServers.Some? ==> forall i :: 0 <= i < |cfg.dnsServers.value| ==> '\n' !in cfg.dnsServers.value[i])
  }

  lemma TerminatedPair(a: string, b: string)
    ensures Terminated([a, b]) == a + "\n" + b + "\n"
  {
    assert [a, b][1..] == [b];
    assert [b][1..] == [];
    assert Terminated([b]) == b + "\n";
  }

  lemma TerminatedOne(a: string)
    ensures Terminated([a]) == a + "\n"
  {
  }

  /** Two lines, then at most one and at most one more. */
  lemma TerminatedOptions(a: string, b: string, g: seq<string>, d: seq<string>)
    ensures Terminated([a, b] + g + d) == (a + "\n") + (b + "\n") + Terminated(g) + Terminated(d)
  {
    TerminatedPair(a, b);
    TerminatedAppend([a, b], g);
    TerminatedAppend([a, b] + g, d);
  }

  lemma OptionLinesTerminated(cfg: NetworkConfig)
    ensures StaticLines(cfg) == Terminated(OptionLines(cfg))
  {
    var g := GatewayLines(cfg);
    var d := DnsLines(cfg);
    TerminatedOptions("    address " + cfg.ipAddress, "    netmask " + cfg.netmask, g, d);
    assert Terminated(g) == if HasGateway(cfg) then g[0] + "\n" else "" by {
      if HasGateway(cfg) { TerminatedOne(g[0]); }
    }
    assert Terminated(d) == if HasDns(cfg) then d[0] + "\n" else "" by {
      if HasDns(cfg) { TerminatedOne(d[0]); }
    }
  }

  lemma IfaceLinesTerminated(name: string, cfg: NetworkConfig)
    ensures IfaceLines(name, cfg) == Terminated(IfaceLineList(name, cfg))
  {
    if cfg.isDhcp {
      TerminatedOne("iface " + name + " inet dhcp");
    } else {
      var l := "iface " + name + " inet static";
      TerminatedOne(l);
      OptionLinesTerminated(cfg);
      TerminatedAppend([l], OptionLines(cfg));
    }
  }

  lemma StanzaIsTerminated(name: string, cfg: NetworkConfig)
    ensures Stanza(name, cfg) == Terminated(StanzaLines(name, cfg))
  {
    var head := ["", "auto " + name];
    TerminatedPair("", "auto " + name);
    IfaceLinesTerminated(name, cfg);
    TerminatedAppend(head, IfaceLineList(name, cfg));
  }

  /** No line of `ls` holds a line break. */
  predicate NoBreaks(ls: seq<string>) {
    forall i :: 0 <= i < |ls| ==> '\n' !in ls[i]
  }

  lemma NoBreaksAppend(a: seq<string>, b: seq<string>)
    requires NoBreaks(a) && NoBreaks(b)
    ensures NoBreaks(a + b)
  {
    forall i | 0 <= i < |a + b| ensures '\n' !in (a + b)[i] {
      if i >= |a| {
        assert (a + b)[i] == b[i - |a|];
      }
    }
  }

  /** A prefix with no line break put before a field with none. */
  lemma Labelled(tag: string, field: string)
    requires '\n' !in tag && '\n' !in field
    ensures NoBreaks([tag + field])
  {
  }

  lemma OptionLinesOneLine(cfg: NetworkConfig, a: string, m: string, g: string, d: string)
    requires a == "    address " && m == "    netmask " && g == "    gateway " && d == "    dns-nameservers "
    requires OneLine("", cfg)
    ensures NoBreaks(OptionLines(cfg))
  {
    Labelled(a, cfg.ipAddress);
    Labelled(m, cfg.netmask);
    assert ["    address " + cfg.ipAddress, "    netmask " + cfg.netmask] == [a + cfg.ipAddress] + [m + cfg.netmask];
    NoBreaksAppend([a + cfg.ipAddress], [m + cfg.netmask]);
    if HasGateway(cfg) {
      Labelled(g, cfg.gateway.value);
    }
    if HasDns(cfg) {
      JoinNoBreak(cfg.dnsServers.value, " ");
      Labelled(d, Join(cfg.dnsServers.value, " "));
    }
    NoBreaksAppend([a + cfg.ipAddress, m + cfg.netmask], GatewayLines(cfg));
    NoBreaksAppend([a + cfg.ipAddress, m + cfg.netmask] + GatewayLines(cfg), DnsLines(cfg));
  }

  lemma HeadLinesOneLine(name: string, au: string, i: string, dh: string, st: string)
    requires au == "auto " && i == "iface " && dh == " inet dhcp" && st == " inet static"
    requires '\n' !in name
    ensures NoBreaks(["", au + name]) && NoBreaks([i + name + dh]) && NoBreaks([i + name + st])
  {
    assert '\n' !in i + name;
    Labelled(i + name, dh);
    Labelled(i + name, st);
  }

  lemma StanzaLinesOneLine(name: string, cfg: NetworkConfig)
    requires OneLine(name, cfg)
    ensures NoBreaks(StanzaLines(name, cfg))
  {
    HeadLinesOneLine(name, "auto ", "iface ", " inet dhcp", " inet static");
    if !cfg.isDhcp {
      OptionLinesOneLine(cfg, "    address ", "    netmask ", "    gateway ", "    dns-nameservers ");
      NoBreaksAppend(["iface " + name + " inet static"], OptionLines(cfg));
    }
    NoBreaksAppend(["", "auto " + name], IfaceLineList(name, cfg));
  }

  /** Read back line by line, the appended stanza is exactly `StanzaLines`. */
  lemma StanzaReadsAsLines(name: string, cfg: NetworkConfig)
    requires OneLine(name, cfg)
    ensures Lines(Stanza(name, cfg)) == StanzaLines(name, cfg)
  {
    StanzaIsTerminated(name, cfg);
    StanzaLinesOneLine(name, cfg);
    LinesOfTerminated(StanzaLines(name, cfg));
  }
}
