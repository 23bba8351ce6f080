/** The text rewrites of `/etc/resolv.conf`, `/etc/hosts` and
    `/etc/network/interfaces`. Each is a loop over the lines (or the text)
    of the old file, proved against a function that builds the new text. */
module Rewriters {
  import opened Text
  import opened Models
  import opened Parsers

  // ---- /etc/resolv.conf ----

  /** The test `_update_dns_servers` and `_get_dns_servers` share. */
  predicate IsNameserverLine(line: string) {
    StartsWith(Strip(line), "nameserver")
  }

  /** What the rewrite keeps of one old line: nothing for a nameserver
      line, otherwise the line right-stripped. */
  function KeepResolvLine(line: string): seq<string> {
    if IsNameserverLine(line) then [] else [RStrip(line)]
  }

  /** The lines kept from the old file. */
  function KeptResolv(lines: seq<string>): seq<string> {
    if lines == [] then [] else KeepResolvLine(lines[0]) + KeptResolv(lines[1..])
  }

  /** `f"nameserver {dns}"`. */
  function NameserverLine(d: string): string {
    "nameserver " + d
  }

  function NameserverLines(dns: seq<string>): seq<string> {
    if dns == [] then [] else [NameserverLine(dns[0])] + NameserverLines(dns[1..])
  }

  /** The new lines; `None` is a missing file. */
  function ResolvLines(existing: Option<string>, dns: seq<string>): seq<string> {
    (if existing.None? then [] else KeptResolv(Lines(existing.value))) + NameserverLines(dns)
  }

  function ResolvText(existing: Option<string>, dns: seq<string>): string {
    Join(ResolvLines(existing, dns), "\n") + "\n"
  }

  lemma KeptResolvSnoc(lines: seq<string>, i: nat)
    requires i < |lines|
    ensures KeptResolv(lines[..i + 1]) == KeptResolv(lines[..i]) + KeepResolvLine(lines[i])
  {
    assert lines[..i + 1] == lines[..i] + [lines[i]];
    KeptResolvAppend(lines[..i], [lines[i]]);
    assert KeptResolv([lines[i]]) == KeepResolvLine(lines[i]) by {
      assert [lines[i]][1..] == [];
    }
  }

  lemma NameserverLinesSnoc(dns: seq<string>, j: nat)
    requires j < |dns|
    ensures NameserverLines(dns[..j + 1]) == NameserverLines(dns[..j]) + [NameserverLine(dns[j])]
  {
    assert dns[..j + 1] == dns[..j] + [dns[j]];
    NameserverLinesAppend(dns[..j], [dns[j]]);
    assert NameserverLines([dns[j]]) == [NameserverLine(dns[j])] by {
      assert [dns[j]][1..] == [];
    }
  }

  lemma {:induction false} NameserverLinesAppend(a: seq<string>, b: seq<string>)
    ensures NameserverLines(a + b) == NameserverLines(a) + NameserverLines(b)
  {
    if a != [] {
      assert (a + b)[1..] == a[1..] + b;
      NameserverLinesAppend(a[1..], b);
    } else {
      assert a + b == b;
    }
  }

  /** The reading loop of `_update_dns_servers`. */
  method KeepOtherLines(lines: seq<string>) returns (content: seq<string>)
    ensures content == KeptResolv(lines)
  {
    content := [];
    var i := 0;
    while i < |lines|
      invariant 0 <= i <= |lines|
      invariant content == KeptResolv(lines[..i])
    {
      KeptResolvSnoc(lines, i);
      if !IsNameserverLine(lines[i]) {
        content := content + [RStrip(lines[i])];
      }
      i := i + 1;
    }
    assert lines[..i] == lines;
  }

  /** `_update_dns_servers`: builds the text it writes. */
  method UpdateDnsServers(existing: Option<string>, dns: seq<string>) returns (text: string)
    ensures text == ResolvText(existing, dns)
  {
    var content: seq<string> := [];
    if existing.Some? {
      content := KeepOtherLines(Lines(existing.value));
    }
    ghost var kept := content;
    var j := 0;
    while j < |dns|
      invariant 0 <= j <= |dns|
      invariant content == kept + NameserverLines(dns[..j])
    {
      NameserverLinesSnoc(dns, j);
      content := content + [NameserverLine(dns[j])];
      j := j + 1;
    }
    assert dns[..j] == dns;
    text := Join(content, "\n") + "\n";
  }

  /** A kept line has no line break, is not a nameserver line and is its
      own right strip, so a second rewrite keeps it unchanged. */
  lemma KeepResolvLineShape(l: string)
    requires '\n' !in l
    ensures forall k :: k in KeepResolvLine(l) ==> '\n' !in k && !IsNameserverLine(k)
    ensures KeptResolv(KeepResolvLine(l)) == KeepResolvLine(l)
  {
    if !IsNameserverLine(l) {
      var r := RStrip(l);
      RStripSpec(l);
      StripOfRStrip(l);
      assert RStrip(r) == r by {
        assert r != [] ==> !IsSpace(r[|r| - 1]);
      }
      assert '\n' !in r by {
        assert forall k :: 0 <= k < |r| ==> r[k] == l[k];
      }
      assert KeptResolv([r]) == [r] by {
        assert [r][1..] == [];
      }
    }
  }

  lemma {:induction false} KeptResolvShape(lines: seq<string>)
    requires forall i :: 0 <= i < |lines| ==> '\n' !in lines[i]
    ensures forall k :: k in KeptResolv(lines) ==> '\n' !in k && !IsNameserverLine(k)
  {
    if lines != [] {
      KeptResolvShape(lines[1..]);
      KeepResolvLineShape(lines[0]);
    }
  }

  /** Text that starts with a word `p` still starts with it once stripped. */
  lemma StartsWithStrip(p: string, rest: string)
    requires p != [] && !IsSpace(p[0]) && !IsSpace(p[|p| - 1])
    ensures StartsWith(Strip(p + rest), p)
  {
    var s := p + rest;
    var r := RStrip(s);
    RStripSpec(s);
    assert !IsSpace(s[|p| - 1]);
    assert |r| >= |p|;
    assert r[..|p|] == p;
  }

  /** A written nameserver line has no line break and is recognised as a
      nameserver line; when the server is a word, its second word is the
      server. */
  lemma NameserverLineShape(d: string, w: string)
    requires w == "nameserver"
    ensures NameserverLine(d) == w + " " + d
    ensures '\n' !in d ==> '\n' !in NameserverLine(d)
    ensures IsNameserverLine(NameserverLine(d))
    ensures IsWord(d) ==> Words(Strip(NameserverLine(d))) == [w, d]
  {
    var l := NameserverLine(d);
    assert l == w + (" " + d);
    StartsWithStrip(w, " " + d);
    assert '\n' !in w && '\n' !in " ";
    if IsWord(d) {
      assert IsWord(w) by {
        assert forall k :: 0 <= k < |w| ==> !IsSpace(w[k]);
      }
      StripTrimmed(l);
      WordsOfTwo(w, d);
    }
  }

  lemma {:induction false} NameserverLinesShape(dns: seq<string>)
    requires forall i :: 0 <= i < |dns| ==> '\n' !in dns[i]
    ensures forall k :: k in NameserverLines(dns) ==> '\n' !in k && IsNameserverLine(k)
  {
    if dns != [] {
      NameserverLinesShape(dns[1..]);
      NameserverLineShape(dns[0], "nameserver");
    }
  }

  /** Every written server is read back by the nameserver scan, in order,
      when each is a single word. */
  lemma {:induction false} NameserverLinesReadBack(dns: seq<string>)
    requires forall i :: 0 <= i < |dns| ==> IsWord(dns[i])
    ensures Nameservers(NameserverLines(dns)) == dns
  {
    if dns != [] {
      NameserverLinesReadBack(dns[1..]);
      NameserverLineShape(dns[0], "nameserver");
    }
  }

  /** Text with no line in it reads as one empty line. */
  lemma LinesOfBreak(s: string)
    requires s == "\n"
    ensures Lines(s) == [""]
  {
    IndexOfFirst(s, '\n', 0);
  }

  lemma WordsHaveNoBreak(dns: seq<string>)
    requires forall i :: 0 <= i < |dns| ==> IsWord(dns[i])
    ensures forall i :: 0 <= i < |dns| ==> '\n' !in dns[i]
  {
    forall i | 0 <= i < |dns| ensures '\n' !in dns[i] {
      assert forall k :: 0 <= k < |dns[i]| ==> !IsSpace(dns[i][k]);
    }
  }

  /** The new lines have no line break in them, the kept ones are not
      nameserver lines and the rest are. */
  lemma ResolvLinesShape(existing: Option<string>, dns: seq<string>) returns (kept: seq<string>)
    requires forall i :: 0 <= i < |dns| ==> '\n' !in dns[i]
    ensures kept == if existing.None? then [] else KeptResolv(Lines(existing.value))
    ensures ResolvLines(existing, dns) == kept + NameserverLines(dns)
    ensures forall k :: k in kept ==> !IsNameserverLine(k)
    ensures forall k :: k in ResolvLines(existing, dns) ==> '\n' !in k
  {
    kept := if existing.None? then [] else KeptResolv(Lines(existing.value));
    if existing.Some? {
      KeptResolvShape(Lines(existing.value));
    }
    NameserverLinesShape(dns);
  }

  /** Rewriting then reading: `_get_dns_servers` returns exactly the servers
      written, whatever the old file held, when each is a single word. */
  lemma ResolvReadBack(existing: Option<string>, dns: seq<string>)
    requires forall i :: 0 <= i < |dns| ==> IsWord(dns[i])
    ensures DnsServers(Some(Lines(ResolvText(existing, dns)))) == dns
  {
    WordsHaveNoBreak(dns);
    var kept := ResolvLinesShape(existing, dns);
    var all := ResolvLines(existing, dns);
    NameserverLinesReadBack(dns);
    if all == [] {
      LinesOfBreak(Join(all, "\n") + "\n");
    } else {
      LinesOfJoin(all);
      assert forall i :: 0 <= i < |kept| ==> !IsNameserverLine(kept[i]);
      NameserversSkipsOthers(kept, NameserverLines(dns));
    }
  }

  lemma {:induction false} KeptResolvAppend(a: seq<string>, b: seq<string>)
    ensures KeptResolv(a + b) == KeptResolv(a) + KeptResolv(b)
  {
    if a != [] {
      assert (a + b)[1..] == a[1..] + b;
      KeptResolvAppend(a[1..], b);
    } else {
      assert a + b == b;
    }
  }

  /** Kept lines are kept again, unchanged. */
  lemma {:induction false} KeptResolvTwice(lines: seq<string>)
    requires forall i :: 0 <= i < |lines| ==> '\n' !in lines[i]
    ensures KeptResolv(KeptResolv(lines)) == KeptResolv(lines)
  {
    if lines != [] {
      KeptResolvTwice(lines[1..]);
      KeepResolvLineShape(lines[0]);
      KeptResolvAppend(KeepResolvLine(lines[0]), KeptResolv(lines[1..]));
    }
  }

  /** Nameserver lines are all dropped. */
  lemma {:induction false} KeptResolvOfNameservers(dns: seq<string>)
    requires forall i :: 0 <= i < |dns| ==> '\n' !in dns[i]
    ensures KeptResolv(NameserverLines(dns)) == []
  {
    if dns != [] {
      NameserverLinesShape(dns);
      KeptResolvOfNameservers(dns[1..]);
    }
  }

  /** Writing the same servers twice gives the same file as writing them
      once. */
  lemma ResolvIdempotent(existing: Option<string>, dns: seq<string>)
    requires forall i :: 0 <= i < |dns| ==> '\n' !in dns[i]
    ensures ResolvText(Some(ResolvText(existing, dns)), dns) == ResolvText(existing, dns)
  {
    var kept := ResolvLinesShape(existing, dns);
    var all := ResolvLines(existing, dns);
    if all == [] {
      LinesOfBreak(Join(all, "\n") + "\n");
      assert KeptResolv([""]) == [""] by {
        assert !IsNameserverLine("");
        assert [""][1..] == [];
      }
    } else {
      LinesOfJoin(all);
      KeptResolvAppend(kept, NameserverLines(dns));
      KeptResolvOfNameservers(dns);
      if existing.Some? {
        KeptResolvTwice(Lines(existing.value));
      }
      assert KeptResolv(kept) == kept;
      assert KeptResolv(all) == kept by {
        assert kept + [] == kept;
      }
    }
  }

  /** No line of the old file other than a nameserver line is lost; each is
      kept right-stripped, in its order. */
  lemma {:induction false} ResolvKeepsOthers(lines: seq<string>, i: nat)
    requires i < |lines| && !IsNameserverLine(lines[i])
    ensures RStrip(lines[i]) in KeptResolv(lines)
  {
    if i > 0 {
      ResolvKeepsOthers(lines[1..], i - 1);
    }
  }

  // ---- /etc/hosts ----

  /** An entry for the host's own name: its stripped text starts with
      `127.0.1.1`. */
  predicate IsAliasLine(line: string) {
    StartsWith(Strip(line), "127.0.1.1")
  }

  /** The lines `_update_hosts_file` drops as old localhost entries. */
  predicate IsLocalhostEntry(line: string) {
    StartsWith(Strip(line), "127.0.0.1") && Contains(line, "localhost")
  }

  /** The test of the final check that a localhost entry exists. */
  predicate NamesLocalhost(line: string) {
    Contains(line, "127.0.0.1") && Contains(line, "localhost")
  }

  /** `f"127.0.1.1\t{new_hostname}"`. */
  function AliasLine(host: string): string {
    "127.0.1.1\t" + host
  }

  /** `"127.0.0.1\tlocalhost"`. */
  function LocalhostLine(): string {
    "127.0.0.1\tlocalhost"
  }

  /** What the scan makes of one old line: an alias entry is replaced by the
      new one; a localhost entry, and any other line that mentions
      `127.0.1.1`, is dropped; every other line is kept as it was. */
  function HostsLine(line: string, host: string): seq<string> {
    if IsAliasLine(line) then [AliasLine(host)]
    else if !IsLocalhostEntry(line) && !Contains(line, "127.0.1.1") then [line]
    else []
  }

  function HostsPass(lines: seq<string>, host: string): seq<string> {
    if lines == [] then [] else HostsLine(lines[0], host) + HostsPass(lines[1..], host)
  }

  /** `hostname_updated` after the scan. */
  predicate AnyAlias(lines: seq<string>) {
    lines != [] && (IsAliasLine(lines[0]) || AnyAlias(lines[1..]))
  }

  /** `localhost_exists`. */
  predicate AnyLocalhost(lines: seq<string>) {
    lines != [] && (NamesLocalhost(lines[0]) || AnyLocalhost(lines[1..]))
  }

  /** The lines written to `/etc/hosts`; `None` is a missing file. */
  function HostsLines(existing: Option<string>, host: string): seq<string> {
    if existing.None? then [LocalhostLine(), AliasLine(host)]
    else
      var ls := Lines(existing.value);
      var scanned := HostsPass(ls, host) + (if AnyAlias(ls) then [] else [AliasLine(host)]);
      if AnyLocalhost(scanned) then scanned else [LocalhostLine()] + scanned
  }

  function HostsText(existing: Option<string>, host: string): string {
    Join(HostsLines(existing, host), "\n") + "\n"
  }

  lemma {:induction false} HostsPassAppend(a: seq<string>, b: seq<string>, host: string)
    ensures HostsPass(a + b, host) == HostsPass(a, host) + HostsPass(b, host)
  {
    if a != [] {
      assert (a + b)[1..] == a[1..] + b;
      HostsPassAppend(a[1..], b, host);
    } else {
      assert a + b == b;
    }
  }

  lemma {:induction false} AnyAliasAppend(a: seq<string>, b: seq<string>)
    ensures AnyAlias(a + b) == (AnyAlias(a) || AnyAlias(b))
  {
    if a != [] {
      assert (a + b)[1..] == a[1..] + b;
      AnyAliasAppend(a[1..], b);
    } else {
      assert a + b == b;
    }
  }

  lemma {:induction false} AnyLocalhostAppend(a: seq<string>, b: seq<string>)
    ensures AnyLocalhost(a + b) == (AnyLocalhost(a) || AnyLocalhost(b))
  {
    if a != [] {
      assert (a + b)[1..] == a[1..] + b;
      AnyLocalhostAppend(a[1..], b);
    } else {
      assert a + b == b;
    }
  }

  lemma HostsSnoc(lines: seq<string>, i: nat, host: string)
    requires i < |lines|
    ensures HostsPass(lines[..i + 1], host) == HostsPass(lines[..i], host) + HostsLine(lines[i], host)
    ensures AnyAlias(lines[..i + 1]) == (AnyAlias(lines[..i]) || IsAliasLine(lines[i]))
  {
    assert lines[..i + 1] == lines[..i] + [lines[i]];
    HostsPassAppend(lines[..i], [lines[i]], host);
    AnyAliasAppend(lines[..i], [lines[i]]);
    assert [lines[i]][1..] == [];
  }

  lemma LocalhostSnoc(lines: seq<string>, k: nat)
    requires k < |lines|
    ensures AnyLocalhost(lines[..k + 1]) == (AnyLocalhost(lines[..k]) || NamesLocalhost(lines[k]))
  {
    assert lines[..k + 1] == lines[..k] + [lines[k]];
    AnyLocalhostAppend(lines[..k], [lines[k]]);
    assert [lines[k]][1..] == [];
  }

  /** The scan of `_update_hosts_file` over the old lines. */
  method ScanHosts(lines: seq<string>, host: string) returns (newLines: seq<string>, updated: bool)
    ensures newLines == HostsPass(lines, host)
    ensures updated == AnyAlias(lines)
  {
    newLines := [];
    updated := false;
    var i := 0;
    while i < |lines|
      invariant 0 <= i <= |lines|
      invariant newLines == HostsPass(lines[..i], host)
      invariant updated == AnyAlias(lines[..i])
    {
      HostsSnoc(lines, i, host);
      if IsAliasLine(lines[i]) {
        newLines := newLines + [AliasLine(host)];
        updated := true;
      } else if !IsLocalhostEntry(lines[i]) {
        if !Contains(lines[i], "127.0.1.1") {
          newLines := newLines + [lines[i]];
        }
      }
      i := i + 1;
    }
    assert lines[..i] == lines;
  }

  /** `any('127.0.0.1' in line and 'localhost' in line for line in new_lines)`. */
  method HasLocalhost(lines: seq<string>) returns (found: bool)
    ensures found == AnyLocalhost(lines)
  {
    found := false;
    var k := 0;
    while k < |lines|
      invariant 0 <= k <= |lines|
      invariant found == AnyLocalhost(lines[..k])
    {
      LocalhostSnoc(lines, k);
      found := found || NamesLocalhost(lines[k]);
      k := k + 1;
    }
    assert lines[..k] == lines;
  }

  /** `_update_hosts_file`: builds the text it writes. */
  method UpdateHostsFile(existing: Option<string>, host: string) returns (text: string)
    ensures text == HostsText(existing, host)
  {
    if existing.None? {
      text := LocalhostLine() + "\n" + AliasLine(host) + "\n";
      assert text == Join([LocalhostLine(), AliasLine(host)], "\n") + "\n" by {
        assert [LocalhostLine(), AliasLine(host)][1..] == [AliasLine(host)];
      }
      return;
    }
    var lines := Lines(existing.value);
    var newLines, updated := ScanHosts(lines, host);
    if !updated {
      newLines := newLines + [AliasLine(host)];
    } else {
      assert newLines == newLines + [];
    }
    var localhostExists := HasLocalhost(newLines);
    if !localhostExists {
      newLines := [LocalhostLine()] + newLines;
    }
    assert newLines == HostsLines(existing, host);
    text := Join(newLines, "\n") + "\n";
  }

  /** The facts about the two fixed entries the rewrite relies on. */
  lemma HostsConstants(host: string, a: string, l: string, lh: string)
    requires a == "127.0.1.1" && l == "127.0.0.1" && lh == "localhost"
    ensures IsAliasLine(AliasLine(host))
    ensures '\n' !in host ==> '\n' !in AliasLine(host)
    ensures !IsAliasLine(LocalhostLine())
    ensures IsLocalhostEntry(LocalhostLine())
    ensures NamesLocalhost(LocalhostLine())
    ensures '\n' !in LocalhostLine()
  {
    AliasLineShape(host, a);
    LocalhostLineShape(a, l, lh);
  }

  lemma AliasLineShape(host: string, a: string)
    requires a == "127.0.1.1"
    ensures IsAliasLine(AliasLine(host))
    ensures '\n' !in host ==> '\n' !in AliasLine(host)
  {
    assert AliasLine(host) == a + ("\t" + host);
    StartsWithStrip(a, "\t" + host);
    assert '\n' !in a && '\n' !in "\t";
  }

  lemma LocalhostLineShape(a: string, l: string, lh: string)
    requires a == "127.0.1.1" && l == "127.0.0.1" && lh == "localhost"
    ensures !IsAliasLine(LocalhostLine())
    ensures IsLocalhostEntry(LocalhostLine())
    ensures NamesLocalhost(LocalhostLine())
    ensures '\n' !in LocalhostLine()
  {
    var s := LocalhostLine();
    LocalhostLineParts(l, lh);
    LocalhostLineTrimmed(s);
    assert !StartsWith(s, a) by {
      assert s[6] != a[6];
    }
    StartsWithContains(s, l);
  }

  lemma LocalhostLineParts(l: string, lh: string)
    requires l == "127.0.0.1" && lh == "localhost"
    ensures LocalhostLine() == l + ("\t" + lh)
    ensures Contains(LocalhostLine(), lh)
    ensures '\n' !in LocalhostLine()
  {
    var s := LocalhostLine();
    assert s == l + ("\t" + lh);
    assert s[10..19] == lh;
    ContainsAt(s, lh, 10);
    NoBreakIn(l, "\t", lh);
  }

  lemma NoBreakIn(x: string, y: string, z: string)
    requires x == "127.0.0.1" && y == "\t" && z == "localhost"
    ensures '\n' !in x + (y + z)
  {
    assert x + (y + z) == "127.0.0.1\tlocalhost";
  }

  lemma LocalhostLineTrimmed(s: string)
    requires s == LocalhostLine()
    ensures Strip(s) == s
  {
    assert s[0] == '1' && s[|s| - 1] == 't';
    StripTrimmed(s);
  }

  /** Every line the scan emits is the new entry, or an old line that is
      neither an alias entry nor a localhost entry and does not mention
      `127.0.1.1`. */
  lemma {:induction false} HostsPassShape(lines: seq<string>, host: string)
    ensures forall k :: k in HostsPass(lines, host) ==>
      k == AliasLine(host) || (k in lines && !IsAliasLine(k) && !IsLocalhostEntry(k) && !Contains(k, "127.0.1.1"))
  {
    if lines != [] {
      HostsPassShape(lines[1..], host);
      assert forall k :: k in lines[1..] ==> k in lines;
    }
  }

  /** An old alias entry makes the scan emit the new one. */
  lemma {:induction false} AnyAliasEmits(lines: seq<string>, host: string)
    requires AnyAlias(lines)
    ensures AliasLine(host) in HostsPass(lines, host)
  {
    if !IsAliasLine(lines[0]) {
      AnyAliasEmits(lines[1..], host);
    }
  }

  /** The old lines have no line break in them, and so has nothing the
      rewrite writes when the host name has none. */
  lemma HostsLinesNoBreak(existing: Option<string>, host: string)
    requires '\n' !in host
    ensures forall k :: k in HostsLines(existing, host) ==> '\n' !in k
  {
    HostsConstants(host, "127.0.1.1", "127.0.0.1", "localhost");
    if existing.Some? {
      var ls := Lines(existing.value);
      HostsPassShape(ls, host);
      assert forall k :: k in ls ==> '\n' !in k;
    }
  }

  /** After the rewrite the file holds the host's entry `127.0.1.1\t<host>`,
      every alias entry in it is that line, and it holds an entry naming
      `127.0.0.1` and `localhost`. */
  lemma HostsOwnEntry(existing: Option<string>, host: string)
    ensures AliasLine(host) in HostsLines(existing, host)
    ensures forall k :: k in HostsLines(existing, host) && IsAliasLine(k) ==> k == AliasLine(host)
    ensures AnyLocalhost(HostsLines(existing, host))
  {
    HostsConstants(host, "127.0.1.1", "127.0.0.1", "localhost");
    if existing.Some? {
      var ls := Lines(existing.value);
      HostsPassShape(ls, host);
      if AnyAlias(ls) {
        AnyAliasEmits(ls, host);
      }
      var scanned := HostsPass(ls, host) + (if AnyAlias(ls) then [] else [AliasLine(host)]);
      assert AliasLine(host) in scanned;
      if !AnyLocalhost(scanned) {
        assert ([LocalhostLine()] + scanned)[1..] == scanned;
      }
    } else {
      assert [LocalhostLine(), AliasLine(host)][1..] == [AliasLine(host)];
    }
  }

  /** Lines that are neither alias nor localhost entries and do not mention
      `127.0.1.1` are kept. */
  lemma {:induction false} HostsKeepsOthers(lines: seq<string>, host: string, i: nat)
    requires i < |lines|
    requires !IsAliasLine(lines[i]) && !IsLocalhostEntry(lines[i]) && !Contains(lines[i], "127.0.1.1")
    ensures lines[i] in HostsPass(lines, host)
  {
    if i > 0 {
      HostsKeepsOthers(lines[1..], host, i - 1);
    }
  }

  /** The number of alias entries. */
  function CountAlias(lines: seq<string>): nat {
    if lines == [] then 0 else (if IsAliasLine(lines[0]) then 1 else 0) + CountAlias(lines[1..])
  }

  lemma {:induction false} CountAliasAppend(a: seq<string>, b: seq<string>)
    ensures CountAlias(a + b) == CountAlias(a) + CountAlias(b)
  {
    if a != [] {
      assert (a + b)[1..] == a[1..] + b;
      CountAliasAppend(a[1..], b);
    } else {
      assert a + b == b;
    }
  }

  lemma {:induction false} CountAliasPass(lines: seq<string>, host: string)
    requires IsAliasLine(AliasLine(host))
    ensures CountAlias(HostsPass(lines, host)) == CountAlias(lines)
    ensures AnyAlias(lines) <==> CountAlias(lines) > 0
  {
    if lines != [] {
      CountAliasPass(lines[1..], host);
      CountAliasAppend(HostsLine(lines[0], host), HostsPass(lines[1..], host));
      assert CountAlias([AliasLine(host)]) == 1 by {
        assert [AliasLine(host)][1..] == [];
      }
      if !IsAliasLine(lines[0]) && HostsLine(lines[0], host) != [] {
        assert CountAlias([lines[0]]) == 0 by {
          assert [lines[0]][1..] == [];
        }
      }
    }
  }

  /** Each old alias entry becomes one new entry: they are not merged into
      one. With none, exactly one is added. */
  lemma HostsAliasCount(content: string, host: string)
    ensures CountAlias(HostsLines(Some(content), host)) ==
      if CountAlias(Lines(content)) == 0 then 1 else CountAlias(Lines(content))
  {
    HostsConstants(host, "127.0.1.1", "127.0.0.1", "localhost");
    var ls := Lines(content);
    CountAliasPass(ls, host);
    var tail := if AnyAlias(ls) then [] else [AliasLine(host)];
    CountAliasAppend(HostsPass(ls, host), tail);
    assert CountAlias([AliasLine(host)]) == 1 by {
      assert [AliasLine(host)][1..] == [];
    }
    var scanned := HostsPass(ls, host) + tail;
    CountAliasAppend([LocalhostLine()], scanned);
    assert CountAlias([LocalhostLine()]) == 0 by {
      assert [LocalhostLine()][1..] == [];
    }
  }

  /** The scan leaves its own output unchanged. */
  lemma {:induction false} HostsPassTwice(lines: seq<string>, host: string)
    requires IsAliasLine(AliasLine(host))
    ensures HostsPass(HostsPass(lines, host), host) == HostsPass(lines, host)
  {
    if lines != [] {
      HostsPassTwice(lines[1..], host);
      var head := HostsLine(lines[0], host);
      HostsPassAppend(head, HostsPass(lines[1..], host), host);
      if head != [] {
        assert HostsPass(head, host) == head by {
          assert head[1..] == [];
        }
      }
    }
  }

  /** The written lines are an optional localhost entry followed by a scan
      result that the scan leaves unchanged, holds an alias entry, and
      decides whether the localhost entry was needed. For a missing file
      this holds when the new entry does not itself name localhost. */
  lemma HostsSplit(existing: Option<string>, host: string) returns (prefix: seq<string>, scanned: seq<string>)
    requires existing.Some? || !NamesLocalhost(AliasLine(host))
    ensures HostsLines(existing, host) == prefix + scanned
    ensures HostsPass(scanned, host) == scanned && AnyAlias(scanned)
    ensures prefix == (if AnyLocalhost(scanned) then [] else [LocalhostLine()])
  {
    AliasLineShape(host, "127.0.1.1");
    assert HostsPass([AliasLine(host)], host) == [AliasLine(host)] by {
      assert [AliasLine(host)][1..] == [];
    }
    if existing.None? {
      scanned := [AliasLine(host)];
      prefix := [LocalhostLine()];
      assert [AliasLine(host)][1..] == [];
    } else {
      var ls := Lines(existing.value);
      var tail := if AnyAlias(ls) then [] else [AliasLine(host)];
      scanned := HostsPass(ls, host) + tail;
      prefix := if AnyLocalhost(scanned) then [] else [LocalhostLine()];
      HostsPassTwice(ls, host);
      HostsPassAppend(HostsPass(ls, host), tail, host);
      AnyAliasAppend(HostsPass(ls, host), tail);
      if AnyAlias(ls) {
        AnyAliasEmits(ls, host);
        AliasPresent(HostsPass(ls, host), AliasLine(host));
      } else {
        assert [AliasLine(host)][1..] == [];
      }
    }
  }

  /** Reading back lines in that form rewrites them to themselves. */
  lemma HostsFixedPoint(content: string, host: string, prefix: seq<string>, scanned: seq<string>)
    requires Lines(content) == prefix + scanned
    requires HostsPass(scanned, host) == scanned && AnyAlias(scanned)
    requires prefix == (if AnyLocalhost(scanned) then [] else [LocalhostLine()])
    ensures HostsLines(Some(content), host) == prefix + scanned
  {
    var ls := prefix + scanned;
    assert HostsPass(prefix, host) == [] by {
      if prefix != [] {
        LocalhostLineShape("127.0.1.1", "127.0.0.1", "localhost");
        assert prefix[1..] == [];
        assert HostsLine(prefix[0], host) == [];
      }
    }
    HostsPassAppend(prefix, scanned, host);
    assert HostsPass(ls, host) == scanned;
    AnyAliasAppend(prefix, scanned);
    assert AnyAlias(ls);
    assert HostsPass(ls, host) + [] == scanned;
  }

  lemma {:induction false} AliasPresent(lines: seq<string>, k: string)
    requires k in lines && IsAliasLine(k)
    ensures AnyAlias(lines)
  {
    if lines[0] != k {
      AliasPresent(lines[1..], k);
    }
  }

  /** Setting the same host name twice gives the same file as setting it
      once (for a missing file, when the new entry does not itself name
      localhost). */
  lemma HostsIdempotent(existing: Option<string>, host: string)
    requires '\n' !in host
    requires existing.Some? || !NamesLocalhost(AliasLine(host))
    ensures HostsText(Some(HostsText(existing, host)), host) == HostsText(existing, host)
  {
    HostsLinesNoBreak(existing, host);
    var out := HostsLines(existing, host);
    assert forall i :: 0 <= i < |out| ==> '\n' !in out[i];
    assert out != [] by {
      HostsOwnEntry(existing, host);
    }
    LinesOfJoin(out);
    var prefix, scanned := HostsSplit(existing, host);
    HostsFixedPoint(HostsText(existing, host), host, prefix, scanned);
  }
}
