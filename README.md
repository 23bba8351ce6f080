# LinuxNetAPI configuration engine in Dafny

LinuxNetAPI is a small HTTP service that configures the network of a Linux
host. It lists the interfaces, classifies them as public or system, and
rewrites a public interface's configuration through whichever backend the host
uses: netplan YAML files, the legacy `/etc/network/interfaces` file, or direct
`ip` commands. It also edits `/etc/resolv.conf`, `/etc/hosts` and the hostname,
and restarts, enables and disables interfaces.

This project models the service's configuration engine: the `NetworkManager`
class of `main.py` and the decision logic of the route handlers in
`api/interface_routes.py`, `api/network_routes.py` and `api/hostname_routes.py`
(the same handlers also appear in `main.py`). It then proves the engine's
properties about that model.

## How the model is built

- **Pure logic** is written as functions with lemmas about them:
  - the interface classifier;
  - netmask and CIDR arithmetic;
  - backend and container detection;
  - the route, resolver and `ip -j addr` parsers;
  - the hostname grammar.
- **Commands** are data. A `Shell.Step` says:
  - which command runs;
  - whether it runs with `check=True`;
  - what its enclosing `try` does with a CalledProcessError or a FileNotFoundError.

  `Shell.RunBlock` runs a list of steps against an outcome oracle
  `ans(k, cmd)`, which answers `Ok`, `Fail` or `Missing` for the `k`-th
  command of the run. Each `try` block of the source is one script function,
  for example `Routes.NetplanCycleScript` or `Manager.IfScript`.
- **State** is imperative, mirroring the source command by command:
  - `Shell.Shell` records the trace of commands run and holds the oracle;
  - `Manager.NetworkManager` holds:
    - the backend kind;
    - whether the host is a container;
    - the text files as a map with the set of writable ones;
    - the netplan directory as a `Netplan.NetplanStore`.
  - Every method's `ensures` ties the new trace and files to the script
    functions, so the lemmas about the scripts carry over to the methods.
- **Files.** The netplan directory is a sequence of files in scan order. Each
  file is either unparseable or a document whose `network.ethernets` map is
  optional. The text files are line sequences where the source reads them
  line by line.
- **Errors.** Python exceptions are the `Shell.Exc` values:
  - CalledProcessError;
  - FileNotFoundError;
  - ValueError;
  - an HTTP error with its status.

  A `try`/`except` becomes a `Result` or a `Ran.raised` field.

Where the code and its description differ, the model follows the code:

- `_calculate_cidr` is defined twice (`main.py:472-485` and `main.py:547-553`).
  Python keeps the second. So the live version has no `/24` fallback and
  raises ValueError on a non-numeric octet.
- `_update_hosts_file` rewrites EVERY `127.0.1.1` line rather than keeping
  exactly one. It also drops lines that merely contain `127.0.1.1`
  (`main.py:625-631`).
- The stanza removal of `_configure_interfaces` (`main.py:499`) stops at the
  first `auto` or `iface` header. This includes the stanza's own `iface`
  line, so a previous `iface <name> inet dhcp` line survives a static
  reconfiguration. The name also has no word boundary, so `eth1` also removes
  `auto eth10`. The model follows the expression as written.
  `Interfaces.AutoLineOnly` and `Interfaces.StaleDhcpAfterStatic` prove the
  consequences.

## Model

| member | source | states |
|---|---|---|
| Text.LStripSpec | main.py:458 | `lstrip` removes exactly the leading whitespace: the result is a suffix that starts with a non-blank, and everything before it is blank |
| Text.RStripSpec | main.py:459 | `rstrip` removes exactly the trailing whitespace: the result is a prefix that ends with a non-blank, and everything after it is blank |
| Text.BlankStrips | api/hostname_routes.py:33 | a string made only of whitespace strips to the empty string |
| Text.WordsOfTwo | main.py:204 | `str.split()` of `"a b"` with two words yields exactly those two words |
| Text.ParseIntOfNatToString | main.py:551 | `int()` of the decimal text of a number gives back that number |
| Text.LinesOfJoin | main.py:467 | lines written as `'\n'.join(lines) + '\n'` read back line by line as the same lines |
| Text.LinesOfTerminated | main.py:456 | a text made of break-free lines, each with its terminator, reads back as those lines |
| Text.Words | main.py:204 | `str.split()` yields only non-empty, whitespace-free words |
| Text.Lines | main.py:456 | line-by-line reading yields lines without line breaks |
| Text.DecimalValue | main.py:551 | the digit-run helper of `int()` gives a value iff the text is a non-empty run of ASCII digits |
| Text.ParseIntAccepts | main.py:551 | `int()` succeeds iff the stripped text is a run of ASCII digits, optionally after one `+` or `-` sign, and a negative value has the `-` sign |
| Names.AnyMatch | main.py:102-106 | the early-return loop over the patterns is true iff some pattern in the list matches |
| Names.PairMatches | main.py:90 | the greedy matcher for `^pre\d+sep\d+$` agrees, in both directions, with the existential reading "some split point has digits on both sides" |
| Names.MacMatches | main.py:92 | the `enx` pattern matches iff exactly 12 lower-case hexadecimal digits follow the prefix |
| Names.RunMatches | main.py:88 | a digit-run pattern matches iff the prefix is followed by one or more digits and nothing else |
| Names.IsPublicUnrolled | main.py:87-106 | the classifier is true iff one of the eleven patterns matches, in the order they are tried |
| Names.IsPublicIffGrammar | main.py:84-106 | the classifier accepts a name iff the name is in the grammar of the eleven anchored patterns (both directions) |
| Names.PublicNameShape | main.py:87-99 | every public name is non-empty, starts with `e`, `p` or `w`, and consists only of lower-case ASCII letters and digits |
| Names.AcceptedExamples | main.py:88-92 | `eth0`, `enp0s3` and `enx001122334455` are public |
| Names.RejectedExamples | main.py:84-106 | `lo`, `docker0`, `veth1234` and `br0` are not public |
| Names.OnlyWwpPrefix | main.py:88-97 | none of the first ten patterns matches `wwp0s20f0u6` |
| Names.CommentedExampleRejected | main.py:98 | the name given as the example of the last pattern, `wwp0s20f0u6`, is itself rejected (the `f0u6` tail is not digits) |
| Address.MaskOctets | main.py:177-178 | the shifted mask yields four octets, each below 256 |
| Address.PrefixToNetmask | main.py:175-178 | `_prefix_to_netmask` succeeds iff the prefix is at most 32 (a larger one gives a negative shift count, which raises) |
| Address.MaskOctetsLeadingOnes | main.py:177 | for 0 ≤ p ≤ 32 the four octets are exactly p leading one-bits followed by zeros |
| Address.MaskOctetsOnes | main.py:177 | for 0 ≤ p ≤ 32 the four octets hold exactly p one-bits in total |
| Address.ParsePieces | main.py:550 | `int()` of every piece succeeds iff every piece parses, and then yields those values in order |
| Address.CidrOfPrefixNetmask | main.py:547-553 | for 0 ≤ p ≤ 32 the netmask of p converts back to `ip + "/" + p`: the live `_calculate_cidr` inverts `_prefix_to_netmask` |
| Address.DottedParses | main.py:550-551 | a dotted quad of octets splits and parses back to the same four octets |
| Address.NetmaskExample | main.py:175-178 | prefix 24 gives `255.255.255.0` |
| Address.CidrExample | main.py:547-553 | `192.168.1.10` with netmask `255.255.255.0` gives `192.168.1.10/24` |
| Address.CidrErrorIffBadPiece | main.py:547-553 | the live `_calculate_cidr` raises iff some dot-separated piece of the netmask is not an integer: there is no `/24` fallback |
| Address.MalformedNetmaskFails | main.py:551 | `255.255.x.0` makes the live `_calculate_cidr` raise |
| Address.PrefixTooLong | main.py:177 | a prefix above 32 makes `_prefix_to_netmask` raise |
| Address.PrefixNegative | main.py:177 | a negative prefix shifts every bit out and yields `0.0.0.0` |
| Address.PopcountBlock | main.py:551-552 | counting the one-bits of a run of `a` ones shifted left gives `a` |
| Detect.DetectKind | main.py:108-126 | the detected kind is present on the host, and every kind of higher priority is not: it is the first match of the priority list netplan, NetworkManager, interfaces, systemd-networkd, unknown |
| Detect.EmptyNetplanDirFallsThrough | main.py:111 | an empty netplan directory never selects netplan; detection then behaves as if the directory were absent |
| Detect.IsContainer | main.py:63-82 | the host is a container iff `/.dockerenv` exists, `container` or `DOCKER_CONTAINER` is set and non-empty, or the cgroup text contains `docker` or `containerd` |
| Detect.DockerCgroupIsContainer | main.py:75-78 | any cgroup text containing `docker` marks a container |
| Shell.Raises | main.py:400-408 | a command raises iff it is missing (FileNotFoundError, even unchecked) or it failed under `check=True` (CalledProcessError) |
| Shell.RunBlockAppend | main.py:394-445 | running two blocks one after the other equals running their concatenation, where the second runs only if the first neither raised nor was caught |
| Shell.RunBlockRaised | main.py:394-445 | only a command error or an explicit raise escapes a block, and a block whose handlers never stop is never caught |
| Shell.RunBlockInOrder | main.py:394-445 | the commands a block runs are a prefix of its steps' commands, in order |
| Shell.RunBlockContained | api/interface_routes.py:132-151 | a block whose handlers catch every command error lets nothing escape |
| Shell.Shell.Run | main.py:400 | running a command appends it to the trace and raises as `Shell.Raises` says for the oracle's answer |
| Shell.Shell.Capture | main.py:134-135 | a captured checked command appends to the trace, raises on any non-success, and returns the oracle's output |
| Shell.Shell.Exec | main.py:400 | an unchecked command appends exactly itself to the trace and returns the oracle's answer for it |
| Parsers.GatewayIsFirstOffer | main.py:185-191 | the gateway is `None` iff no line offers one; otherwise it is the offer of the first line that has one |
| Parsers.DefaultViaOffers | main.py:186-191 | a line `default via G ...` offers `G` |
| Parsers.GatewayFor | main.py:180-194 | the route query raises only when `ip` is missing; a failed query gives no gateway |
| Parsers.NameserversAreWords | main.py:203-205 | every collected DNS server is a single whitespace-free word |
| Parsers.BareNameserverStops | main.py:203-207 | a bare `nameserver` line raises inside the loop, and the servers collected before it are returned |
| Parsers.NameserversSkipsOthers | main.py:203 | lines that do not start with `nameserver` contribute nothing |
| Parsers.DhcpAtIff | main.py:238 | the hand-written matcher agrees, in both directions, with `iface\s+<name>\s+inet\s+dhcp` at a position |
| Parsers.DhcpRegexMatches | main.py:238 | `iface`, blanks, the name, blanks, `inet`, blanks, `dhcp` matches the DHCP pattern at that position whatever the blanks |
| Parsers.SearchFindsAt | main.py:239 | `re.search` finds the stanza wherever it starts in the content |
| Parsers.StanzaAnywhereCounts | main.py:238-239 | `iface <name> inet dhcp` anywhere in the file makes the legacy DHCP check true |
| Parsers.FirstInetIsFirst | main.py:151-157 | the address used is the first `inet` entry; there is none iff no entry is `inet` |
| Parsers.PublicRecords | main.py:138-143 | a record is kept iff it is one of the input records and its interface name is public |
| Parsers.PublicRecordsInOrder | main.py:138-143 | the kept records are a subsequence of the input, in input order, and a listing of only public interfaces is kept whole |
| Parsers.GetInterfaces | main.py:128-173 | a failed `ip -j addr show` is HTTP 500 and a missing `ip` escapes; otherwise the loop yields the inventory of the public records |
| Parsers.InventoryRaisesIff | main.py:138-168 | the inventory raises iff describing some public record raises |
| Parsers.InventoryDescribesPublic | main.py:138-168 | a successful inventory has one entry per public record, in order, each the description of that record |
| Parsers.DescribeFields | main.py:145-166 | describing a record raises iff `ip` is missing for its route query or its prefix exceeds 32. Otherwise: the name, the `UP` flag, the DNS list and the DHCP flag are copied; the gateway is parsed from the routes; the address and netmask come from the first `inet` entry |
| Parsers.DefaultPrefixIs24 | main.py:155-156 | an `inet` entry with no `prefixlen` gets netmask `255.255.255.0` |
| Netplan.WithoutEthernet | main.py:353 | deleting the interface's key leaves exactly the other ethernets |
| Netplan.CleanStep | main.py:341-363 | a file is deleted iff it defines the interface and nothing else, rewritten without it iff it defines it among others, and kept iff it does not define it |
| Netplan.CleanAll | main.py:337-368 | the cleanup never produces more files than it scanned |
| Netplan.CleanFileShape | main.py:341-368 | one file yields at most one file, at the same path, either unchanged or without the interface; only a file that could not be rewritten still defines it |
| Netplan.CleanAllRemovesName | main.py:329-372 | after the cleanup no file defines the interface, except the ones the service could not write |
| Netplan.CleanAllKeepsSiblings | main.py:341-363 | every file left comes from a scanned file at the same path, either unchanged or with only the interface's entry removed: other interfaces survive |
| Netplan.CleanAllDeletesOnlySingles | main.py:348-350 | a scanned file disappears only if it was writable and defined the interface alone |
| Netplan.CleanAllDistinct | main.py:337 | the cleanup keeps file paths distinct |
| Netplan.PutContents | main.py:293-295 | writing a file adds its path, keeps paths distinct, appends a new file and replaces an existing one in place |
| Netplan.CheckDhcpFirstDefinition | main.py:218-231 | the netplan DHCP check answers from the first file that defines the interface, after only parseable files that do not |
| Netplan.ListFiles | api/network_routes.py:19-66 | the listing has one entry per file, in scan order, with the file's path, its `ethernets` keys, and an error flag set iff the file does not parse |
| Netplan.IsValidConfig | main.py:374-392 | a zero exit of `netplan info` means valid and a non-zero one invalid; without the `netplan` binary the file is valid iff it parses as YAML |
| Netplan.BuildDocShape | main.py:262-290 | the document is version 2 with exactly the interface under `ethernets`; DHCP sets only `dhcp4: true`; static sets `addresses: [cidr]`, a default route iff there is a gateway, and `nameservers` iff there are DNS servers |
| Netplan.BuildDocReadBack | main.py:218-231 | a document written for the interface, seen before any other definition of it, makes the DHCP check return the configuration's DHCP flag and the listing show exactly that interface |
| Netplan.CleanAllClears | main.py:329-372 | when every file parses and no unwritable one defines the interface, no file defines it after the cleanup |
| Netplan.ConfigureReadBack | main.py:256-305 | cleanup followed by writing `/etc/netplan/01-<name>.yaml` makes `_check_dhcp_netplan` return the DHCP flag just configured; the directory then holds `/etc/netplan/01-<name>.yaml` with exactly the built document, and no other file defines the interface |
| Netplan.PutMembers | main.py:294-295 | after a write the written file is in the directory, and every other file there was there before |
| Netplan.RemovingOneOfSeveral | main.py:356-358 | removing one interface from a map with several never leaves it empty, so the source's "empty after delete" branch is unreachable |
| Netplan.CleanOne | main.py:338-368 | one loop iteration produces exactly the cleanup of that file |
| Netplan.NetplanStore.constructor | main.py:335-337 | the store holds the given directory flag, files and unwritable set |
| Netplan.NetplanStore.Cleanup | main.py:329-372 | the directory becomes the cleanup of the old files, or is unchanged when it does not exist |
| Netplan.NetplanStore.Write | main.py:293-295 | a write succeeds iff the directory exists and the path is writable, and then puts the document at that path; otherwise nothing changes |
| Rewriters.KeepOtherLines | main.py:454-459 | the read loop keeps exactly the right-stripped lines that do not start with `nameserver` |
| Rewriters.UpdateDnsServers | main.py:447-467 | the new `/etc/resolv.conf` is the kept lines followed by one `nameserver` line per server, joined and newline-terminated |
| Rewriters.KeptResolvShape | main.py:458-459 | no kept line is a nameserver line |
| Rewriters.NameserverLinesReadBack | main.py:462-463 | the written `nameserver` lines parse back to the servers |
| Rewriters.ResolvReadBack | main.py:196-208 | after `_update_dns_servers`, `_get_dns_servers` returns exactly the servers written, in order |
| Rewriters.ResolvIdempotent | main.py:447-467 | writing the same servers again leaves the file unchanged |
| Rewriters.ResolvKeepsOthers | main.py:458-459 | every line that is not a nameserver line survives, right-stripped |
| Rewriters.ScanHosts | main.py:621-631 | the loop emits the hostname line for each `127.0.1.1` line, drops the localhost entries and the lines containing `127.0.1.1`, keeps the rest, and reports whether a `127.0.1.1` line was seen |
| Rewriters.HasLocalhost | main.py:638 | the localhost test is true iff some line contains both `127.0.0.1` and `localhost` |
| Rewriters.UpdateHostsFile | main.py:609-648 | the written `/etc/hosts` is the scanned lines, plus a hostname line if none was seen, plus a leading localhost line if none is left; a missing file gets exactly those two lines |
| Rewriters.HostsPassShape | main.py:621-631 | every line of the scan is the new hostname line or an original line that is neither a `127.0.1.1` line nor a localhost entry |
| Rewriters.HostsOwnEntry | main.py:609-648 | the result contains the new hostname line, every `127.0.1.1` line in it is that line, and it names localhost |
| Rewriters.HostsKeepsOthers | main.py:630-631 | every line that is neither a `127.0.1.1` line, nor a localhost entry, nor contains `127.0.1.1` survives unchanged |
| Rewriters.HostsAliasCount | main.py:621-635 | the number of `127.0.1.1` lines is kept (every one is rewritten), or becomes 1 when there was none: the source does not collapse them to one |
| Rewriters.HostsIdempotent | main.py:609-648 | setting the same hostname again leaves the file unchanged |
| Interfaces.RemoveStanzasNoAuto | main.py:499-500 | a file without `auto` is left unchanged by the stanza removal |
| Interfaces.AutoLineOnly | main.py:499-500 | the removal of `auto <name>...` stops before the next `auto` or `iface` header, including the stanza's own `iface` line |
| Interfaces.DhcpLineCounts | main.py:238-239 | an `iface <name> inet dhcp` line anywhere makes the legacy DHCP search succeed |
| Interfaces.StaleDhcpAfterStatic | main.py:499-518 | reconfiguring `auto <name>` / `iface <name> inet dhcp` as static still leaves the DHCP line, so `_check_dhcp_interfaces` reports DHCP |
| Interfaces.DhcpReadBack | main.py:503-506 | whatever precedes it, an appended DHCP stanza makes the DHCP search succeed |
| Interfaces.InterfacesDhcpReadBack | main.py:233-242 | after writing a DHCP configuration, `_check_dhcp_interfaces` reports DHCP, whatever the old file held |
| Interfaces.StanzaIsTerminated | main.py:503-516 | the stanza is a blank line, `auto <name>`, the `iface` line and the option lines, each newline-terminated |
| Interfaces.StanzaLinesOneLine | main.py:503-516 | when the name and the fields hold no line break, no stanza line does |
| Interfaces.StanzaReadsAsLines | main.py:503-516 | read back line by line, the stanza gives exactly its lines: the gateway line iff there is a gateway, the `dns-nameservers` line iff there are servers |
| Manager.ReadIn | main.py:454-456 | reading a text file gives its content iff the file exists |
| Manager.SaveIn | main.py:466-467 | writing a writable file sets exactly that file's content; an unwritable one leaves every file unchanged; no other file changes |
| Manager.DirectBlock | main.py:394-412 | the direct apply is `ip link set up` followed by the DHCP or static block, which starts after the commands the first step ran |
| Manager.DnsAfterKeepsOthers | main.py:436-441 | the DNS update touches no file other than `/etc/resolv.conf` |
| Manager.StaticBlock | main.py:413-433 | the static block never stops the script early: it is the address block, then, if that did not raise, the gateway block |
| Manager.DirectApplyOutcomes | main.py:394-445 | the first command is always `ip link set up`; the DHCP path raises only FileNotFoundError from that first command; ValueError escapes iff the static netmask is malformed; every other escape is a command error; DNS is written iff static, with servers, and nothing raised |
| Manager.DirectApplyAllOk | main.py:413-441 | when every command succeeds, a static configuration runs exactly link up, flush, add, and the route delete and add iff there is a gateway, raises nothing and writes the DNS servers iff there are any |
| Manager.NetplanDoc | main.py:262-290 | the netplan document exists iff the configuration is DHCP or its netmask converts; a static one is the document built from that CIDR |
| Manager.DnsAfterOneRun | main.py:315 | after one direct run the files are those of its DNS update |
| Manager.DnsAfterTwoRuns | main.py:315-323 | after two direct runs the files are those of both DNS updates in order |
| Manager.HostApplyIsEnough | main.py:317-318 | on a host, a successful `netplan apply` is the whole activation: no direct apply runs |
| Manager.DhcpActivationOutcome | main.py:308-323 | a DHCP activation fails only with FileNotFoundError, raised by the last direct apply it ran |
| Manager.DirectRunNoNetplan | main.py:394-445 | a direct configuration runs no `netplan` command |
| Manager.HostActivationShape | main.py:316-323 | on a host `netplan apply` runs first, and the direct configuration runs once, right after it, exactly when it raised |
| Manager.ContainerActivationShape | main.py:310-323 | in a container `netplan generate` runs first, `netplan apply` never runs, and the direct configuration runs once or twice, the second time only after a command error of the first |
| Manager.ActivationShape | main.py:308-323 | whatever the environment, the direct configuration runs at most twice, and twice only in a container |
| Manager.LegacyRestartOutcome | main.py:525-534 | the legacy restart raises only FileNotFoundError, and only after `ifdown`/`ifup` failed; a successful `ifup` is the whole restart |
| Manager.StripHostnameLine | main.py:571 | a trimmed hostname written with its newline reads back stripped as itself |
| Manager.HostnameRoundTrip | main.py:555-591 | after `set_hostname` has written `/etc/hostname`, a `get_hostname` that must fall back to the file returns the hostname just set |
| Manager.NetworkManager.constructor | main.py:59-126 | the manager holds the detected backend kind and the container flag, with the given shell, netplan store and files |
| Manager.NetworkManager.UpdateDnsServers | main.py:447-470 | the files become their DNS update with the given servers |
| Manager.NetworkManager.UpdateHostsFile | main.py:609-651 | the files become those with `/etc/hosts` rewritten for the hostname (when writable) |
| Manager.NetworkManager.ApplyDhcp | main.py:402-412 | the trace grows by exactly the commands of the DHCP block |
| Manager.NetworkManager.AddAddress | main.py:415-422 | the trace grows by the address block's commands, whose error is returned; the block is never caught |
| Manager.NetworkManager.AddGateway | main.py:424-433 | the trace grows by the gateway block's commands, whose error is returned; a failed route add is swallowed while a missing `ip` escapes |
| Manager.NetworkManager.ApplyStatic | main.py:413-441 | the trace grows by the static block's commands, its error is returned, and DNS is written as `DnsWritten` says |
| Manager.NetworkManager.ApplyIpDirectly | main.py:394-445 | the trace grows by the direct apply's commands, its error is returned, and the files get its DNS update |
| Manager.NetworkManager.ValidateNetplanConfig | main.py:374-392 | the trace grows by one `netplan info` and the result is `IsValidConfig` of its answer and the file |
| Manager.NetworkManager.ActivateNetplan | main.py:308-323 | the trace, error and files are those of the container or host activation chosen by the container flag |
| Manager.NetworkManager.FallBack | main.py:319-323 | after the failed netplan command, the trace grows by one direct apply whose error is returned |
| Manager.NetworkManager.ActivateOnHost | main.py:316-323 | `netplan apply` runs checked; on failure the direct apply runs |
| Manager.NetworkManager.ActivateInContainer | main.py:310-323 | `netplan generate` runs checked, then the direct apply; a command error of that apply runs the direct apply a second time |
| Manager.NetworkManager.Retry | main.py:315-323 | a command error of the first direct apply in a container starts a second direct apply, whose error is the result |
| Manager.NetworkManager.Install | main.py:292-327 | with no netplan directory or an unwritable file, HTTP 500 and nothing else changes; otherwise the document is written, `netplan info` runs, then the activation, and the result is HTTP 500 iff the activation raised |
| Manager.NetworkManager.ConfigureNetplan | main.py:256-327 | the cleanup always happens; a malformed netmask or an unwritable target gives HTTP 500 with nothing else changed; otherwise the directory holds the cleaned files plus the new document and the trace and files are those of validation and activation |
| Manager.NetworkManager.IfDownUp | main.py:525-527 | the trace grows by the `ifdown`/`ifup` block's commands; nothing escapes it and the caller learns whether it was caught |
| Manager.NetworkManager.LinkDownUp | main.py:530-534 | the trace grows by the `ip link` down/up block's commands, whose error is returned |
| Manager.NetworkManager.RestartLegacy | main.py:525-534 | the trace and error are those of the legacy restart |
| Manager.NetworkManager.RestartAndApply | main.py:525-545 | an escaping restart error is HTTP 500 with the files unchanged; otherwise the direct apply follows, its error is swallowed and the result is success |
| Manager.NetworkManager.ConfigureInterfaces | main.py:487-545 | an unwritable `/etc/network/interfaces` is HTTP 500 with nothing changed; otherwise the file becomes the old content without the interface's stanza plus the new stanza, then the restart and direct apply follow |
| Manager.NetworkManager.WriteInterfaces | main.py:492-522 | the interfaces file becomes the rewritten content and no command runs |
| Manager.NetworkManager.IsDhcpEnabled | main.py:210-216 | on netplan the netplan check answers, on the interfaces backend the legacy search answers, and elsewhere the answer is false |
| Manager.NetworkManager.ConfigureInterface | main.py:244-254 | an unsupported backend is HTTP 400 with nothing changed; a successful netplan configuration reads back as the DHCP flag configured, and the interface's own file, holding exactly the new document, is then the only file that defines it; a successful DHCP configuration of the interfaces file reads back as DHCP |
| Manager.NetworkManager.GetHostname | main.py:555-575 | the trace and result are those of the lookup: `hostnamectl hostname`, then `hostname`, then `/etc/hostname`, then `unknown`; a missing `hostname` escapes |
| Manager.NetworkManager.SetHostname | main.py:577-607 | `hostnamectl set-hostname` always runs; it is HTTP 500 iff that failed and `/etc/hostname` is unwritable, otherwise success with `/etc/hostname` and `/etc/hosts` saved |
| Routes.Lower | api/hostname_routes.py:37 | `lower()` keeps the length and lower-cases each ASCII capital, leaving every other character alone |
| Routes.TailMatchesIff | api/hostname_routes.py:38 | the matcher for `([a-z0-9\-]{0,61}[a-z0-9])?$` accepts a tail iff it has 1 to 62 characters, ends with a letter or digit, and holds only letters, digits and hyphens |
| Routes.HostnameRegexIff | api/hostname_routes.py:38 | the hostname pattern accepts a name iff it is a valid label: 1 to 63 lower-case letters, digits and hyphens, not starting or ending with a hyphen |
| Routes.CheckHostname | api/hostname_routes.py:33-42 | validation fails only with HTTP 400, and a valid name is the stripped, lower-cased input |
| Routes.CheckHostnameIff | api/hostname_routes.py:33-42 | the input is accepted iff its stripped, lower-cased form is a valid label: a blank input is an empty label and is refused too |
| Routes.MixedCaseAccepted | api/hostname_routes.py:37-38 | `Web-Server-01` is accepted as `web-server-01` |
| Routes.BadLabelsRejected | api/hostname_routes.py:38-42 | `My_Host!`, `-a` and `a-` are refused |
| Routes.BlankRejected | api/hostname_routes.py:33-34 | a name of blanks is refused |
| Routes.LongHostnameRejected | api/hostname_routes.py:38 | a name of 64 characters is refused whatever its characters |
| Routes.LookupNeverSets | api/hostname_routes.py:44 | looking up the current hostname never runs `hostnamectl set-hostname` |
| Routes.SetHostnameHandler | api/hostname_routes.py:29-64 | an invalid name is HTTP 400 with no command run and no file changed; a valid one is looked up: a failed lookup is the reply, an equal name is "unchanged" with nothing written, and a new one runs `set_hostname`, which gives HTTP 500 or "changed" from the old name with `/etc/hostname` and `/etc/hosts` saved |
| Routes.SetValidHostname | api/hostname_routes.py:44-64 | the reply and the new state are the lookup's outcome as described for the handler |
| Routes.ChangeHostname | api/hostname_routes.py:53-64 | `hostnamectl set-hostname` runs once; the reply is HTTP 500 iff it failed and `/etc/hostname` is unwritable, otherwise "changed" with both files saved |
| Routes.InfoOf | api/interface_routes.py:40-53 | a summary entry carries the record's name, is active iff `UP` is among its flags, is public iff the classifier says so, and carries the first `inet` address or none |
| Routes.SideAppend | api/interface_routes.py:39-58 | splitting a listing and classifying each half gives the two halves' summaries in order |
| Routes.SidesPartition | api/interface_routes.py:39-65 | the public and system lists together hold every record's summary exactly once, their sizes add up to the total, every public entry is public and every system entry is not |
| Routes.GetAllInterfaces | api/interface_routes.py:27-72 | a failed or missing `ip -j addr show` is HTTP 500; otherwise the reply is the total and the public and system lists in listing order |
| Routes.Guard | api/interface_routes.py:94-105 | a non-public name is HTTP 400 before any inventory; for a public one the inventory's own error propagates, and a name it does not list is HTTP 404; the name is let through iff it is public and listed |
| Routes.GuardInterface | api/interface_routes.py:94-105 | the existence loop computes exactly the guard |
| Routes.ConfigureHandler | api/interface_routes.py:90-116 | a refused guard is its error with nothing changed; an unsupported backend is HTTP 400; a successful netplan or DHCP interfaces configuration reads back as configured, and after a netplan configuration only the interface's own file, with exactly the new document, defines the interface |
| Routes.CleanupHandler | api/network_routes.py:68-97 | a refused guard is its HTTP error (other errors become HTTP 500) with the directory unchanged; otherwise the netplan files become their cleanup |
| Routes.Answer | api/interface_routes.py:178-186 | a reply is a value iff no exception escaped |
| Routes.AnswerChecked | api/interface_routes.py:182-186 | after one checked command the reply is the value on success, HTTP 500 on failure, and an escaping FileNotFoundError when the command is missing |
| Routes.RunBlockTriple | api/interface_routes.py:132-147 | a three-step block runs its steps one after the other |
| Routes.BlockContained | api/interface_routes.py:130-171 | the netplan, interfaces and NetworkManager restart blocks never let an exception escape: their own `except` catches it and the `ip link` cycle runs instead |
| Routes.CycleFailure | api/interface_routes.py:150-151 | the `ip link` cycle raises only CalledProcessError or FileNotFoundError, and a CalledProcessError comes from the final `ip link set up` |
| Routes.ExceptedFailure | api/interface_routes.py:148-151 | a fallback cycle run after a caught block inherits that failure shape |
| Routes.RestartFailure | api/interface_routes.py:118-186 | whatever the backend, a restart that fails with CalledProcessError (HTTP 500) failed on its final `ip link set up`, and no other exception escapes but FileNotFoundError |
| Routes.ContainerNeverApplies | api/interface_routes.py:137-144 | in a container the netplan restart never runs `netplan apply` |
| Routes.HostRestartAllOk | api/interface_routes.py:130-147 | on a netplan host with every command succeeding, the restart is exactly link down, `netplan apply`, link up |
| Routes.RunCycle | api/interface_routes.py:173-176 | the trace grows by the `ip link` cycle's commands and its error is returned |
| Routes.RunNetplanCycle | api/interface_routes.py:132-148 | the trace grows by the netplan restart block's commands and the caller learns whether it was caught |
| Routes.RunNmcli | api/interface_routes.py:165-168 | the trace grows by the `nmcli` down/up block's commands and the caller learns whether it was caught |
| Routes.RunBackendBlock | api/interface_routes.py:130-168 | the trace grows by the backend's restart block's commands and the caller learns whether it was caught |
| Routes.RestartWithBlock | api/interface_routes.py:130-171 | the trace and error are those of the backend block followed, when caught, by the `ip link` cycle |
| Routes.RestartInterface | api/interface_routes.py:118-186 | a system interface is HTTP 400 with no command run; otherwise the trace is the restart's and the reply is the backend kind, HTTP 500 or an escaping FileNotFoundError |
| Routes.EnableOutcome | api/interface_routes.py:198-216 | enabling fails iff `ip link set up` does not succeed, with that command's error and no further command; on success `netplan apply` follows iff the backend is netplan, and its outcome is ignored |
| Routes.EnableInterface | api/interface_routes.py:188-216 | a system interface is HTTP 400 with no command run; otherwise the trace and reply are those of the enable block, the reply telling whether `netplan apply` ran |
| Routes.DisableInterface | api/interface_routes.py:218-238 | a system interface is HTTP 400 with no command run; otherwise exactly `ip link set down` runs and the reply is as for one checked command |
| Routes.ApplyConfigOutcome | api/network_routes.py:99-152 | one action is reported; success holds iff the backend has an action and its last command succeeded; no command runs for an unknown backend; a container never runs `netplan apply`; the init script runs only on the interfaces backend after `systemctl restart networking` failed |
| Routes.ApplyConfig | api/network_routes.py:99-152 | the trace grows by the commands of the apply chosen by backend and container flag, and the report is its report |
| Routes.GetNetplanFiles | api/network_routes.py:19-63 | the listing is that of the directory's files, or empty without a directory, and the total is its length |
| Routes.Checks | api/network_routes.py:164-180 | validation yields one result per file |
| Routes.ChecksAt | api/network_routes.py:164-180 | the result for the i-th file is its path, its `netplan info` validity from the i-th answer, and a permission warning iff its mode bits are not 600 |
| Routes.ValidCountBounds | api/network_routes.py:182-187 | the number of valid files is at most the total, and equals it iff all files are valid |
| Routes.ValidateNetplan | api/network_routes.py:157-189 | the trace grows by one `netplan info` per file in scan order, and the reply holds the per-file results, whether all are valid, the total and the valid count |

## Left out

- Process execution, file I/O and the clock: every command is answered by the oracle `ans(k, cmd)` (and `out(k, cmd)` for captured output), the text files are a map with a set of writable paths, and the netplan directory is a sequence of ready-parsed files.
- YAML and JSON: netplan documents are datatypes with an `Unparseable` variant, `yaml.dump` is writing the datatype, and `ip -j addr show` is taken as already-decoded records.
- The regular-expression engine: each anchored pattern is a hand-written matcher over ASCII. Python's `\d` also matches non-ASCII digits and `$` also matches before a final newline; neither is modelled. `strip`, `split` and `lower` are ASCII-only.
- Text.ParseInt: Python's `int()` also accepts underscores between digits (`2_55`) and non-ASCII decimal digits (Persian or Arabic-Indic ones, for example); the model accepts only ASCII digits, so a netmask written that way is a ValueError here where the source computes a prefix.
- Text.Lines: breaks only at `\n`. `str.splitlines()` (main.py:185, main.py:618) also breaks at `\r`, `\v`, `\f`, `\x1c`-`\x1e`, `\x85`, U+2028 and U+2029, and reading a file in text mode (main.py:456) turns `\r` and `\r\n` into `\n`. Text holding those characters is split differently in the source; for `/etc/hosts` this changes which lines `_update_hosts_file` keeps.
- Netplan.ListFiles: a listed file's interfaces are a set, so the document order of `list(ethernets.keys())` (api/network_routes.py:36) is not kept.
- The order of `Path.glob`: the directory sequence is taken in whatever order the scan yields.
- Read failures of an existing text file: a file is either present with its content or absent; an unreadable file is not modelled. Write failures are modelled by the writable set.
- `os.chmod` in `_configure_netplan` and the `permissions` string of `validate_netplan`: the mode is a parameter and only the `permission_warning` decision is modelled. `size` and `modified` in `get_netplan_files` are left out, and a listed file carries its path only.
- Messages, `print` output and exception detail strings: only the status code or exception kind is kept.
- The handlers with no decision logic of their own: `/`, `/network/config-type`, `/container/status`, `GET /hostname`, `/system/info`, `/network/interfaces`, `/network/status`, `/network/dns` and `/network/routes`. `GET /network/interfaces/{name}` is not modelled beyond its guards, which are those of `Routes.Guard`. The copies of the modelled handlers in `main.py` (main.py:698-1213) are the same code and share the model.
- `main_new.py` (application wiring) and `api/system_routes.py` (constant lookups) are not part of this model; `models/network_models.py` is mirrored as the datatypes of `Models`.
- The first `_calculate_cidr` (main.py:472-485) is shadowed by the second and is not modelled.
- The outer `except Exception` of `apply_network_config` (api/network_routes.py:154-155) cannot be reached, because every command error is caught inside its branch.
- Parsers.GetInterfaces: the per-interface route query, resolver file and DHCP check are taken as parameters rather than run through the shell trace.
- Routes.GetAllInterfaces: `ip -j addr show` is taken as its outcome and decoded records, not run through the shell trace.
- Rewriters.ResolvReadBack: stated for servers that are single whitespace-free words; a server containing blanks would read back as several words.
- Rewriters.ResolvIdempotent: stated for servers without line breaks.
- Rewriters.HostsIdempotent: stated for a hostname without line breaks, and for a missing `/etc/hosts` only when the hostname line does not itself name `127.0.0.1` and `localhost`.
- Interfaces.StaleDhcpAfterStatic: shown for a file holding just the interface's own DHCP stanza, as a witness of the quirk rather than for every file.
- Manager.NetworkManager.ConfigureInterface: the netplan read-back is stated when every file parses and no unwritable file defines the interface; the interfaces-file read-back only for DHCP, because a static reconfiguration keeps the old DHCP line.
- Routes.ConfigureHandler: the same read-back limits as `Manager.NetworkManager.ConfigureInterface`.
- Manager.HostnameRoundTrip: stated for a lookup that falls through to `/etc/hostname`; the `hostnamectl` and `hostname` outputs are the oracle's.
- Netplan.CleanAll: its own contract bounds only the length; the cleanup's meaning is stated by `CleanAllRemovesName`, `CleanAllKeepsSiblings`, `CleanAllDeletesOnlySingles` and `CleanAllDistinct`.
