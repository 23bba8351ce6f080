/** The netplan document store: the `*.yaml` files of `/etc/netplan`, in
    the order `glob` yields them, each either a parsed document or a file
    that fails to load. Only the parts of a document the engine reads are
    structured; everything else is carried along unchanged as `Opaque`. */
module Netplan {
  import opened Text
  import opened Shell
  import opened Models

  /** Content the engine neither reads nor changes, as serialised text. */
  type Opaque = string

  /** `{to: <to>, via: <via>}`. */
  datatype Route = Route(to: string, via: string)

  /** One entry of `network.ethernets`; `None` is an absent key. */
  datatype Ethernet = Ethernet(
    dhcp4: Option<bool>,
    addresses: Option<seq<string>>,
    routes: Option<seq<Route>>,
    nameservers: Option<seq<string>>,
    other: Opaque)

  /** The `network` mapping. */
  datatype Network = Network(version: Option<int>, ethernets: Option<map<string, Ethernet>>, other: Opaque)

  /** What `yaml.safe_load` makes of a file: a failure, or a document whose
      `network` key may be absent (an empty file is such a document). */
  datatype Entry = Unparseable | Doc(network: Option<Network>, other: Opaque)

  datatype File = File(path: string, entry: Entry)

  /** `config["network"].get("ethernets", {})`, or nothing to look at. */
  function Ethernets(e: Entry): map<string, Ethernet> {
    if e.Doc? && e.network.Some? && e.network.value.ethernets.Some? then e.network.value.ethernets.value
    else map[]
  }

  /** The document defines interface `name`. */
  predicate Defines(e: Entry, name: string) {
    name in Ethernets(e)
  }

  /** The same document with `name` deleted from its ethernets. */
  function WithoutEthernet(e: Entry, name: string): (r: Entry)
    requires Defines(e, name)
    ensures Ethernets(r) == Ethernets(e) - {name}
  {
    var net := e.network.value;
    Doc(Some(net.(ethernets := Some(net.ethernets.value - {name}))), e.other)
  }

  /** What cleanup does to one file. */
  datatype Action = Keep | Delete | Rewrite(entry: Entry)

  /** The decision of `_cleanup_netplan_files` for one file: a file that
      does not define the name, or that cannot be loaded, is kept; one whose
      only ethernet is the name is deleted, whatever else it holds; any other
      has the name removed and is written back. */
  function CleanStep(e: Entry, name: string): (a: Action)
    ensures a.Rewrite? ==> Defines(e, name) && |Ethernets(e)| > 1 && a.entry == WithoutEthernet(e, name)
    ensures a.Delete? <==> Defines(e, name) && |Ethernets(e)| == 1
    ensures a.Keep? <==> !Defines(e, name)
  {
    if !Defines(e, name) then Keep
    else if |Ethernets(e)| == 1 then Delete
    else Rewrite(WithoutEthernet(e, name))
  }

  /** One file's part of the directory after cleanup: an action on a
      write-protected file fails and leaves it as it was. */
  function CleanFile(f: File, name: string, locked: set<string>): seq<File> {
    if f.path in locked then [f]
    else
      match CleanStep(f.entry, name)
      case Keep => [f]
      case Delete => []
      case Rewrite(e) => [File(f.path, e)]
  }

  /** The directory after cleanup: every file's action applied in order. */
  function CleanAll(files: seq<File>, name: string, locked: set<string>): (r: seq<File>)
    ensures |r| <= |files|
  {
    if files == [] then [] else CleanFile(files[0], name, locked) + CleanAll(files[1..], name, locked)
  }

  /** The paths present in the directory. */
  function PathSet(files: seq<File>): set<string> {
    if files == [] then {} else {files[0].path} + PathSet(files[1..])
  }

  /** No two files share a path. */
  predicate DistinctPaths(files: seq<File>) {
    files == [] || (files[0].path !in PathSet(files[1..]) && DistinctPaths(files[1..]))
  }

  // ---- Properties of cleanup ----

  /** What cleanup leaves of one file: nothing, or the file under its own
      path, unchanged or without the name. Only a protected file can still
      define the name. */
  lemma CleanFileShape(f: File, name: string, locked: set<string>)
    ensures |CleanFile(f, name, locked)| <= 1
    ensures forall g :: g in CleanFile(f, name, locked) ==>
      (g.path == f.path && (g.entry == f.entry || (Defines(f.entry, name) && g.entry == WithoutEthernet(f.entry, name))))
    ensures forall g :: g in CleanFile(f, name, locked) && Defines(g.entry, name) ==> g.path in locked
  {
  }

  /** After cleanup, only a write-protected file can still define the name. */
  lemma {:induction false} CleanAllRemovesName(files: seq<File>, name: string, locked: set<string>)
    ensures forall g :: g in CleanAll(files, name, locked) && Defines(g.entry, name) ==> g.path in locked
  {
    if files != [] {
      CleanAllRemovesName(files[1..], name, locked);
      CleanFileShape(files[0], name, locked);
    }
  }

  /** Every file left is an old file under its own path, unchanged or with
      only the name removed from its ethernets: sibling interfaces and every
      other section keep their content. Files that cannot be loaded are left
      as they were. */
  lemma {:induction false} CleanAllKeepsSiblings(files: seq<File>, name: string, locked: set<string>)
    ensures forall g :: g in CleanAll(files, name, locked) ==>
      exists f :: f in files && g.path == f.path &&
        (g.entry == f.entry || (Defines(f.entry, name) && g.entry == WithoutEthernet(f.entry, name)))
  {
    if files != [] {
      CleanAllKeepsSiblings(files[1..], name, locked);
      CleanFileShape(files[0], name, locked);
      assert forall f :: f in files[1..] ==> f in files;
      assert files[0] in files;
    }
  }

  /** A file is deleted only when it is not protected and the name was its
      one ethernet. */
  lemma {:induction false} CleanAllDeletesOnlySingles(files: seq<File>, name: string, locked: set<string>)
    ensures var r := CleanAll(files, name, locked);
      forall j :: 0 <= j < |files| && files[j].path !in PathSet(r) ==>
        files[j].path !in locked && Defines(files[j].entry, name) && |Ethernets(files[j].entry)| == 1
  {
    if files != [] {
      CleanAllDeletesOnlySingles(files[1..], name, locked);
      var r := CleanAll(files, name, locked);
      var head := CleanFile(files[0], name, locked);
      var rest := CleanAll(files[1..], name, locked);
      PathSetAppend(head, rest);
      forall j | 1 <= j < |files| && files[j].path !in PathSet(r)
        ensures files[j].path !in locked && Defines(files[j].entry, name) && |Ethernets(files[j].entry)| == 1
      {
        assert files[j] == files[1..][j - 1];
      }
      if head != [] {
        assert head[0].path == files[0].path;
        assert PathSet(head) == {files[0].path} + PathSet(head[1..]);
      }
    }
  }

  lemma {:induction false} PathSetAppend(a: seq<File>, b: seq<File>)
    ensures PathSet(a + b) == PathSet(a) + PathSet(b)
  {
    if a != [] {
      assert (a + b)[1..] == a[1..] + b;
      PathSetAppend(a[1..], b);
    } else {
      assert a + b == b;
    }
  }

  /** Cleanup adds no path. */
  lemma {:induction false} CleanAllPaths(files: seq<File>, name: string, locked: set<string>)
    ensures PathSet(CleanAll(files, name, locked)) <= PathSet(files)
  {
    if files != [] {
      CleanAllPaths(files[1..], name, locked);
      PathSetAppend(CleanFile(files[0], name, locked), CleanAll(files[1..], name, locked));
    }
  }

  /** Cleanup keeps the paths distinct. */
  lemma {:induction false} CleanAllDistinct(files: seq<File>, name: string, locked: set<string>)
    requires DistinctPaths(files)
    ensures DistinctPaths(CleanAll(files, name, locked))
  {
    if files != [] {
      CleanAllDistinct(files[1..], name, locked);
      CleanAllPaths(files[1..], name, locked);
      var head := CleanFile(files[0], name, locked);
      var rest := CleanAll(files[1..], name, locked);
      if head != [] {
        assert head == [head[0]] && (head + rest)[1..] == rest;
      } else {
        assert head + rest == rest;
      }
    }
  }

  // ---- Writing a file ----

  /** The directory after writing `e` to `path`: the file is replaced where
      it is, or added at the end. */
  function Put(files: seq<File>, path: string, e: Entry): seq<File> {
    if files == [] then [File(path, e)]
    else if files[0].path == path then [File(path, e)] + files[1..]
    else [files[0]] + Put(files[1..], path, e)
  }

  /** Writing adds exactly its path, replaces only the file at that path
      and appends when the path is new. */
  lemma {:induction false} PutContents(files: seq<File>, path: string, e: Entry)
    requires DistinctPaths(files)
    ensures PathSet(Put(files, path, e)) == PathSet(files) + {path}
    ensures DistinctPaths(Put(files, path, e))
    ensures path !in PathSet(files) ==> Put(files, path, e) == files + [File(path, e)]
    ensures path in PathSet(files) ==> |Put(files, path, e)| == |files| && forall i :: 0 <= i < |files| ==>
      Put(files, path, e)[i] == if files[i].path == path then File(path, e) else files[i]
  {
    if files != [] {
      var r := Put(files, path, e);
      if files[0].path == path {
        assert r[1..] == files[1..];
        forall i | 1 <= i < |files| ensures files[i].path != path {
          PathSetHas(files[1..], i - 1);
        }
      } else {
        PutContents(files[1..], path, e);
        assert r[1..] == Put(files[1..], path, e);
      }
    }
  }

  /** The written file is in the directory afterwards, and every other file
      there was there before. */
  lemma {:induction false} PutMembers(files: seq<File>, path: string, e: Entry)
    ensures File(path, e) in Put(files, path, e)
    ensures forall g :: g in Put(files, path, e) ==> g == File(path, e) || g in files
  {
    if files != [] && files[0].path != path {
      PutMembers(files[1..], path, e);
      assert Put(files, path, e) == [files[0]] + Put(files[1..], path, e);
    }
  }

  lemma {:induction false} PathSetHas(files: seq<File>, i: nat)
    requires i < |files|
    ensures files[i].path in PathSet(files)
  {
    if i > 0 {
      PathSetHas(files[1..], i - 1);
    }
  }

  // ---- Reading ----

  /** `_check_dhcp_netplan`: the `dhcp4` flag (false when absent) of the
      first file in scan order that defines the name. A file that fails to
      load raises inside the single `try` around the whole scan, so the
      answer is then false even if a later file defines the name. */
  function CheckDhcp(files: seq<File>, name: string): bool {
    if files == [] then false
    else
      var e := files[0].entry;
      if e.Unparseable? then false
      else if Defines(e, name) then Ethernets(e)[name].dhcp4 == Some(true)
      else CheckDhcp(files[1..], name)
  }

  /** When exactly one loadable file, and no earlier unloadable one, defines
      the name, its `dhcp4` decides. */
  lemma {:induction false} CheckDhcpFirstDefinition(files: seq<File>, name: string, k: nat)
    requires k < |files| && Defines(files[k].entry, name)
    requires forall j :: 0 <= j < k ==> files[j].entry.Doc? && !Defines(files[j].entry, name)
    ensures CheckDhcp(files, name) == (Ethernets(files[k].entry)[name].dhcp4 == Some(true))
  {
    if k > 0 {
      assert forall j :: 0 <= j < k - 1 ==> files[1..][j] == files[j + 1];
      CheckDhcpFirstDefinition(files[1..], name, k - 1);
    }
  }

  /** The error-tolerant listing of `get_netplan_files`: one record per file,
      the names its ethernets define (none, with an error, for a file that
      fails to load). */
  datatype Listed = Listed(path: string, interfaces: set<string>, error: bool)

  function ListFiles(files: seq<File>): (r: seq<Listed>)
    ensures |r| == |files|
    ensures forall i :: 0 <= i < |files| ==>
      r[i].path == files[i].path && r[i].interfaces == Ethernets(files[i].entry).Keys &&
      (r[i].error <==> files[i].entry.Unparseable?)
  {
    if files == [] then []
    else [Listed(files[0].path, Ethernets(files[0].entry).Keys, files[0].entry.Unparseable?)] + ListFiles(files[1..])
  }

  /** `_validate_netplan_config`: `netplan info <file>` run unchecked; exit
      status 0 means valid; when `netplan` is missing, valid iff the file
      loads. */
  function IsValidConfig(o: Outcome, e: Entry): (b: bool)
    ensures o == Ok ==> b
    ensures o == Fail ==> !b
    ensures o == Missing ==> (b <==> e.Doc?)
  {
    match o
    case Ok => true
    case Fail => false
    case Missing => e.Doc?
  }

  // ---- The document `_configure_netplan` writes ----

  /** The file name `01-<name>.yaml`. */
  function ConfigPath(name: string): string {
    "/etc/netplan/01-" + name + ".yaml"
  }

  /** The one ethernet of the generated document. `cidr` is the address
      computed for a static configuration. */
  function BuildEthernet(cfg: NetworkConfig, cidr: string): Ethernet {
    if cfg.isDhcp then Ethernet(Some(true), None, None, None, "")
    else
      Ethernet(
        None,
        Some([cidr]),
        if HasGateway(cfg) then Some([Route("default", cfg.gateway.value)]) else None,
        if HasDns(cfg) then Some(cfg.dnsServers.value) else None,
        "")
  }

  /** `{"network": {"version": 2, "ethernets": {name: ...}}}`. */
  function BuildDoc(name: string, cfg: NetworkConfig, cidr: string): Entry {
    Doc(Some(Network(Some(2), Some(map[name := BuildEthernet(cfg, cidr)]), "")), "")
  }

  /** The generated document is version 2 with exactly one ethernet, the
      interface itself. DHCP writes only `dhcp4: true`; static writes the
      address, a default route iff a gateway is given and nameservers iff
      the list is not empty. */
  lemma BuildDocShape(name: string, cfg: NetworkConfig, cidr: string)
    ensures var d := BuildDoc(name, cfg, cidr);
      && d.network.Some? && d.network.value.version == Some(2)
      && Ethernets(d).Keys == {name}
      && var eth := Ethernets(d)[name];
      && (cfg.isDhcp ==> eth.dhcp4 == Some(true) && eth.addresses.None? && eth.routes.None? && eth.nameservers.None?)
      && (!cfg.isDhcp ==> eth.dhcp4.None? && eth.addresses == Some([cidr]))
      && (!cfg.isDhcp ==> (eth.routes.Some? <==> HasGateway(cfg)))
      && (!cfg.isDhcp && HasGateway(cfg) ==> eth.routes == Some([Route("default", cfg.gateway.value)]))
      && (!cfg.isDhcp ==> (eth.nameservers.Some? <==> HasDns(cfg)))
      && (!cfg.isDhcp && HasDns(cfg) ==> eth.nameservers == cfg.dnsServers)
  {
  }

  /** Reading back the generated file: when it is the only definition and no
      unloadable file precedes it, the DHCP check answers `cfg.isDhcp`, and
      the listing names exactly the interface. */
  lemma BuildDocReadBack(files: seq<File>, name: string, cfg: NetworkConfig, cidr: string, k: nat)
    requires k < |files| && files[k].entry == BuildDoc(name, cfg, cidr)
    requires forall j :: 0 <= j < k ==> files[j].entry.Doc? && !Defines(files[j].entry, name)
    ensures CheckDhcp(files, name) == cfg.isDhcp
    ensures ListFiles(files)[k].interfaces == {name} && !ListFiles(files)[k].error
  {
    BuildDocShape(name, cfg, cidr);
    CheckDhcpFirstDefinition(files, name, k);
  }

  /** The first file under a path. */
  lemma {:induction false} FirstWithPath(files: seq<File>, p: string) returns (k: nat)
    requires p in PathSet(files)
    ensures k < |files| && files[k].path == p
    ensures forall j :: 0 <= j < k ==> files[j].path != p
  {
    if files[0].path == p {
      k := 0;
    } else {
      var k1 := FirstWithPath(files[1..], p);
      k := k1 + 1;
      assert forall j :: 1 <= j < k ==> files[j] == files[1..][j - 1];
    }
  }

  /** Every file left by cleanup loads and none defines the name, when every
      file loaded and no protected file defined it. */
  lemma CleanAllClears(files: seq<File>, name: string, locked: set<string>)
    requires forall f :: f in files ==> f.entry.Doc? && (f.path in locked ==> !Defines(f.entry, name))
    ensures forall g :: g in CleanAll(files, name, locked) ==> g.entry.Doc? && !Defines(g.entry, name)
  {
    CleanAllRemovesName(files, name, locked);
    CleanAllKeepsSiblings(files, name, locked);
    forall g | g in CleanAll(files, name, locked) ensures g.entry.Doc? && !Defines(g.entry, name) {
      var f :| f in files && g.path == f.path &&
        (g.entry == f.entry || (Defines(f.entry, name) && g.entry == WithoutEthernet(f.entry, name)));
      if g.entry != f.entry {
        assert name !in Ethernets(g.entry);
      }
    }
  }

  /** Configuring and then asking `_check_dhcp_netplan`: when every file
      loads and no protected file defines the interface, the answer is the
      configured DHCP flag, wherever the new file lands in scan order. The
      directory then holds exactly one definition of the interface: the new
      file with exactly the built document. */
  lemma ConfigureReadBack(files: seq<File>, name: string, cfg: NetworkConfig, cidr: string, locked: set<string>)
    requires DistinctPaths(files)
    requires forall f :: f in files ==> f.entry.Doc? && (f.path in locked ==> !Defines(f.entry, name))
    ensures CheckDhcp(Put(CleanAll(files, name, locked), ConfigPath(name), BuildDoc(name, cfg, cidr)), name) == cfg.isDhcp
    ensures File(ConfigPath(name), BuildDoc(name, cfg, cidr)) in Put(CleanAll(files, name, locked), ConfigPath(name), BuildDoc(name, cfg, cidr))
    ensures forall g :: g in Put(CleanAll(files, name, locked), ConfigPath(name), BuildDoc(name, cfg, cidr)) && Defines(g.entry, name) ==>
      g == File(ConfigPath(name), BuildDoc(name, cfg, cidr))
  {
    var c := CleanAll(files, name, locked);
    var path := ConfigPath(name);
    var d := BuildDoc(name, cfg, cidr);
    var r := Put(c, path, d);
    CleanAllClears(files, name, locked);
    CleanAllDistinct(files, name, locked);
    PutContents(c, path, d);
    var k: nat;
    if path in PathSet(c) {
      k := FirstWithPath(c, path);
      assert r[k] == File(path, d);
      forall j | 0 <= j < k ensures r[j].entry.Doc? && !Defines(r[j].entry, name) {
        assert r[j] == c[j] && c[j] in c;
      }
    } else {
      k := |c|;
      forall j | 0 <= j < k ensures r[j].entry.Doc? && !Defines(r[j].entry, name) {
        assert r[j] == c[j] && c[j] in c;
      }
    }
    BuildDocReadBack(r, name, cfg, cidr, k);
    PutMembers(c, path, d);
  }

  /** Deleting one of several ethernets leaves some. */
  lemma RemovingOneOfSeveral(m: map<string, Ethernet>, k: string)
    requires k in m && |m| > 1
    ensures m - {k} != map[]
  {
    assert (m - {k}).Keys == m.Keys - {k};
    assert |m.Keys - {k}| == |m.Keys| - 1;
  }

  /** `CleanFile` by the branches of the scan. */
  lemma CleanFileCases(f: File, name: string, locked: set<string>)
    ensures CleanFile(f, name, locked) ==
      if f.entry.Doc? && f.entry.network.Some? && name in Ethernets(f.entry) && f.path !in locked then
        (if |Ethernets(f.entry)| == 1 then [] else [File(f.path, WithoutEthernet(f.entry, name))])
      else [f]
  {
  }

  lemma {:induction false} CleanAllAppend(a: seq<File>, b: seq<File>, name: string, locked: set<string>)
    ensures CleanAll(a + b, name, locked) == CleanAll(a, name, locked) + CleanAll(b, name, locked)
  {
    if a != [] {
      assert (a + b)[1..] == a[1..] + b;
      CleanAllAppend(a[1..], b, name, locked);
    } else {
      assert a + b == b;
    }
  }

  /** One step of the cleanup scan. */
  lemma CleanAllSnoc(files: seq<File>, i: nat, name: string, locked: set<string>)
    requires i < |files|
    ensures CleanAll(files[..i + 1], name, locked) == CleanAll(files[..i], name, locked) + CleanFile(files[i], name, locked)
  {
    assert files[..i + 1] == files[..i] + [files[i]];
    CleanAllAppend(files[..i], [files[i]], name, locked);
    assert CleanAll([files[i]], name, locked) == CleanFile(files[i], name, locked) by {
      assert [files[i]][1..] == [];
    }
  }

  /** One file of `_cleanup_netplan_files`: a file whose only ethernet is
      the name is unlinked, one with several others is rewritten without it,
      and a protected path raises, is reported, and stays as it was. */
  method CleanOne(f: File, name: string, locked: set<string>) returns (piece: seq<File>)
    ensures piece == CleanFile(f, name, locked)
  {
    var next := f;
    var drop := false;
    if f.entry.Doc? && f.entry.network.Some? {
      var ethernets := Ethernets(f.entry);
      if name in ethernets {
        if |ethernets| == 1 {
          // unlink; a protected file raises and is skipped
          drop := f.path !in locked;
        } else {
          RemovingOneOfSeveral(ethernets, name);
          var left := ethernets - {name};
          if left == map[] {
            assert false;
          } else if f.path !in locked {
            next := File(f.path, WithoutEthernet(f.entry, name));
          }
        }
      }
    }
    piece := if drop then [] else [next];
    CleanFileCases(f, name, locked);
  }

  /** The store, as a class whose methods change the directory in place. */
  class NetplanStore {
    /** Whether `/etc/netplan` exists. */
    var dirExists: bool
    /** Its `*.yaml` files, in `glob` order. */
    var files: seq<File>
    /** Paths whose writes and deletes fail (permissions, read-only mount). */
    const locked: set<string>

    /** No two files share a path, and there are none without the
        directory. */
    ghost predicate Valid()
      reads this
    {
      DistinctPaths(files) && (dirExists || files == [])
    }

    constructor (dirExists: bool, files: seq<File>, locked: set<string>)
      requires DistinctPaths(files) && (dirExists || files == [])
      ensures Valid()
      ensures this.dirExists == dirExists && this.files == files && this.locked == locked
    {
      this.dirExists := dirExists;
      this.files := files;
      this.locked := locked;
    }

    /** `_cleanup_netplan_files`: every file that defines the name is
        deleted, or rewritten without it; a failure on one file is reported
        and the scan goes on. */
    method Cleanup(name: string)
      requires Valid()
      modifies this
      ensures Valid()
      ensures dirExists == old(dirExists)
      ensures files == if dirExists then CleanAll(old(files), name, locked) else old(files)
    {
      if !dirExists {
        return;
      }
      var snapshot := files;
      var kept: seq<File> := [];
      var i := 0;
      assert kept + snapshot[0..] == snapshot;
      while i < |snapshot|
        invariant 0 <= i <= |snapshot|
        invariant dirExists
        invariant files == kept + snapshot[i..]
        invariant kept == CleanAll(snapshot[..i], name, locked)
      {
        var piece := CleanOne(snapshot[i], name, locked);
        CleanAllSnoc(snapshot, i, name, locked);
        kept := kept + piece;
        files := kept + snapshot[i + 1..];
        i := i + 1;
      }
      assert snapshot[..i] == snapshot && snapshot[i..] == [];
      assert kept + [] == kept;
      CleanAllDistinct(snapshot, name, locked);
    }

    /** Writing a document to `path`: fails when the directory is missing or
        the path is protected, and then nothing changes. */
    method Write(path: string, e: Entry) returns (ok: bool)
      requires Valid()
      modifies this
      ensures Valid()
      ensures dirExists == old(dirExists)
      ensures ok <==> dirExists && path !in locked
      ensures files == if ok then Put(old(files), path, e) else old(files)
    {
      ok := dirExists && path !in locked;
      if ok {
        PutContents(files, path, e);
        files := Put(files, path, e);
      }
    }
  }
}
