/** Start-up probes of `NetworkManager.__init__`: which configuration
    subsystem the host uses, and whether the process runs in a container.
    Both are computed once and then held fixed. */
module Detect {
  import opened Text

  /** The backend kinds, in place of the source's strings "netplan",
      "networkmanager", "interfaces", "systemd-networkd" and "unknown". */
  datatype Kind = Netplan | NetworkManagerKind | Interfaces | SystemdNetworkd | Unknown

  /** What the detector reads from the filesystem: the paths that exist, and
      the entries of `/etc/netplan` (meaningful only when it exists). */
  datatype FsProbe = FsProbe(existing: set<string>, netplanEntries: seq<string>)

  /** The evidence each kind looks for. */
  predicate Present(k: Kind, fs: FsProbe) {
    match k
    case Netplan => "/etc/netplan" in fs.existing && |fs.netplanEntries| > 0
    case NetworkManagerKind => "/etc/NetworkManager/system-connections" in fs.existing
    case Interfaces => "/etc/network/interfaces" in fs.existing
    case SystemdNetworkd => "/etc/systemd/network" in fs.existing
    case Unknown => true
  }

  /** Position in the order the detector tries the kinds. */
  function Rank(k: Kind): nat {
    match k
    case Netplan => 0
    case NetworkManagerKind => 1
    case Interfaces => 2
    case SystemdNetworkd => 3
    case Unknown => 4
  }

  /** `detect_network_config_type`: the first kind, in priority order,
      whose evidence is present; `Unknown` when there is none. */
  function DetectKind(fs: FsProbe): (r: Kind)
    ensures Present(r, fs)
    ensures forall k: Kind :: Rank(k) < Rank(r) ==> !Present(k, fs)
  {
    if "/etc/netplan" in fs.existing && |fs.netplanEntries| > 0 then Netplan
    else if "/etc/NetworkManager/system-connections" in fs.existing then NetworkManagerKind
    else if "/etc/network/interfaces" in fs.existing then Interfaces
    else if "/etc/systemd/network" in fs.existing then SystemdNetworkd
    else Unknown
  }

  /** An empty `/etc/netplan` directory does not count as netplan: detection
      falls through to the next kind. */
  lemma EmptyNetplanDirFallsThrough(fs: FsProbe)
    requires fs.netplanEntries == []
    ensures DetectKind(fs) != Netplan
    ensures DetectKind(fs) == DetectKind(FsProbe(fs.existing - {"/etc/netplan"}, []))
  {
  }

  /** What the container detector reads: whether `/.dockerenv` exists, the
      environment, and the text of `/proc/1/cgroup` (`None` when it cannot be
      read, which the source swallows). */
  datatype ContainerProbe = ContainerProbe(dockerEnv: bool, env: map<string, string>, cgroup: Option<string>)

  /** `os.environ.get(key)` is truthy: set and not empty. */
  predicate EnvSet(env: map<string, string>, key: string) {
    key in env && env[key] != ""
  }

  /** `_detect_container_environment`. */
  function IsContainer(p: ContainerProbe): (b: bool)
    ensures b <==>
      p.dockerEnv || EnvSet(p.env, "container") || EnvSet(p.env, "DOCKER_CONTAINER") ||
      (p.cgroup.Some? && (Contains(p.cgroup.value, "docker") || Contains(p.cgroup.value, "containerd")))
  {
    if p.dockerEnv then true
    else if EnvSet(p.env, "container") || EnvSet(p.env, "DOCKER_CONTAINER") then true
    else
      match p.cgroup
      case None => false
      case Some(content) => Contains(content, "docker") || Contains(content, "containerd")
  }

  /** Any cgroup membership line naming docker marks a container, whatever
      else the file holds. */
  lemma DockerCgroupIsContainer(p: ContainerProbe, before: string, after: string)
    requires p.cgroup == Some(before + "docker" + after)
    ensures IsContainer(p)
  {
    ContainsAt(before + "docker" + after, "docker", |before|);
  }
}
