/** The request and response records of the API (`NetworkInterface`,
    `NetworkConfig`, `HostnameConfig`), and the truthiness tests the engine
    applies to their optional fields. */
module Models {
  import opened Text

  /** An interface as `get_interfaces` reports it. */
  datatype NetworkInterface = NetworkInterface(
    name: string,
    ipAddress: Option<string>,
    netmask: Option<string>,
    gateway: Option<string>,
    dnsServers: seq<string>,
    isDhcp: bool,
    isActive: bool)

  /** The body of a configure request. */
  datatype NetworkConfig = NetworkConfig(
    ipAddress: string,
    netmask: string,
    gateway: Option<string>,
    dnsServers: Option<seq<string>>,
    isDhcp: bool)

  /** `if config.gateway:` — given and not the empty string. */
  predicate HasGateway(c: NetworkConfig) {
    c.gateway.Some? && c.gateway.value != ""
  }

  /** `if config.dns_servers:` — given and not the empty list. */
  predicate HasDns(c: NetworkConfig) {
    c.dnsServers.Some? && c.dnsServers.value != []
  }
}
