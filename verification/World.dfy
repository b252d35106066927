/** The stores the manager keeps in agreement, as values: configuration, rows, instances, rules and files. */
module World {
  import opened Wrappers
  import IPv6
  import Traffic

  const SSH_PORT_BASE := 30000
  const SSH_PORT_COUNT: nat := 2000
  const USER_PORT_BASE := 10000
  const PORTS_PER_USER := 100
  const MAX_USERS: nat := 200
  const THROTTLE_RATE := "1Mbit"

  type Name = string

  datatype IPv4 = IPv4(a: int, b: int, c: int, d: int)

  /** A parsed IPv4 network. */
  datatype Subnet = Subnet(net: IPv4, ones: nat)

  datatype Config = Config(
    subnet: Subnet,
    /** IPv6 pass-through is on when a prefix is configured. */
    prefix: Option<IPv6.Prefix>,
    /** The first four bytes of sha256(name). */
    hash: Name -> IPv6.Hash,
    v4Forward: bool)
  {
    ghost predicate Valid() { prefix.Some? ==> prefix.value.Valid() }

    function Block(name: Name): IPv6.Address
      requires prefix.Some?
    {
      IPv6.Block(prefix.value, hash(name))
    }

    /** The ndppd rules for a set of containers. */
    function Blocks(names: set<Name>): set<IPv6.Address> {
      if prefix.None? then {} else set n | n in names :: Block(n)
    }
  }

  datatype User = User(idx: int, ip: IPv4, sshPort: int, startPort: int, cpu: int, memMB: int, diskGB: int,
      quotaGB: int)

  /** An LXD instance: the static address of its eth0, its limits and its NIC rate limit ("" when unlimited). */
  datatype Instance = Instance(ip: Option<IPv4>, cpu: int, memMB: int, diskGB: int, rate: string)

  /** One LXD write: applied, refused, or applied although an error came back. */
  datatype Setting = Applied | Refused | AppliedWithError

  /** Calls on a missing instance are refused. */
  function On(lxd: map<Name, Instance>, name: Name, outcome: Setting): Setting {
    if name in lxd then outcome else Refused
  }

  datatype Proto = Tcp | Udp

  /** A DNAT rule: a protocol and port range sent to ip, at a fixed port or at the port dialled. */
  datatype Rule = Rule(proto: Proto, first: int, last: int, ip: IPv4, port: Option<int>)

  datatype DomainRow = DomainRow(owner: Name, proxyProtocol: bool)

  /** A file of the Traefik directory: one domain's rendering, or anything else. */
  datatype Content = Rendered(domain: string, ip: IPv4, proxyProtocol: bool) | Foreign(bytes: string)

  const YAML := ".yaml"

  /** The file of a domain, and the one it is first written to. */
  function FileOf(d: string): string { d + YAML }

  function TempOf(d: string): string { d + YAML + ".tmp" }

  datatype State = State(
    users: map<Name, User>,
    traffic: map<Name, Traffic.Usage>,
    domains: map<string, DomainRow>,
    lxd: map<Name, Instance>,
    nftFiles: map<Name, seq<Rule>>,
    nftLive: map<Name, seq<Rule>>,
    ndppd: set<IPv6.Address>,
    traefik: map<string, Content>,
    throttled: Option<set<Name>>)

  datatype Error =
    | InvalidName | InvalidCPU | InvalidMemory | InvalidDisk | NameTaken | NoSuchUser
    | LimitReached | RandomFailed | PoolFull | NotSlash24 | IdxOutOfRange
    | SSHPoolExhausted | NoFreeSSHPort | BlockTaken | BlockHoldsGateway
    | LXDUnreadable | InstanceConflict
    | LaunchFailed | DeleteFailed | ImageMissing | ProvisionFailed | WireFailed | ConfigureFailed
    | DBFailed | NftWriteFailed | NftReloadFailed
    | LXDRefused | DiskCannotShrink
    | V4Disabled | InvalidDomain | DomainTaken | NoSuchDomain | FileFailed
}
