/**
 The network values the node handles: socket addresses and message-io
 endpoints. An endpoint is one connection: a resource id the library hands
 out plus the remote address, compared on both.
 */
module Net {
  import Decimal

  datatype Option<T> = None | Some(value: T)

  /** A socket address: the host as `Display` prints it, and the port. */
  datatype SocketAddr = SocketAddr(host: string, port: nat)

  /** A message-io endpoint: a connection resource and its remote address. */
  datatype Endpoint = Endpoint(resource: nat, remote: SocketAddr)

  /** `Endpoint::addr`: the remote address of the connection. */
  function Addr(e: Endpoint): SocketAddr {
    e.remote
  }

  /** `SocketAddr`'s `Display`: `host:port`. */
  function AddrToString(a: SocketAddr): string {
    a.host + ":" + Decimal.Digits(a.port)
  }

  /** The host and the port can be read back from the text. */
  lemma AddrToStringReadsBack(a: SocketAddr)
    ensures var r := AddrToString(a);
      && |r| > |a.host| + 1 && r[..|a.host|] == a.host && r[|a.host|] == ':'
      && Decimal.AllDigits(r[|a.host| + 1..]) && Decimal.Value(r[|a.host| + 1..]) == a.port
  {
    var r := AddrToString(a);
    Decimal.ValueOfDigits(a.port);
    assert r[|a.host| + 1..] == Decimal.Digits(a.port);
  }
}
