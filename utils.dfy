/**
 src/utils.rs: an uncompiled copy of src/participant/utils.rs, with
 its own `ToSocketAddr` trait and `format_list_of_addrs`. The code is the
 same, so the same text comes out; the lemmas about `AddrFormat` carry over.
 */
module Utils {
  import opened Net
  import AddrFormat

  /** `get_addr` of this file's `ToSocketAddr` impls. */
  function GetAddr(x: AddrFormat.AddrSource): (a: SocketAddr)
    ensures x.OfSocketAddr? ==> a == x.addr
    ensures x.OfEndpoint? ==> a == Addr(x.endpoint)
    ensures a == AddrFormat.GetAddr(x)
  {
    match x
    case OfSocketAddr(a) => a
    case OfEndpoint(e) => Addr(e)
  }

  /** `format_list_of_addrs` of this file. */
  function FormatListOfAddrs(items: seq<AddrFormat.AddrSource>): (r: string)
    ensures |items| == 0 ==> r == "[no one]"
    ensures |items| > 0 ==> |r| >= 4 && r[0] == '[' && r[1] == '"' && r[|r| - 1] == ']'
    ensures |items| > 0 ==> r != "[no one]"
    ensures r == AddrFormat.FormatListOfAddrs(items)
  {
    if |items| == 0 then "[no one]"
    else
      var quoted := seq(|items|, k requires 0 <= k < |items| => "\"" + AddrToString(GetAddr(items[k])) + "\"");
      assert quoted == AddrFormat.Quoted(items);
      "[" + AddrFormat.Join(quoted, ", ") + "]"
  }
}
