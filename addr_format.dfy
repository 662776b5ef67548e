/**
 src/participant/utils.rs: `ToSocketAddr` and `format_list_of_addrs`, the
 text the node logs when it names a list of peers.
 */
module AddrFormat {
  import opened Net
  import opened Text

  /**
   The four `ToSocketAddr` implementors. A reference and the value it points
   to give the same address, so `&SocketAddr` is `OfSocketAddr` and
   `&Endpoint` is `OfEndpoint`.
   */
  datatype AddrSource = OfSocketAddr(addr: SocketAddr) | OfEndpoint(endpoint: Endpoint)

  /** `get_addr`: the identity on addresses, the remote address of an endpoint. */
  function GetAddr(x: AddrSource): (a: SocketAddr)
    ensures x.OfSocketAddr? ==> a == x.addr
    ensures x.OfEndpoint? ==> a == Addr(x.endpoint)
  {
    match x
    case OfSocketAddr(a) => a
    case OfEndpoint(e) => Addr(e)
  }

  /** `format!("\"{}\"", addr)`. */
  function Quote(a: SocketAddr): string {
    "\"" + AddrToString(a) + "\""
  }

  /** The quoted text is the address between two `"`. */
  lemma QuoteReadsBack(a: SocketAddr)
    ensures var q := Quote(a);
      && |q| == |AddrToString(a)| + 2 && q[0] == '"' && q[|q| - 1] == '"'
      && q[1..|q| - 1] == AddrToString(a)
  {
  }

  /** The combined length of the parts. */
  function TotalLength(parts: seq<string>): nat {
    if parts == [] then 0 else |parts[0]| + TotalLength(parts[1..])
  }

  /** `[String]::join(sep)`: the parts with one separator between each two. */
  function Join(parts: seq<string>, sep: string): (r: string)
    ensures |parts| == 0 ==> r == ""
    ensures |parts| > 0 ==> |r| == TotalLength(parts) + (|parts| - 1) * |sep|
  {
    if |parts| == 0 then ""
    else if |parts| == 1 then parts[0]
    else parts[0] + sep + Join(parts[1..], sep)
  }

  function Quoted(items: seq<AddrSource>): (r: seq<string>)
    ensures |r| == |items|
    ensures forall k :: 0 <= k < |items| ==> r[k] == Quote(GetAddr(items[k]))
  {
    seq(|items|, k requires 0 <= k < |items| => Quote(GetAddr(items[k])))
  }

  /** `format_list_of_addrs`. */
  function FormatListOfAddrs(items: seq<AddrSource>): (r: string)
    ensures |items| == 0 ==> r == "[no one]"
    ensures |items| > 0 ==> |r| >= 4 && r[0] == '[' && r[1] == '"' && r[|r| - 1] == ']'
    ensures |items| > 0 ==> r != "[no one]"
  {
    if |items| == 0 then "[no one]"
    else
      var parts := Quoted(items);
      JoinStartsWithFirst(parts, ", ");
      var r := "[" + Join(parts, ", ") + "]";
      assert r[1] == Join(parts, ", ")[0] == parts[0][0] == '"';
      assert "[no one]"[1] == 'n';
      r
  }

  lemma {:induction false} JoinStartsWithFirst(parts: seq<string>, sep: string)
    requires |parts| >= 1
    ensures |Join(parts, sep)| >= |parts[0]|
    ensures Join(parts, sep)[..|parts[0]|] == parts[0]
  {
    if |parts| > 1 {
      var j := Join(parts, sep);
      assert j == parts[0] + (sep + Join(parts[1..], sep));
    }
  }

  /** Joining one more part appends the separator and the part. */
  lemma {:induction false} JoinSnoc(parts: seq<string>, p: string, sep: string)
    requires |parts| >= 1
    ensures Join(parts + [p], sep) == Join(parts, sep) + sep + p
    decreases |parts|
  {
    var ps := parts + [p];
    if |parts| == 1 {
      assert ps[1..] == [p];
    } else {
      assert ps[1..] == parts[1..] + [p];
      JoinSnoc(parts[1..], p, sep);
    }
  }

  /** A single address prints as `["<addr>"]`. */
  lemma FormatSingle(x: AddrSource)
    ensures FormatListOfAddrs([x]) == "[\"" + AddrToString(GetAddr(x)) + "\"]"
  {
  }

  /**
   The addresses are printed quoted and in input order: one more address
   adds `, "<addr>"` before the closing bracket.
   */
  lemma FormatAppend(items: seq<AddrSource>, x: AddrSource)
    requires |items| >= 1
    ensures var r := FormatListOfAddrs(items);
      FormatListOfAddrs(items + [x]) == r[..|r| - 1] + ", " + Quote(GetAddr(x)) + "]"
  {
    var ps := Quoted(items);
    var q := Quote(GetAddr(x));
    assert Quoted(items + [x]) == ps + [q];
    JoinSnoc(ps, q, ", ");
    Bracketed("[", Join(ps, ", "), ", ", q, "]");
  }

  /** Text inserted before the closing bracket of `open + j + close`. */
  lemma Bracketed(open: string, j: string, sep: string, q: string, close: string)
    ensures var r := open + j + close;
      && r[..|open| + |j|] == open + j
      && open + (j + sep + q) + close == r[..|open| + |j|] + sep + q + close
  {
    var r := open + j + close;
    assert r[..|open| + |j|] == open + j;
  }

  /** Every address of the list appears quoted in the output. */
  lemma FormatMentions(items: seq<AddrSource>, k: nat)
    requires k < |items|
    ensures Contains(FormatListOfAddrs(items), Quote(GetAddr(items[k])))
  {
    var parts := Quoted(items);
    var i := JoinPosition(parts, ", ", k);
    var r := FormatListOfAddrs(items);
    assert r == "[" + Join(parts, ", ") + "]";
    assert r[i + 1..i + 1 + |parts[k]|] == Join(parts, ", ")[i..i + |parts[k]|];
    assert OccursAt(r, parts[k], i + 1);
  }

  /** Where the k-th part lies in the joined text. */
  lemma {:induction false} JoinPosition(parts: seq<string>, sep: string, k: nat) returns (i: nat)
    requires k < |parts|
    ensures i + |parts[k]| <= |Join(parts, sep)|
    ensures Join(parts, sep)[i..i + |parts[k]|] == parts[k]
    decreases |parts|
  {
    var j := Join(parts, sep);
    if |parts| == 1 {
      i := 0;
      assert j == parts[0];
    } else if k == 0 {
      JoinStartsWithFirst(parts, sep);
      i := 0;
    } else {
      var i' := JoinPosition(parts[1..], sep, k - 1);
      var prefix := parts[0] + sep;
      assert j == prefix + Join(parts[1..], sep);
      i := |prefix| + i';
      assert j[i..i + |parts[k]|] == Join(parts[1..], sep)[i'..i' + |parts[k]|];
    }
  }
}
