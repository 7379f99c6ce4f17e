/** The per-node health classification (Main.py lines 119-167). The console
    session `telnet_send` is not modelled: a `Console` gives, for each
    request, the `(ok, output)` pair the session would return, and every
    test reports the requests it made alongside its verdict. */
module Health {
  import opened Wrappers
  import opened Topology
  import opened Parsers

  /** One console session: `command` sent to `host:port`. */
  datatype Request = Request(host: string, port: int, command: string)

  /** What a console session returns: whether it worked, and the text read back. */
  datatype Reply = Reply(ok: bool, out: string)

  type Console = Request -> Reply

  /** The `(ok, msg)` pair a node test returns. */
  datatype Verdict = Verdict(ok: bool, msg: string)

  /** A verdict with the console requests made to reach it, in order. */
  datatype Check = Check(verdict: Verdict, requests: seq<Request>)

  const RouterCommand := "show ip interface brief"
  const VpcsCommand := "show ip"
  const Started := "started"
  const NullAddress := "0.0.0.0"

  const PoweredOff := "Node is powered OFF"
  const VpcsUnreachable := "VPCS console unreachable"
  const VpcsNoIp := "VPCS has NO IP configured"
  const VpcsNoGateway := "VPCS has NO gateway configured"
  const RouterUnreachable := "Router console unreachable"
  const RouterNoIp := "Router has NO IP configured"
  const Ignored := "Node ignored (no IP checks available)"

  /** Every verdict a node test can return. */
  const Table: set<Verdict> := {
    Verdict(false, PoweredOff),
    Verdict(false, VpcsUnreachable), Verdict(false, VpcsNoIp), Verdict(false, VpcsNoGateway),
    Verdict(false, RouterUnreachable), Verdict(false, RouterNoIp),
    Verdict(true, ""), Verdict(true, Ignored)
  }

  /** The request that sends `command` to the node's console. */
  function Ask(node: Node, command: string): Request {
    Request(node.consoleHost, node.console, command)
  }

  /** An address that counts as set: present, non-empty and not `0.0.0.0`. */
  predicate Configured(a: Option<string>) {
    a.Some? && a.value != "" && a.value != NullAddress
  }

  /** `test_router`: one `show ip interface brief`; the router passes when the
      console answers and its output holds any dotted quad at all. */
  function TestRouter(node: Node, console: Console): (r: Check)
    ensures r.requests == [Ask(node, RouterCommand)]
    ensures var reply := console(Ask(node, RouterCommand));
      r.verdict.ok <==> reply.ok && ContainsDottedQuad(reply.out)
    ensures !console(Ask(node, RouterCommand)).ok ==> r.verdict == Verdict(false, RouterUnreachable)
    ensures var reply := console(Ask(node, RouterCommand));
      reply.ok && !ContainsDottedQuad(reply.out) ==> r.verdict == Verdict(false, RouterNoIp)
    ensures r.verdict.ok ==> r.verdict.msg == ""
  {
    var request := Ask(node, RouterCommand);
    var reply := console(request);
    RouterIpsEmptyIff(reply.out);
    if !reply.ok then Check(Verdict(false, RouterUnreachable), [request])
    else if ExtractRouterIps(reply.out) == [] then Check(Verdict(false, RouterNoIp), [request])
    else Check(Verdict(true, ""), [request])
  }

  /** The `not ip` half of the test never fires on a scraped address: a
      dotted quad is never empty, so an address is configured exactly when it
      is present and not `0.0.0.0`. */
  lemma {:induction false} ConfiguredMeansNonNull(s: string)
    ensures var (ip, gw) := ExtractVpcsIpAndGateway(s);
      && (Configured(ip) <==> ip.Some? && ip.value != NullAddress)
      && (Configured(gw) <==> gw.Some? && gw.value != NullAddress)
  {
    var (ip, gw) := ExtractVpcsIpAndGateway(s);
    if ip.Some? {
      var d1: nat, d2: nat, d3: nat :| QuadShape(ip.value, d1, d2, d3);
    }
    if gw.Some? {
      var d1: nat, d2: nat, d3: nat :| QuadShape(gw.value, d1, d2, d3);
    }
  }

  /** `test_vpcs`: one `show ip`; the console, then the address, then the
      gateway are checked, and the first that is missing decides the message. */
  function TestVpcs(node: Node, console: Console): (r: Check)
    ensures r.requests == [Ask(node, VpcsCommand)]
    ensures var reply := console(Ask(node, VpcsCommand));
      var (ip, gw) := ExtractVpcsIpAndGateway(reply.out);
      && (!reply.ok ==> r.verdict == Verdict(false, VpcsUnreachable))
      && (reply.ok && !Configured(ip) ==> r.verdict == Verdict(false, VpcsNoIp))
      && (reply.ok && Configured(ip) && !Configured(gw) ==> r.verdict == Verdict(false, VpcsNoGateway))
      && (reply.ok && Configured(ip) && Configured(gw) ==> r.verdict == Verdict(true, ""))
  {
    var request := Ask(node, VpcsCommand);
    var reply := console(request);
    if !reply.ok then Check(Verdict(false, VpcsUnreachable), [request])
    else
      var (ip, gw) := ExtractVpcsIpAndGateway(reply.out);
      if !Configured(ip) then Check(Verdict(false, VpcsNoIp), [request])
      else if !Configured(gw) then Check(Verdict(false, VpcsNoGateway), [request])
      else Check(Verdict(true, ""), [request])
  }

  /** The three branches of the node-type dispatch. */
  datatype Kind = Vpcs | Router | Other

  function KindOf(nodeType: string): (k: Kind)
    ensures k == Vpcs <==> nodeType == "vpcs"
    ensures k == Router <==> nodeType == "dynamips" || nodeType == "iou"
  {
    if nodeType == "vpcs" then Vpcs
    else if nodeType == "dynamips" || nodeType == "iou" then Router
    else Other
  }

  /** `test_node`: a powered-off node fails without any console session; a
      node of an unknown type passes without one. */
  function TestNode(node: Node, console: Console): (r: Check)
    ensures node.status != Started ==> r == Check(Verdict(false, PoweredOff), [])
    ensures r.requests == [] <==> node.status != Started || KindOf(node.nodeType) == Other
    ensures node.status == Started && KindOf(node.nodeType) == Vpcs ==> r == TestVpcs(node, console)
    ensures node.status == Started && KindOf(node.nodeType) == Router ==> r == TestRouter(node, console)
    ensures node.status == Started && KindOf(node.nodeType) == Other ==> r == Check(Verdict(true, Ignored), [])
  {
    if node.status != Started then Check(Verdict(false, PoweredOff), [])
    else match KindOf(node.nodeType)
      case Vpcs => TestVpcs(node, console)
      case Router => TestRouter(node, console)
      case Other => Check(Verdict(true, Ignored), [])
  }

  /** The classification is closed: every verdict is a row of `Table`, and
      a node passes exactly when its message is empty or the ignored notice. */
  lemma {:induction false} VerdictInTable(node: Node, console: Console)
    ensures TestNode(node, console).verdict in Table
    ensures TestNode(node, console).verdict.ok <==> TestNode(node, console).verdict.msg in {"", Ignored}
  {
  }

  /** A node test reads the console only through the requests it reports:
      two consoles that answer those alike give the same outcome. */
  lemma {:induction false} ConsoleOnlyThroughRequests(node: Node, c1: Console, c2: Console)
    requires forall q :: q in TestNode(node, c1).requests ==> c1(q) == c2(q)
    ensures TestNode(node, c1) == TestNode(node, c2)
  {
    if node.status == Started && KindOf(node.nodeType) != Other {
      assert TestNode(node, c1).requests[0] in TestNode(node, c1).requests;
    }
  }

  /** A router whose only address is `0.0.0.0` still passes: any dotted quad
      in the interface listing counts. */
  lemma {:induction false} RouterNullAddressPasses(node: Node, console: Console)
    requires node.status == Started && node.nodeType in {"dynamips", "iou"}
    requires console(Ask(node, RouterCommand)) == Reply(true, NullAddress)
    ensures TestNode(node, console).verdict == Verdict(true, "")
  {
    var x := NullAddress;
    assert QuadShape(x[0..|x|], 1, 3, 5);
  }

  /** A VPCS reporting `0.0.0.0` as its address fails the address check, even
      with a gateway set. */
  lemma {:induction false} VpcsNullAddressFails(node: Node, console: Console)
    requires node.status == Started && node.nodeType == "vpcs"
    requires console(Ask(node, VpcsCommand)).ok
    requires ExtractVpcsIpAndGateway(console(Ask(node, VpcsCommand)).out).0 == Some(NullAddress)
    ensures TestNode(node, console).verdict == Verdict(false, VpcsNoIp)
  {
  }

  /** A VPCS passes only when its `show ip` output has both an `IP/MASK` line
      and a `GATEWAY` line; with no `IP/MASK` line it fails on the address,
      whatever else the output says. */
  lemma {:induction false} VpcsNeedsBothLines(node: Node, console: Console)
    requires node.status == Started && node.nodeType == "vpcs"
    ensures var out := console(Ask(node, VpcsCommand)).out;
      TestNode(node, console).verdict.ok ==>
        && (exists p :: 0 <= p <= |out| && LabelledMatch(out, p, IpLabel))
        && (exists p :: 0 <= p <= |out| && LabelledMatch(out, p, GatewayLabel))
    ensures var reply := console(Ask(node, VpcsCommand));
      reply.ok && (forall p :: 0 <= p <= |reply.out| ==> !LabelledMatch(reply.out, p, IpLabel)) ==>
        TestNode(node, console).verdict == Verdict(false, VpcsNoIp)
  {
    GatewayIndependentOfIp(console(Ask(node, VpcsCommand)).out);
  }
}
