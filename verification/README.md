# GNS3 path diagnosis: a Dafny model of its core

`Main.py` is a diagnostic tool for a GNS3 network lab. It reads the lab's
node inventory and link list. It builds an adjacency map and finds a
fewest-hops path between two nodes by breadth-first search. It then walks
that path, logging into each node's console and classifying the node as
powered off, unreachable, missing an address or gateway, healthy, or
ignored. It stops at the first node that fails.

This project models that pipeline as pure Dafny definitions and proves what
each step promises. It has one module per stage:

- `Wrappers` (`wrappers.dfy`) holds `Option` and `Result`.
- `Topology` (`topology.dfy`) models the inventory records and `build_graph`.
  - The inventory is a `seq<Node>`: the name-keyed dictionary's items in insertion order.
  - A link is the list of its endpoints' node ids.
  - An endpoint id that no node carries makes the build fail, because the `next(...)` has no default.
- `PathFinder` (`pathfinder.dfy`) models `bfs_path` as a method with a `while` loop over a queue sequence.
  - The `KeyError` raised when a dequeued node is not a key of the map becomes the `MissingNode` error.
  - A ghost out-parameter records every enqueued name, so the enqueue bounds can be stated.
- `Parsers` (`parsers.dfy`) models the two regular-expression scrapers with a deterministic scanner.
  - Each digit run and whitespace run is the longest one available. The class after each run (`.`, `:`, a digit) is disjoint from the run's class, so the regex engine's backtracking can never pick a shorter run that still matches.
  - The scanner is tied to a declarative description of a match (`DottedQuad`, `LabelledMatch`) by soundness and completeness lemmas.
- `Health` (`health.dfy`) models `test_router`, `test_vpcs` and `test_node`.
  - The console session is a parameter `console: Request -> Reply`.
  - Each test returns its verdict together with the requests it sent.
- `PathCheck` (`pathcheck.dfy`) models `check_path`. It is a method that returns the boolean verdict and the tests it ran, in order.

## Model

| member | source | states |
|---|---|---|
| `Topology.FirstWithId` | Main.py:49-50 | The generator's first hit: the first node in inventory order whose `node_id` matches. It is `None` exactly when no node matches, which is where `next` raises. |
| `Topology.Resolve` | Main.py:49-50 | An endpoint id resolves to the name of the first node, in inventory order, whose `node_id` is that id. It fails to resolve exactly when no node carries the id. |
| `Topology.AddLink` | Main.py:43-53 | One loop iteration keeps the key set. Each old neighbour list is a prefix of its new list, which is at most two entries longer, and every added entry is a node name. |
| `Topology.BuildGraph` | Main.py:39-55 | The keys are exactly the node names, and every neighbour entry is a node name. |
| `Topology.AddLinkCount` | Main.py:52-53 | One link adds to `a`'s list one entry `b` per orientation in which it joins `a` to `b`. A self-loop therefore adds two. |
| `Topology.NeighbourCounts` | Main.py:40-53 | `b` occurs in `a`'s list exactly as often as link ends join `a` to `b`. Parallel links are not deduplicated. |
| `Topology.EdgeCountSymmetric` | Main.py:52-53 | The link-end count from `a` to `b` equals the count from `b` to `a`. |
| `Topology.GraphSymmetric` | Main.py:52-53 | The built map is symmetric, counting duplicates: `b` occurs in `a`'s list as often as `a` occurs in `b`'s. |
| `Topology.BuildGraphFailure` | Main.py:46-50 | The build fails exactly when some two-endpoint link has an id that resolves to no node. The error names that id in the first such link, first endpoint first. |
| `Topology.MalformedLinkIgnored` | Main.py:43-44 | Deleting a link whose endpoint list does not have exactly two entries leaves the outcome unchanged. |
| `PathFinder.Expand` | Main.py:68-71 | The neighbour loop adds every neighbour to `visited`. It enqueues exactly one entry for each neighbour not visited before, and no other, with the current path extended by that neighbour. |
| `PathFinder.ExpandOrder` | Main.py:68-71 | The entries are enqueued in the order their names first occur in the neighbour list. Together with `Expand`, this fixes the queue extension exactly, and so which of several shortest paths is returned. |
| `PathFinder.BfsPath` | Main.py:58-73 | If `start == goal` the result is `[start]`. A dequeued node that is not a key fails with a lookup error, so an unknown `start` fails when `start != goal`. On a closed map with `start` a key there is no error. A returned path is a walk from `start` to `goal` and no walk between them is shorter. `None` means `goal` is unreachable. Every name other than `start` is enqueued at most once, and `start` at most twice. |
| `PathFinder.GoalFound` | Main.py:63-66 | When the goal is dequeued, its recorded path is a shortest walk from `start`. |
| `PathFinder.Exhausted` | Main.py:62-73 | When the queue runs empty, `goal` is not reachable from `start`. |
| `PathFinder.ShortestWalkIsSimple` | Main.py:58-73 | A shortest walk, and so every returned path, repeats no node. |
| `Parsers.DigitRunEnd` | Main.py:99 | `\d+` takes the longest run of ASCII digits. |
| `Parsers.SpaceRunEnd` | Main.py:109-110 | `\s*` takes the longest whitespace run, and the character after it is not whitespace. |
| `Parsers.DotRunEnd` | Main.py:99 | `\.\d+` matches only at a dot followed by at least one digit, and takes every digit that follows. |
| `Parsers.QuadEnd` | Main.py:99 | A match of `\d+\.\d+\.\d+\.\d+` at a position ends inside the text, after that position, and never just before a digit: the greedy last run takes every digit. |
| `Parsers.QuadEndSound` | Main.py:99 | Whatever the scanner matches is four non-empty digit runs joined by single dots. |
| `Parsers.QuadEndComplete` | Main.py:99 | Every dotted quad in the text is matched by the scanner started at its first character. The match ends exactly at the quad's end when no digit follows it. |
| `Parsers.QuadSpans` | Main.py:99 | The `findall` spans are real matches, in left-to-right order and non-overlapping. No match starts at a position that they leave uncovered. |
| `Parsers.ExtractRouterIps` | Main.py:94-100 | The k-th string returned is the text of the k-th `findall` span, and it is a dotted quad. There is one string per span. |
| `Parsers.SpansStep` | Main.py:99 | Where no match starts, `findall` resumes at the next position with the same result. |
| `Parsers.RouterIpsEmptyIff` | Main.py:99-100 | The list is empty exactly when no substring of the output is a dotted quad. |
| `Parsers.RouterIpsNeedDigits` | Main.py:99 | Output without a digit yields the empty list. |
| `Parsers.NoIpAddressLine` | Main.py:99 | The line `no ip address` yields the empty list. |
| `Parsers.LabelledQuadAt` | Main.py:109-110 | A hit at `p` has the label at `p`, whitespace, a colon and whitespace, and then a scanner match of the dotted quad. |
| `Parsers.LabelledQuadAtSound` | Main.py:109-110 | A hit at `p` is a match of `LABEL\s*:\s*(quad)`, and its capture is a dotted quad. |
| `Parsers.LabelledQuadAtComplete` | Main.py:109-110 | Wherever `LABEL\s*:\s*quad` matches, the scanner finds a hit. |
| `Parsers.LabelledQuadAtIff` | Main.py:109-110 | The scanner hits at `p` exactly when the pattern matches at `p`. |
| `Parsers.FirstLabelled` | Main.py:109-110 | `re.search` stops at the first position where the pattern matches, and at no earlier one. |
| `Parsers.Capture` | Main.py:112-113 | `group(1)` exists exactly when the pattern matches at that position. It is the dotted quad right after `LABEL\s*:\s*`, with its last digit run taken to the end. |
| `Parsers.CaptureDetermined` | Main.py:109-113 | Any layout of label, spaces, colon, spaces and a greedy quad at a position is the one the capture returns, so the captured text is fixed by the input. |
| `Parsers.SearchLabelled` | Main.py:109-113 | A found address is a dotted quad. |
| `Parsers.SearchLabelledLeftmost` | Main.py:109-113 | The result is `None` exactly when the pattern matches nowhere. Otherwise it is the capture at the leftmost matching position. |
| `Parsers.SearchAtLeftmost` | Main.py:109-113 | Where the pattern matches and matches at no earlier position, the search returns the capture there. |
| `Parsers.ExtractVpcsIpAndGateway` | Main.py:103-114 | Each component is `None` exactly when its label's pattern matches nowhere. Otherwise it is the capture at the leftmost position where its own pattern matches, a dotted quad. |
| `Parsers.LabelAbsent` | Main.py:109-110 | Labels match literally: if the label's first character never occurs, the result is `None`. |
| `Parsers.NoMatchBefore` | Main.py:109-110 | A label matches literally, so no match starts before the first occurrence of its first character. |
| `Parsers.LowerCaseLabelIgnored` | Main.py:109 | `ip/mask : 10.0.0.2/24` gives no address, because the label is case-sensitive. |
| `Parsers.GatewayIndependentOfIp` | Main.py:109-114 | The gateway is found exactly when some `GATEWAY` line matches, and the address exactly when some `IP/MASK` line matches. Each holds regardless of the other. |
| `Parsers.VpcsSampleExtract` | Main.py:103-114 | `IP/MASK: 10.0.0.5/24 GATEWAY: 10.0.0.1` gives the address `10.0.0.5`, which stops before `/24`, and the gateway `10.0.0.1`. |
| `Parsers.RouterSampleExtract` | Main.py:94-100 | `Gi0/0  192.168.1.1  YES` gives exactly `["192.168.1.1"]`. The digits of the interface name are not an address. |
| `Health.TestRouter` | Main.py:119-132 | Sends exactly one `show ip interface brief`. Passes exactly when the console answers and its output holds any dotted quad. Otherwise the message is "Router console unreachable" or "Router has NO IP configured", in that order of checks. |
| `Health.TestVpcs` | Main.py:135-152 | Sends exactly one `show ip`. The console is checked first, then the address (missing or `0.0.0.0`), then the gateway (missing or `0.0.0.0`). The first failure gives its message; otherwise `(True, "")`. |
| `Health.ConfiguredMeansNonNull` | Main.py:146-149 | A scraped address is never empty, so the `not ip` and `not gw` tests reduce to absence. An address counts as set exactly when it is present and not `0.0.0.0`. |
| `Health.KindOf` | Main.py:159-165 | Type `vpcs` goes to the VPCS test, and `dynamips` or `iou` to the router test. |
| `Health.TestNode` | Main.py:155-167 | A node not `started` gets `(False, "Node is powered OFF")` without any console request. A node of another type passes with the ignored notice, also without one. The rest are dispatched by type. |
| `Health.VerdictInTable` | Main.py:119-167 | Every verdict is one of the eight rows of the classification. A node passes exactly when its message is empty or the ignored notice. |
| `Health.ConsoleOnlyThroughRequests` | Main.py:123-167 | Two consoles that answer the reported requests alike give the same result. |
| `Health.RouterNullAddressPasses` | Main.py:128-132 | A started router whose listing is just `0.0.0.0` passes. |
| `Health.VpcsNullAddressFails` | Main.py:146-147 | A VPCS whose address is `0.0.0.0` fails with "VPCS has NO IP configured". |
| `Health.VpcsNeedsBothLines` | Main.py:143-150 | A passing VPCS output has both an `IP/MASK` match and a `GATEWAY` match. Output with no `IP/MASK` match fails on the address. |
| `PathCheck.Lookup` | Main.py:177 | `nodes[name]` finds a node with that name, and fails exactly when no node has the name. |
| `PathCheck.CheckPath` | Main.py:172-188 | Healthy exactly when every node on the path is known and passes. The tests run in path order over a prefix of the path. On failure, the last test failed and all earlier ones passed. An unknown name raises only after every node before it has passed. |

## Left out

- `telnet_send` (Main.py:78-89) opens a telnet session, sleeps and swallows exceptions. Only its `(ok, output)` result is modelled, as the `console` parameter.
- `get_nodes`, `get_links` and `find_project` (Main.py:18-36) are HTTP and library calls to the GNS3 server. Their results are the model's inputs.
- `main` (Main.py:193-224) does argument parsing and calls the steps in order with two fixed node names.
- Every `print` in `check_path` is left out. The report keeps only the boolean and the sequence of tests run.
- Python's `\d` and `\s` on a `str` pattern also match non-ASCII digits and whitespace, such as U+0085 and U+00A0. The model covers ASCII only. That is `0`-`9` for `\d`. For `\s` it is space, tab, line feed, vertical tab, form feed, carriage return and the separators U+001C to U+001F. Decoding of console bytes is not modelled.
- An unknown `goal` is not an error: the search runs out and yields `None`. An unknown `start` raises only when it differs from `goal`. The model does the same.
- Parallel links give duplicate neighbour entries, one per link end, and the model keeps them.
- `PathFinder.BfsPath` states termination through its `decreases` clause and the enqueue bounds. It does not state the running time.

## Assumptions

- Node names are distinct because the inventory is a dictionary's items. `PathCheck.Lookup` takes the first node with a given name, which is then the only one.
