/** `check_path` (Main.py lines 172-188): the nodes of a path are tested in
    order and the walk stops at the first node that fails. The printed
    progress lines are not modelled; the report keeps, for each node tested,
    its name and its check. */
module PathCheck {
  import opened Wrappers
  import opened Topology
  import opened Health

  /** `nodes[name]`. The inventory holds a dictionary's items, so no two
      nodes share a name; the first node carrying `name` is the one filed
      under it. */
  function Lookup(nodes: seq<Node>, name: Name): (r: Option<Node>)
    ensures r.Some? ==> r.value.name == name && exists i :: 0 <= i < |nodes| && nodes[i] == r.value
    ensures r.None? <==> name !in Names(nodes)
  {
    if |nodes| == 0 then None
    else if nodes[0].name == name then Some(nodes[0])
    else
      assert Names(nodes) == {nodes[0].name} + Names(nodes[1..]) by {
        forall n | n in Names(nodes) ensures n in {nodes[0].name} + Names(nodes[1..]) {
          var i :| 0 <= i < |nodes| && nodes[i].name == n;
          if i > 0 {
            assert nodes[1..][i - 1] == nodes[i];
          }
        }
        forall n | n in Names(nodes[1..]) ensures n in Names(nodes) {
          var i :| 0 <= i < |nodes[1..]| && nodes[1..][i].name == n;
          assert nodes[i + 1] == nodes[1..][i];
        }
      }
      var r := Lookup(nodes[1..], name);
      if r.Some? then
        var i :| 0 <= i < |nodes[1..]| && nodes[1..][i] == r.value;
        assert nodes[i + 1] == r.value;
        r
      else r
  }

  datatype LookupError = UnknownNode(name: Name)

  /** One tested node: its name and the outcome of `test_node`. */
  datatype Step = Step(name: Name, check: Check)

  /** The boolean `check_path` returns and the tests it ran, in order. */
  datatype Report = Report(healthy: bool, steps: seq<Step>)

  /** `name` is a known node that passes its test. */
  predicate Passes(nodes: seq<Node>, console: Console, name: Name) {
    Lookup(nodes, name).Some? && TestNode(Lookup(nodes, name).value, console).verdict.ok
  }

  /** `steps` are the tests of the first `|steps|` nodes of `path`, in path order. */
  predicate Tested(path: seq<Name>, nodes: seq<Node>, console: Console, steps: seq<Step>) {
    && |steps| <= |path|
    && forall k :: 0 <= k < |steps| ==>
      && steps[k].name == path[k]
      && Lookup(nodes, path[k]).Some?
      && steps[k].check == TestNode(Lookup(nodes, path[k]).value, console)
  }

  /** Testing the next node of the path extends the tested prefix. */
  lemma TestedStep(path: seq<Name>, nodes: seq<Node>, console: Console, steps: seq<Step>)
    requires Tested(path, nodes, console, steps) && |steps| < |path|
    requires Lookup(nodes, path[|steps|]).Some?
    ensures Tested(path, nodes, console,
      steps + [Step(path[|steps|], TestNode(Lookup(nodes, path[|steps|]).value, console))])
  {
  }

  /** `check_path`: healthy exactly when every node on the path is known and
      passes; otherwise the tests stop at the first failing node, or the
      lookup of the first unknown node raises, with every node before it
      passing. */
  method CheckPath(path: seq<Name>, nodes: seq<Node>, console: Console) returns (r: Result<Report, LookupError>)
    ensures (r.Success? && r.value.healthy) <==> forall k :: 0 <= k < |path| ==> Passes(nodes, console, path[k])
    ensures r.Success? ==> Tested(path, nodes, console, r.value.steps)
    ensures r.Success? && r.value.healthy ==> |r.value.steps| == |path|
    ensures r.Success? && !r.value.healthy ==>
      var n := |r.value.steps|;
      && n > 0
      && !r.value.steps[n - 1].check.verdict.ok
      && forall k :: 0 <= k < n - 1 ==> r.value.steps[k].check.verdict.ok
    ensures r.Failure? ==>
      exists k :: 0 <= k < |path| && path[k] == r.error.name && Lookup(nodes, path[k]).None?
        && forall j :: 0 <= j < k ==> Passes(nodes, console, path[j])
  {
    var steps: seq<Step> := [];
    var i := 0;
    while i < |path|
      invariant i <= |path| && |steps| == i
      invariant Tested(path, nodes, console, steps)
      invariant forall k :: 0 <= k < i ==> Passes(nodes, console, path[k])
    {
      var found := Lookup(nodes, path[i]);
      if found.None? {
        assert Lookup(nodes, path[i]).None? && forall j :: 0 <= j < i ==> Passes(nodes, console, path[j]);
        return Failure(UnknownNode(path[i]));
      }
      var check := TestNode(found.value, console);
      TestedStep(path, nodes, console, steps);
      steps := steps + [Step(path[i], check)];
      if !check.verdict.ok {
        return Success(Report(false, steps));
      }
      i := i + 1;
    }
    return Success(Report(true, steps));
  }
}
