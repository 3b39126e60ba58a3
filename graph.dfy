/** The graph manager: an id registry over a parsed node forest. The first
    node seen with an id is registered; every later node with that id is
    merged into it (params overridden, body appended, tags united) and the
    registered node takes its place in the processed forest.

    Nodes are objects the manager updates in place and shares between the
    registry and the forest, so they are modelled as records in a store,
    addressed by their index; a body, the registry and a `from`/`to` param
    hold such references. */
module KrakoaGraph {
  import opened KrakoaValues

  /** A param: a plain value, or a reference to a node (`from`, `to`). */
  datatype Param = Plain(v: Value) | Ref(r: nat)

  /** A node: its type, its params, its body (references to child nodes)
      and its tags (`null` when there are none). */
  datatype GNode = GNode(kind: string, params: map<string, Param>, body: seq<nat>, tags: Option<seq<string>>)

  /** The manager's state: the node store and the registry from ids to nodes. */
  datatype Graph = Graph(nodes: seq<GNode>, registry: map<Param, nat>)

  predicate Truthful(p: Param) {
    p.Ref? || Truthy(p.v)
  }

  /** `params && params.id`, when truthy. */
  function IdOf(n: GNode): Option<Param> {
    if "id" in n.params && Truthful(n.params["id"]) then Some(n.params["id"]) else None
  }

  predicate RefsIn(list: seq<nat>, size: nat) {
    forall i :: 0 <= i < |list| ==> list[i] < size
  }

  predicate NodeClosed(n: GNode, size: nat) {
    RefsIn(n.body, size) && forall k :: k in n.params && n.params[k].Ref? ==> n.params[k].r < size
  }

  /** Every reference the state holds names a node of the store, and the
      registry files each node under the node's own id. */
  predicate Closed(g: Graph) {
    (forall id :: id in g.registry ==> g.registry[id] < |g.nodes| && IdOf(g.nodes[g.registry[id]]) == Some(id))
    && forall r :: 0 <= r < |g.nodes| ==> NodeClosed(g.nodes[r], |g.nodes|)
  }

  /** How processing may change a state: no node is created, no node's id
      changes, registered ids keep their node, and references stay closed. */
  predicate Evolves(g: Graph, h: Graph) {
    && |h.nodes| == |g.nodes|
    && Closed(h)
    && (forall r :: 0 <= r < |g.nodes| ==> IdOf(h.nodes[r]) == IdOf(g.nodes[r]))
    && (forall id :: id in g.registry ==> id in h.registry && h.registry[id] == g.registry[id])
  }

  lemma EvolvesTrans(g: Graph, h: Graph, k: Graph)
    requires Evolves(g, h) && Evolves(h, k)
    ensures Evolves(g, k)
  {
  }

  /** `Array.from(new Set(tags))`: the tags without repeats, each where it first occurs. */
  function Dedupe(s: seq<string>): (d: seq<string>)
    decreases |s|
  {
    if s == [] then []
    else
      var front := Dedupe(s[..|s| - 1]);
      if s[|s| - 1] in front then front else front + [s[|s| - 1]]
  }

  /** The deduplicated tags hold every tag once, and in the order of first occurrence. */
  lemma {:induction false} DedupeFacts(s: seq<string>)
    ensures var d := Dedupe(s);
            && (forall x :: x in d <==> x in s)
            && (forall i, j :: 0 <= i < j < |d| ==> d[i] != d[j])
            && (forall i, j :: 0 <= i < j < |d| ==> FirstIndex(s, d[i]) < FirstIndex(s, d[j]))
    decreases |s|
  {
    if s != [] {
      var front := s[..|s| - 1];
      var x := s[|s| - 1];
      DedupeFacts(front);
      assert s == front + [x];
      var d := Dedupe(s);
      forall y | y in front
        ensures FirstIndex(s, y) == FirstIndex(front, y)
      {
        FirstIndexSnoc(front, x, y);
      }
      if x !in front {
        assert FirstIndex(s, x) == |front| by {
          assert s[..|front|] == front;
        }
      }
    }
  }

  /** `mergeNodes(target, source)`. */
  function Merge(g: Graph, t: nat, s: nat): (h: Graph)
    requires t < |g.nodes| && s < |g.nodes|
    ensures h.registry == g.registry && |h.nodes| == |g.nodes|
    ensures forall i :: 0 <= i < |g.nodes| && i != t ==> h.nodes[i] == g.nodes[i]
  {
    var T := g.nodes[t];
    var S := g.nodes[s];
    var body := if |S.body| > 0 then T.body + S.body else T.body;
    var tags := if S.tags.Some? then Some(Dedupe((if T.tags.Some? then T.tags.value else []) + S.tags.value)) else T.tags;
    g.(nodes := g.nodes[t := T.(params := T.params + S.params, body := body, tags := tags)])
  }

  /** Merging changes only the target: its params are overridden key by key
      by the source's, its body is followed by a non-empty source body, and
      its tags become the union with the source's tags, without repeats. */
  lemma MergeFacts(g: Graph, t: nat, s: nat)
    requires t < |g.nodes| && s < |g.nodes|
    ensures var h := Merge(g, t, s);
            var T := g.nodes[t];
            var S := g.nodes[s];
            && h.registry == g.registry && |h.nodes| == |g.nodes|
            && (forall r :: 0 <= r < |g.nodes| && r != t ==> h.nodes[r] == g.nodes[r])
            && h.nodes[t].kind == T.kind
            && (forall k :: k in h.nodes[t].params <==> k in T.params || k in S.params)
            && (forall k :: k in S.params ==> h.nodes[t].params[k] == S.params[k])
            && (forall k :: k in T.params && k !in S.params ==> h.nodes[t].params[k] == T.params[k])
            && h.nodes[t].body == (if |S.body| > 0 then T.body + S.body else T.body)
            && (S.tags.None? ==> h.nodes[t].tags == T.tags)
            && (S.tags.Some? ==>
                  (&& h.nodes[t].tags.Some?
                   && var all := (if T.tags.Some? then T.tags.value else []) + S.tags.value;
                      var d := h.nodes[t].tags.value;
                      && (forall x :: x in d <==> x in all)
                      && (forall i, j :: 0 <= i < j < |d| ==> d[i] != d[j])
                      && (forall i, j :: 0 <= i < j < |d| ==> FirstIndex(all, d[i]) < FirstIndex(all, d[j]))))
  {
    var h := Merge(g, t, s);
    var T := g.nodes[t];
    var S := g.nodes[s];
    var P := T.params + S.params;
    assert h.nodes[t].params == P;
    assert forall k :: k in P <==> k in T.params || k in S.params;
    assert forall k :: k in S.params ==> P[k] == S.params[k];
    assert forall k :: k in T.params && k !in S.params ==> P[k] == T.params[k];
    if S.tags.Some? {
      var all := (if T.tags.Some? then T.tags.value else []) + S.tags.value;
      var d := h.nodes[t].tags.value;
      assert d == Dedupe(all);
      DedupeFacts(all);
      forall i, j | 0 <= i < j < |d|
        ensures d[i] != d[j] && FirstIndex(all, d[i]) < FirstIndex(all, d[j])
      {
        assert Dedupe(all)[i] != Dedupe(all)[j];
      }
    }
  }

  /** Merging a node into a registered node with the same id keeps the state
      closed and every id where it was. */
  lemma MergeEvolves(g: Graph, t: nat, s: nat)
    requires Closed(g) && t < |g.nodes| && s < |g.nodes|
    requires IdOf(g.nodes[t]) == IdOf(g.nodes[s]) && IdOf(g.nodes[s]).Some?
    ensures Evolves(g, Merge(g, t, s))
  {
    var h := Merge(g, t, s);
    assert NodeClosed(h.nodes[t], |g.nodes|);
    assert IdOf(h.nodes[t]) == IdOf(g.nodes[t]);
  }

  /** `resolve(node)`: the registered node for the node's id, or the node
      itself; a plain value's id is `value.params?.id`. */
  function ResolveIn(g: Graph, p: Param): (r: Param)
    requires p.Ref? ==> p.r < |g.nodes|
    ensures p.Ref? && IdOf(g.nodes[p.r]).Some? && IdOf(g.nodes[p.r]).value in g.registry ==>
              r == Ref(g.registry[IdOf(g.nodes[p.r]).value])
    ensures p.Ref? && (IdOf(g.nodes[p.r]).None? || IdOf(g.nodes[p.r]).value !in g.registry) ==> r == p
    ensures p.Plain? ==> var id := Plain(Prop(Prop(p.v, "params"), "id"));
                         r == if Truthful(id) && id in g.registry then Ref(g.registry[id]) else p
    ensures r == p || (r.Ref? && r.r in g.registry.Values)
  {
    var id := match p
              case Ref(n) => (if "id" in g.nodes[n].params then g.nodes[n].params["id"] else Plain(Undefined))
              case Plain(v) => Plain(Prop(Prop(v, "params"), "id"));
    if Truthful(id) && id in g.registry then Ref(g.registry[id]) else p
  }

  /** A node whose id is registered resolves to the registered node; any
      other node resolves to itself. */
  lemma ResolveRegistered(g: Graph, n: nat)
    requires n < |g.nodes|
    ensures IdOf(g.nodes[n]).Some? && IdOf(g.nodes[n]).value in g.registry ==>
              ResolveIn(g, Ref(n)) == Ref(g.registry[IdOf(g.nodes[n]).value])
    ensures IdOf(g.nodes[n]).None? || IdOf(g.nodes[n]).value !in g.registry ==> ResolveIn(g, Ref(n)) == Ref(n)
  {
  }

  /** `if (p.k) p.k = resolve(p.k)`: the param resolved when it is truthy. */
  function ResolveKey(g: Graph, p: map<string, Param>, k: string): (q: map<string, Param>)
    requires Closed(g) && forall x :: x in p && p[x].Ref? ==> p[x].r < |g.nodes|
    ensures q.Keys == p.Keys && forall x :: x in q && x != k ==> q[x] == p[x]
    ensures forall x :: x in q && q[x].Ref? ==> q[x].r < |g.nodes|
    ensures k in p && Truthful(p[k]) ==> q[k] == ResolveIn(g, p[k])
    ensures !(k in p && Truthful(p[k])) ==> q == p
  {
    if k in p && Truthful(p[k]) then p[k := ResolveIn(g, p[k])] else p
  }

  /** A `:trigger` node's truthy `from` and `to` params, resolved in place. */
  function ResolveEnds(g: Graph, a: nat): (h: Graph)
    requires Closed(g) && a < |g.nodes|
    ensures Evolves(g, h)
    ensures h.registry == g.registry && |h.nodes| == |g.nodes|
    ensures forall i :: 0 <= i < |g.nodes| && i != a ==> h.nodes[i] == g.nodes[i]
    ensures var n := g.nodes[a];
            NodeClosed(n, |g.nodes|) && h.nodes[a] == n.(params := ResolveKey(g, ResolveKey(g, n.params, "from"), "to"))
  {
    var n := g.nodes[a];
    assert NodeClosed(n, |g.nodes|);
    var q := ResolveKey(g, ResolveKey(g, n.params, "from"), "to");
    var n' := n.(params := q);
    assert IdOf(n') == IdOf(n);
    assert NodeClosed(n', |g.nodes|);
    var h := g.(nodes := g.nodes[a := n']);
    assert forall r :: 0 <= r < |h.nodes| ==> h.nodes[r] == if r == a then n' else g.nodes[r];
    h
  }

  /** The registry step for node `r`: register it under a new id, or merge it
      into the node registered under a known one. The node to go on with is
      the registered one. */
  function Register(g: Graph, r: nat): (res: (Graph, nat))
    requires Closed(g) && r < |g.nodes|
    ensures Evolves(g, res.0) && res.1 < |g.nodes|
    ensures IdOf(g.nodes[r]).None? ==> res == (g, r)
    ensures IdOf(g.nodes[r]).Some? ==> IdOf(g.nodes[r]).value in res.0.registry
                                       && res.1 == res.0.registry[IdOf(g.nodes[r]).value]
    ensures IdOf(g.nodes[r]).Some? && IdOf(g.nodes[r]).value !in g.registry ==>
              res == (g.(registry := g.registry[IdOf(g.nodes[r]).value := r]), r)
    ensures IdOf(g.nodes[r]).Some? && IdOf(g.nodes[r]).value in g.registry ==>
              res == (Merge(g, g.registry[IdOf(g.nodes[r]).value], r), g.registry[IdOf(g.nodes[r]).value])
  {
    match IdOf(g.nodes[r])
    case None => (g, r)
    case Some(id) =>
      if id !in g.registry then (g.(registry := g.registry[id := r]), r)
      else
        var t := g.registry[id];
        MergeEvolves(g, t, r);
        (Merge(g, t, r), t)
  }

  /** Node `a`'s body replaced by its processed list `b`. */
  function SetBody(g: Graph, a: nat, b: seq<nat>): (h: Graph)
    requires Closed(g) && a < |g.nodes| && RefsIn(b, |g.nodes|)
    ensures Evolves(g, h)
  {
    var h := g.(nodes := g.nodes[a := g.nodes[a].(body := b)]);
    assert NodeClosed(h.nodes[a], |g.nodes|);
    assert IdOf(h.nodes[a]) == IdOf(g.nodes[a]);
    h
  }

  /** The state after processing one node, and the node that takes its
      place (nothing when the recursion ran out). */
  datatype NodeOut = NodeOut(g: Graph, out: Option<nat>)

  /** The state after processing a list, and the processed list. */
  datatype ListOut = ListOut(g: Graph, out: Option<seq<nat>>)

  /** What a node becomes in the processed forest: the node registered under
      its id, or the node itself when it has none. */
  function Expected(h: Graph, n: GNode, r: nat): nat {
    match IdOf(n)
    case None => r
    case Some(id) => if id in h.registry then h.registry[id] else r
  }

  /** The end of the callback: a `:trigger` node gets its ends resolved. */
  function Finish(g: Graph, a: nat): (o: NodeOut)
    requires Closed(g) && a < |g.nodes|
    ensures Evolves(g, o.g) && o.out == Some(a)
    ensures g.nodes[a].kind == ":trigger" ==> o.g == ResolveEnds(g, a)
    ensures g.nodes[a].kind != ":trigger" ==> o.g == g
  {
    if g.nodes[a].kind == ":trigger" then NodeOut(ResolveEnds(g, a), Some(a)) else NodeOut(g, Some(a))
  }

  /** The callback of `process` on node `r`: the registry step, then the
      body of the node it goes on with processed, then `from`/`to` resolved.
      `fuel` bounds how deep the recursion into bodies goes; running out
      stands for the call stack overflowing. */
  function ProcessNode(g: Graph, r: nat, fuel: nat): (o: NodeOut)
    requires Closed(g) && r < |g.nodes|
    ensures Evolves(g, o.g)
    ensures IdOf(g.nodes[r]).Some? ==> IdOf(g.nodes[r]).value in o.g.registry
    ensures o.out.Some? ==> o.out.value < |g.nodes| && o.out.value == Expected(o.g, g.nodes[r], r)
    decreases fuel, 0, 0
  {
    var reg := Register(g, r);
    var g1 := reg.0;
    var a := reg.1;
    var body := g1.nodes[a].body;
    if |body| == 0 then Finish(g1, a)
    else if fuel == 0 then NodeOut(g1, None)
    else
      var sub := ProcessList(g1, body, 0, [], fuel - 1);
      match sub.out
      case None => NodeOut(sub.g, None)
      case Some(b) => Finish(SetBody(sub.g, a, b), a)
  }

  /** `nodes.map(callback)` from index `i` on, with `done` already mapped;
      a recursion that runs out ends the whole list. */
  function ProcessList(g: Graph, list: seq<nat>, i: nat, done: seq<nat>, fuel: nat): (o: ListOut)
    requires Closed(g) && RefsIn(list, |g.nodes|) && i <= |list| && RefsIn(done, |g.nodes|)
    ensures Evolves(g, o.g)
    ensures o.out.Some? ==> |o.out.value| == |done| + |list| - i && RefsIn(o.out.value, |g.nodes|)
                            && o.out.value[..|done|] == done
    decreases fuel, 1, |list| - i
  {
    if i == |list| then ListOut(g, Some(done))
    else
      var o := ProcessNode(g, list[i], fuel);
      match o.out
      case None => ListOut(o.g, None)
      case Some(n) =>
        var rest := ProcessList(o.g, list, i + 1, done + [n], fuel);
        assert rest.out.Some? ==> rest.out.value[..|done|] == (done + [n])[..|done|];
        rest
  }

  /** Every processed entry is what its node became: the node registered
      under its id in the final state, or the node itself when it has none. */
  lemma {:induction false} ProcessListOutputs(g: Graph, list: seq<nat>, i: nat, done: seq<nat>, fuel: nat)
    requires Closed(g) && RefsIn(list, |g.nodes|) && i <= |list| && RefsIn(done, |g.nodes|)
    ensures var o := ProcessList(g, list, i, done, fuel);
            o.out.Some? ==> Settled(o.out.value[|done|..], o.g, g, list[i..])
    decreases |list| - i
  {
    var o := ProcessList(g, list, i, done, fuel);
    if i < |list| && o.out.Some? {
      ProcessListUnfold(g, list, i, done, fuel);
      var one := ProcessNode(g, list[i], fuel);
      var n := one.out.value;
      var done' := done + [n];
      ProcessListOutputs(one.g, list, i + 1, done', fuel);
      var out := o.out.value;
      SettledStep(out[|done|..], o.g, one.g, g, list[i..]);
    }
  }

  /** Adding an entry in front: `out[0]` is what `list[0]` became in the
      intermediate state `h1`, which the final state `h` evolves from. */
  lemma SettledStep(out: seq<nat>, h: Graph, h1: Graph, g: Graph, list: seq<nat>)
    requires RefsIn(list, |g.nodes|) && |list| > 0 && |out| > 0 && Evolves(h1, h)
    requires |h1.nodes| == |g.nodes| && forall k :: 0 <= k < |g.nodes| ==> IdOf(h1.nodes[k]) == IdOf(g.nodes[k])
    requires IdOf(g.nodes[list[0]]).Some? ==> IdOf(g.nodes[list[0]]).value in h1.registry
    requires out[0] == Expected(h1, g.nodes[list[0]], list[0])
    requires Settled(out[1..], h, h1, list[1..])
    ensures Settled(out, h, g, list)
  {
    ExpectedStable(h1, h, g.nodes[list[0]], list[0]);
    SettledCons(out, h, h1, g, list);
  }

  /** One step of the list: the first entry, then the rest from the state it left. */
  lemma ProcessListUnfold(g: Graph, list: seq<nat>, i: nat, done: seq<nat>, fuel: nat)
    requires Closed(g) && RefsIn(list, |g.nodes|) && i < |list| && RefsIn(done, |g.nodes|)
    requires ProcessList(g, list, i, done, fuel).out.Some?
    ensures var one := ProcessNode(g, list[i], fuel);
            && one.out.Some?
            && ProcessList(g, list, i, done, fuel) == ProcessList(one.g, list, i + 1, done + [one.out.value], fuel)
            && ProcessList(g, list, i, done, fuel).out.value[|done|] == one.out.value
  {
    var one := ProcessNode(g, list[i], fuel);
    var done' := done + [one.out.value];
    var out := ProcessList(one.g, list, i + 1, done', fuel).out.value;
    assert out[..|done'|] == done';
    assert out[|done|] == out[..|done'|][|done|];
  }

  /** Entry by entry, `out` is what the nodes of `list` became in `h`. */
  ghost predicate Settled(out: seq<nat>, h: Graph, g: Graph, list: seq<nat>)
    requires RefsIn(list, |g.nodes|)
  {
    |out| == |list| && forall j :: 0 <= j < |list| ==> out[j] == Expected(h, g.nodes[list[j]], list[j])
  }

  lemma SettledCons(out: seq<nat>, h: Graph, g1: Graph, g: Graph, list: seq<nat>)
    requires RefsIn(list, |g.nodes|) && |g1.nodes| == |g.nodes| && |list| > 0 && |out| > 0
    requires forall k :: 0 <= k < |g.nodes| ==> IdOf(g1.nodes[k]) == IdOf(g.nodes[k])
    requires out[0] == Expected(h, g.nodes[list[0]], list[0])
    requires Settled(out[1..], h, g1, list[1..])
    ensures Settled(out, h, g, list)
  {
    forall j | 0 < j < |list|
      ensures out[j] == Expected(h, g.nodes[list[j]], list[j])
    {
      assert out[1..][j - 1] == Expected(h, g1.nodes[list[1..][j - 1]], list[1..][j - 1]);
    }
  }

  /** Registry entries never change, so what a registered node becomes is settled. */
  lemma ExpectedStable(h1: Graph, h2: Graph, n: GNode, r: nat)
    requires Evolves(h1, h2)
    requires IdOf(n).Some? ==> IdOf(n).value in h1.registry
    ensures Expected(h1, n, r) == Expected(h2, n, r)
  {
  }

  /** `process(list)` maps the list entry by entry: an entry whose node has
      no id stays itself, and entries whose nodes share an id all become the
      one node registered under it. */
  lemma ProcessMapsEntries(g: Graph, list: seq<nat>, fuel: nat)
    requires Closed(g) && RefsIn(list, |g.nodes|)
    ensures var o := ProcessList(g, list, 0, [], fuel);
            o.out.Some? ==>
              && |o.out.value| == |list|
              && (forall j :: 0 <= j < |list| && IdOf(g.nodes[list[j]]).None? ==> o.out.value[j] == list[j])
              && (forall j :: 0 <= j < |list| && IdOf(g.nodes[list[j]]).Some? ==>
                    IdOf(g.nodes[list[j]]).value in o.g.registry
                    && o.out.value[j] == o.g.registry[IdOf(g.nodes[list[j]]).value])
  {
    ProcessListOutputs(g, list, 0, [], fuel);
    var o := ProcessList(g, list, 0, [], fuel);
    if o.out.Some? {
      assert o.out.value[0..] == o.out.value && list[0..] == list;
      assert Settled(o.out.value, o.g, g, list);
      forall j | 0 <= j < |list| && IdOf(g.nodes[list[j]]).Some?
        ensures IdOf(g.nodes[list[j]]).value in o.g.registry
      {
        ProcessListReaches(g, list, 0, [], fuel, j);
      }
    }
  }

  /** Every id met while processing the list ends up in the registry. */
  lemma {:induction false} ProcessListReaches(g: Graph, list: seq<nat>, i: nat, done: seq<nat>, fuel: nat, j: nat)
    requires Closed(g) && RefsIn(list, |g.nodes|) && i <= j < |list| && RefsIn(done, |g.nodes|)
    requires IdOf(g.nodes[list[j]]).Some?
    ensures var o := ProcessList(g, list, i, done, fuel);
            o.out.Some? ==> IdOf(g.nodes[list[j]]).value in o.g.registry
    decreases |list| - i
  {
    var o := ProcessList(g, list, i, done, fuel);
    if o.out.Some? {
      var one := ProcessNode(g, list[i], fuel);
      if j > i {
        ProcessListReaches(one.g, list, i + 1, done + [one.out.value], fuel, j);
      }
    }
  }

  /** `ProcessNode` at equal fuel, however the fuel is written. */
  lemma SameFuel(g: Graph, r: nat, fuel: nat, f: nat)
    requires Closed(g) && r < |g.nodes| && fuel == f + 1
    ensures ProcessNode(g, r, fuel) == ProcessNode(g, r, f + 1)
  {
  }

  /** A node whose body (after the registry step) is non-empty finishes only
      when that body does. */
  lemma ProcessNodeStalls(g: Graph, r: nat, fuel: nat, g1: Graph, a: nat)
    requires Closed(g) && r < |g.nodes|
    requires Register(g, r) == (g1, a) && |g1.nodes[a].body| > 0 && fuel == 0
    ensures ProcessNode(g, r, fuel).out.None?
  {
  }

  /** The same with fuel left: `f` is the fuel the body is processed with. */
  lemma ProcessNodeStallsBelow(g: Graph, r: nat, f: nat, g1: Graph, a: nat)
    requires Closed(g) && r < |g.nodes|
    requires Register(g, r) == (g1, a) && |g1.nodes[a].body| > 0
    requires ProcessList(g1, g1.nodes[a].body, 0, [], f).out.None?
    ensures ProcessNode(g, r, f + 1).out.None?
  {
  }

  /** A list whose first entry does not finish does not finish. */
  lemma ProcessListHeadStalls(g: Graph, list: seq<nat>, x: nat, fuel: nat)
    requires Closed(g) && RefsIn(list, |g.nodes|) && |list| > 0 && list[0] == x
    requires ProcessNode(g, x, fuel).out.None?
    ensures ProcessList(g, list, 0, [], fuel).out.None?
  {
  }

  /** Node `c` has an id, and that id is registered to a node whose body
      starts with `c`. */
  predicate Loops(h: Graph, c: nat) {
    && Closed(h) && c < |h.nodes| && IdOf(h.nodes[c]).Some? && IdOf(h.nodes[c]).value in h.registry
    && var t := h.registry[IdOf(h.nodes[c]).value];
       |h.nodes[t].body| > 0 && h.nodes[t].body[0] == c
  }

  /** The registry step keeps the loop: `c` merges into the node it is
      registered to, whose body still starts with `c`. */
  lemma LoopsAfterRegister(h: Graph, c: nat)
    requires Loops(h, c)
    ensures var reg := Register(h, c);
            && Loops(reg.0, c) && reg.1 < |reg.0.nodes|
            && |reg.0.nodes[reg.1].body| > 0 && reg.0.nodes[reg.1].body[0] == c
            && RefsIn(reg.0.nodes[reg.1].body, |reg.0.nodes|)
  {
    var id := IdOf(h.nodes[c]).value;
    var t := h.registry[id];
    MergeFacts(h, t, c);
    MergeEvolves(h, t, c);
    var g1 := Merge(h, t, c);
    assert Register(h, c) == (g1, t);
    assert IdOf(g1.nodes[c]) == IdOf(h.nodes[c]);
    assert g1.nodes[t].body[0] == c;
  }

  /** A node in that situation never finishes: merging it appends its body
      to the registered node, which is processed again and meets `c` first. */
  lemma {:induction false} SelfNestedNeverEnds(h: Graph, c: nat, fuel: nat)
    requires Loops(h, c)
    ensures ProcessNode(h, c, fuel).out.None?
    decreases fuel
  {
    var reg := Register(h, c);
    LoopsAfterRegister(h, c);
    var g1 := reg.0;
    var body := g1.nodes[reg.1].body;
    if fuel > 0 {
      var f: nat := fuel - 1;
      SelfNestedNeverEnds(g1, c, f);
      ProcessListHeadStalls(g1, body, c, f);
      ProcessNodeStallsBelow(h, c, f, g1, reg.1);
      SameFuel(h, c, fuel, f);
    } else {
      ProcessNodeStalls(h, c, fuel, g1, reg.1);
    }
  }

  /** Registering a node whose body starts with a node of the same id sets
      up the loop above for that child. */
  lemma LoopsFromStart(g: Graph, r: nat)
    requires Closed(g) && r < |g.nodes| && IdOf(g.nodes[r]).Some? && IdOf(g.nodes[r]).value !in g.registry
    requires |g.nodes[r].body| > 0 && IdOf(g.nodes[g.nodes[r].body[0]]) == IdOf(g.nodes[r])
    ensures var reg := Register(g, r);
            && reg.1 == r && |reg.0.nodes[r].body| > 0 && Loops(reg.0, reg.0.nodes[r].body[0])
            && RefsIn(reg.0.nodes[r].body, |reg.0.nodes|)
  {
    var id := IdOf(g.nodes[r]).value;
    var g1 := g.(registry := g.registry[id := r]);
    assert Register(g, r) == (g1, r);
  }

  /** The loop arises from the start: a node with an id whose body starts
      with a node with the same id never finishes processing. */
  lemma NestedSameIdNeverEnds(g: Graph, r: nat, fuel: nat)
    requires Closed(g) && r < |g.nodes| && IdOf(g.nodes[r]).Some? && IdOf(g.nodes[r]).value !in g.registry
    requires |g.nodes[r].body| > 0 && IdOf(g.nodes[g.nodes[r].body[0]]) == IdOf(g.nodes[r])
    ensures ProcessNode(g, r, fuel).out.None?
  {
    var reg := Register(g, r);
    LoopsFromStart(g, r);
    var g1 := reg.0;
    var body := g1.nodes[r].body;
    if fuel > 0 {
      var f: nat := fuel - 1;
      SelfNestedNeverEnds(g1, body[0], f);
      ProcessListHeadStalls(g1, body, body[0], f);
      ProcessNodeStallsBelow(g, r, f, g1, r);
      SameFuel(g, r, fuel, f);
    } else {
      ProcessNodeStalls(g, r, fuel, g1, r);
    }
  }

  /** The callback on a node whose body is empty after the registry step. */
  lemma NodeEmptyBody(g: Graph, r: nat, fuel: nat, g1: Graph, a: nat)
    requires Closed(g) && r < |g.nodes|
    requires Register(g, r) == (g1, a) && |g1.nodes[a].body| == 0
    ensures ProcessNode(g, r, fuel) == Finish(g1, a)
  {
  }

  /** The callback on a node with a body and no fuel left. */
  lemma NodeNoFuel(g: Graph, r: nat, fuel: nat, g1: Graph, a: nat)
    requires Closed(g) && r < |g.nodes|
    requires Register(g, r) == (g1, a) && |g1.nodes[a].body| > 0 && fuel == 0
    ensures ProcessNode(g, r, fuel) == NodeOut(g1, None)
  {
  }

  /** The callback on a node with a body: the body is processed with fuel `f`. */
  lemma NodeWithBody(g: Graph, r: nat, f: nat, g1: Graph, a: nat)
    requires Closed(g) && r < |g.nodes|
    requires Register(g, r) == (g1, a) && |g1.nodes[a].body| > 0
    ensures var sub := ProcessList(g1, g1.nodes[a].body, 0, [], f);
            ProcessNode(g, r, f + 1) ==
              match sub.out
              case None => NodeOut(sub.g, None)
              case Some(b) => Finish(SetBody(sub.g, a, b), a)
  {
  }

  /** One entry of the list: it is processed, and the rest follows from the
      state it leaves, unless it ran out. */
  lemma ListStep(g: Graph, list: seq<nat>, i: nat, done: seq<nat>, fuel: nat)
    requires Closed(g) && RefsIn(list, |g.nodes|) && i < |list| && RefsIn(done, |g.nodes|)
    ensures var o := ProcessNode(g, list[i], fuel);
            ProcessList(g, list, i, done, fuel) ==
              match o.out
              case None => ListOut(o.g, None)
              case Some(n) => ProcessList(o.g, list, i + 1, done + [n], fuel)
  {
  }

  /** The manager: the node store, the registry and the processed forest. */
  class GraphManager {
    var nodes: seq<GNode>
    var registry: map<Param, nat>
    var root: seq<nat>

    function State(): Graph
      reads this
    {
      Graph(nodes, registry)
    }

    /** The constructor processes the forest `ast` over the store; with too
        little fuel the forest is left empty. */
    constructor(store: seq<GNode>, ast: seq<nat>, fuel: nat)
      requires Closed(Graph(store, map[])) && RefsIn(ast, |store|)
      ensures var o := ProcessList(Graph(store, map[]), ast, 0, [], fuel);
              && State() == o.g
              && root == (if o.out.Some? then o.out.value else [])
    {
      nodes := store;
      registry := map[];
      root := [];
      new;
      var out := Process(ast, fuel);
      root := if out.Some? then out.value else [];
    }

    /** `process(list)`: each entry mapped through the callback in turn. */
    method Process(list: seq<nat>, fuel: nat) returns (out: Option<seq<nat>>)
      requires Closed(State()) && RefsIn(list, |nodes|)
      modifies this
      ensures ListOut(State(), out) == ProcessList(old(State()), list, 0, [], fuel)
      ensures root == old(root)
      decreases fuel, 2
    {
      var done: seq<nat> := [];
      for i := 0 to |list|
        invariant Closed(State()) && |nodes| == old(|nodes|) && RefsIn(done, |nodes|)
        invariant ProcessList(State(), list, i, done, fuel) == ProcessList(old(State()), list, 0, [], fuel)
        invariant root == old(root)
      {
        var next := ProcessEntry(list, i, done, fuel);
        if next.None? {
          return None;
        }
        done := next.value;
      }
      return Some(done);
    }

    /** Entry `i` of the list through the callback, after `done`. */
    method ProcessEntry(list: seq<nat>, i: nat, done: seq<nat>, fuel: nat) returns (next: Option<seq<nat>>)
      requires Closed(State()) && RefsIn(list, |nodes|) && i < |list| && RefsIn(done, |nodes|)
      modifies this
      ensures Closed(State()) && |nodes| == old(|nodes|) && root == old(root)
      ensures next.None? ==> ListOut(State(), None) == ProcessList(old(State()), list, i, done, fuel)
      ensures next.Some? ==> RefsIn(next.value, |nodes|)
                             && ProcessList(State(), list, i + 1, next.value, fuel) == ProcessList(old(State()), list, i, done, fuel)
      decreases fuel, 1
    {
      ListStep(State(), list, i, done, fuel);
      var one := ProcessOne(list[i], fuel);
      if one.None? {
        return None;
      }
      return Some(done + [one.value]);
    }

    /** The callback on node `r`. */
    method ProcessOne(r: nat, fuel: nat) returns (out: Option<nat>)
      requires Closed(State()) && r < |nodes|
      modifies this
      ensures NodeOut(State(), out) == ProcessNode(old(State()), r, fuel)
      ensures root == old(root)
      decreases fuel, 0
    {
      ghost var g := State();
      var active := RegisterOne(r);
      ghost var g1 := State();
      var body := nodes[active].body;
      if |body| == 0 {
        NodeEmptyBody(g, r, fuel, g1, active);
        out := FinishOne(active);
        return;
      }
      if fuel == 0 {
        NodeNoFuel(g, r, fuel, g1, active);
        return None;
      }
      var f: nat := fuel - 1;
      NodeWithBody(g, r, f, g1, active);
      SameFuel(g, r, fuel, f);
      var processed := Process(body, f);
      if processed.None? {
        return None;
      }
      ghost var h := SetBody(State(), active, processed.value);
      nodes := nodes[active := nodes[active].(body := processed.value)];
      assert State() == h;
      out := FinishOne(active);
    }

    /** The registry step of the callback: the node to go on with. */
    method RegisterOne(r: nat) returns (active: nat)
      requires Closed(State()) && r < |nodes|
      modifies this
      ensures (State(), active) == Register(old(State()), r)
      ensures root == old(root)
    {
      active := r;
      var id := IdOf(nodes[r]);
      if id.Some? {
        if id.value !in registry {
          registry := registry[id.value := r];
        } else {
          active := registry[id.value];
          MergeNodes(active, r);
        }
      }
    }

    /** The last step of the callback: a `:trigger` node's ends resolved. */
    method FinishOne(a: nat) returns (out: Option<nat>)
      requires Closed(State()) && a < |nodes|
      modifies this
      ensures NodeOut(State(), out) == Finish(old(State()), a)
      ensures root == old(root)
    {
      if nodes[a].kind == ":trigger" {
        var p := nodes[a].params;
        if "from" in p && Truthful(p["from"]) {
          p := p["from" := Resolve(p["from"])];
        }
        if "to" in p && Truthful(p["to"]) {
          p := p["to" := Resolve(p["to"])];
        }
        nodes := nodes[a := nodes[a].(params := p)];
      }
      return Some(a);
    }

    /** `mergeNodes(target, source)`. */
    method MergeNodes(t: nat, s: nat)
      requires t < |nodes| && s < |nodes|
      modifies this
      ensures State() == Merge(old(State()), t, s) && root == old(root)
    {
      var target := nodes[t];
      var source := nodes[s];
      var params := target.params + source.params;
      var body := target.body;
      if |source.body| > 0 {
        body := target.body + source.body;
      }
      var tags := target.tags;
      if source.tags.Some? {
        var before := if target.tags.Some? then target.tags.value else [];
        tags := Some(Dedupe(before + source.tags.value));
      }
      nodes := nodes[t := target.(params := params, body := body, tags := tags)];
    }

    /** `resolve(node)`. */
    function Resolve(p: Param): (q: Param)
      requires p.Ref? ==> p.r < |nodes|
      reads this
      ensures p.Ref? && IdOf(nodes[p.r]).Some? && IdOf(nodes[p.r]).value in registry ==>
                q == Ref(registry[IdOf(nodes[p.r]).value])
      ensures p.Ref? && (IdOf(nodes[p.r]).None? || IdOf(nodes[p.r]).value !in registry) ==> q == p
      ensures p.Plain? ==> var id := Plain(Prop(Prop(p.v, "params"), "id"));
                           q == if Truthful(id) && id in registry then Ref(registry[id]) else p
      ensures q == p || (q.Ref? && q.r in registry.Values)
    {
      ResolveIn(State(), p)
    }

    /** `getEntity(id)`: the node registered under `id`, if any. */
    function GetEntity(id: Param): (n: Option<nat>)
      reads this
      ensures n.Some? <==> id in registry
      ensures n.Some? ==> n.value == registry[id]
    {
      if id in registry then Some(registry[id]) else None
    }

    /** `getGraph()`. */
    function GetGraph(): (r: seq<nat>)
      reads this
      ensures r == root
    {
      root
    }
  }
}
