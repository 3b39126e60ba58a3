/** The compiler's first phase: the depth-first walk (`process` in `compile`)
    that turns the parsed forest into a flat list of instructions with
    successor addresses, and records the program's entry point. */
module KrakoaLinearize {
  import opened KrakoaValues
  import opened KrakoaSchema
  import opened KrakoaReferences

  /** The successors the walk finally leaves on the node at `addr`: the next
      address, and for a trigger or anchor with a body also the address just
      past its last descendant. */
  function NextOf(n: Node, addr: int): (r: seq<int>)
    ensures 1 <= |r| <= 2 && r[0] == addr + 1
    ensures |r| == 2 <==> |n.body| > 0 && (n.ntype == TRIGGER || n.ntype == ANCHOR)
    ensures |r| == 2 ==> r[1] == addr + Size(n) && r[1] > r[0]
  {
    if |n.body| > 0 && (n.ntype == TRIGGER || n.ntype == ANCHOR) then
      FlattenNonEmpty(n.body);
      [addr + 1, addr + Size(n)]
    else [addr + 1]
  }

  function InstructionOf(n: Node, addr: int, clock: int): Instruction {
    Instruction(NodeId(n), n.ntype, clock, n.params, n.tags, NextOf(n, addr))
  }

  /** The instruction list the walk produces from the siblings `ns`
      starting at address `base`: each sibling's instructions follow those
      of the siblings before it. */
  function Linear(ns: seq<Node>, base: int, clock: int): (r: seq<Instruction>)
    ensures |r| == |Flatten(ns)|
    decreases ns
  {
    if ns == [] then []
    else
      var init := ns[..|ns| - 1];
      Linear(init, base, clock) + LinearNode(ns[|ns| - 1], base + |Flatten(init)|, clock)
  }

  /** The instructions of one node and its body, placed from `addr`. */
  function LinearNode(n: Node, addr: int, clock: int): (r: seq<Instruction>)
    ensures |r| == Size(n)
    decreases n
  {
    [InstructionOf(n, addr, clock)] + Linear(n.body, addr + 1, clock)
  }

  lemma {:induction false} LinearAppend(ns: seq<Node>, n: Node, base: int, clock: int)
    ensures Linear(ns + [n], base, clock) == Linear(ns, base, clock) + LinearNode(n, base + |Flatten(ns)|, clock)
  {
    assert (ns + [n])[..|ns|] == ns;
  }

  /** The k-th instruction of the walk is the k-th node in pre-order, at
      address base + k. */
  lemma {:induction false} LinearAt(ns: seq<Node>, base: int, clock: int, k: nat)
    requires k < |Flatten(ns)|
    ensures Linear(ns, base, clock)[k] == InstructionOf(Flatten(ns)[k], base + k, clock)
    decreases ns
  {
    var m := |ns| - 1;
    var init := ns[..m];
    var front := Flatten(init);
    var first := Linear(init, base, clock);
    var last := LinearNode(ns[m], base + |front|, clock);
    assert Linear(ns, base, clock) == first + last;
    assert Flatten(ns) == front + FlattenNode(ns[m]);
    if k < |front| {
      LinearAt(init, base, clock, k);
      assert (first + last)[k] == first[k];
      assert (front + FlattenNode(ns[m]))[k] == front[k];
    } else {
      var j := k - |front|;
      LinearNodeAt(ns[m], base + |front|, clock, j);
      assert (first + last)[k] == last[j];
      assert (front + FlattenNode(ns[m]))[k] == FlattenNode(ns[m])[j];
    }
  }

  lemma {:induction false} LinearNodeAt(n: Node, addr: int, clock: int, j: nat)
    requires j < Size(n)
    ensures LinearNode(n, addr, clock)[j] == InstructionOf(FlattenNode(n)[j], addr + j, clock)
    decreases n
  {
    if j > 0 {
      LinearAt(n.body, addr + 1, clock, j - 1);
    }
  }

  lemma {:induction false} FlattenSplit(ns: seq<Node>, i: nat)
    requires i < |ns|
    ensures Flatten(ns) == Flatten(ns[..i]) + FlattenNode(ns[i]) + Flatten(ns[i + 1..])
  {
    var front, back := ns[..i] + [ns[i]], ns[i + 1..];
    assert ns == front + back;
    FlattenConcat(front, back);
    FlattenAppend(ns[..i], ns[i]);
  }

  /** How the reference checks over the first `index + 1` siblings extend
      those over the first `index`. */
  lemma {:induction false} ProcessStep(ns: seq<Node>, index: nat, forest: seq<Node>)
    requires index < |ns|
    ensures RefsValid(Flatten(ns[..index + 1]), forest)
            <==> RefsValid(Flatten(ns[..index]), forest) && RefsValid(FlattenNode(ns[index]), forest)
    ensures forall x :: x in FlattenNode(ns[index]) ==> x in Flatten(ns)
  {
    var prefix := ns[..index];
    FlattenSplit(ns, index);
    assert ns[..index + 1] == prefix + [ns[index]];
    FlattenAppend(prefix, ns[index]);
  }

  /** Visiting sibling `index` extends the instructions of the walk over the
      siblings before it to those over the first `index + 1`. */
  lemma {:induction false} VisitStep(ns: seq<Node>, index: nat, clock: int,
                                     start: seq<Instruction>, prev: seq<Instruction>, now: seq<Instruction>)
    requires index < |ns|
    requires prev == start + Linear(ns[..index], |start|, clock)
    requires now == prev + LinearNode(ns[index], |prev|, clock)
    ensures now == start + Linear(ns[..index + 1], |start|, clock)
  {
    var prefix := ns[..index];
    PrefixSnoc(ns, index);
    LinearAppend(prefix, ns[index], |start|, clock);
  }

  /** ... and the entry point likewise. */
  lemma {:induction false} VisitTriggerStep(ns: seq<Node>, index: nat, base: int, returnIndex: Option<int>, ft: int,
                                            addr: int, ftPrev: int, ftNow: int)
    requires index < |ns|
    requires addr == base + |Flatten(ns[..index])|
    requires ftPrev == FirstTriggerUpTo(ns, index, base, returnIndex, ft)
    requires ftNow == FirstTriggerAt(ns[index], addr, index == |ns| - 1, returnIndex, ftPrev)
    ensures ftNow == FirstTriggerUpTo(ns, index + 1, base, returnIndex, ft)
  {
    assert ns[..index + 1][..index] == ns[..index];
  }

  lemma NextOfBody(n: Node, addr: int, next: seq<int>)
    requires next == if |n.body| > 0 && (n.ntype == TRIGGER || n.ntype == ANCHOR)
                     then [addr + 1, addr + 1 + |Flatten(n.body)|] else [addr + 1]
    ensures next == NextOf(n, addr)
  {
  }

  lemma ReplaceAt<T>(start: seq<T>, x: T, rest: seq<T>, y: T)
    ensures (start + [x] + rest)[|start| := y] == start + ([y] + rest)
  {
  }

  lemma VisitFacts(n: Node, forest: seq<Node>)
    ensures FlattenNode(n) == [n] + Flatten(n.body)
    ensures RefsValid(FlattenNode(n), forest) <==> NodeRefsValid(n, forest) && RefsValid(Flatten(n.body), forest)
    ensures forall x :: x in Flatten(n.body) ==> x in FlattenNode(n)
  {
  }

  /** A reference tag of `n` that `verifyReference` rejects. */
  predicate BadTag(n: Node, t: Tag, forest: seq<Node>) {
    t in TagsOf(n) && t.kind == Reference && !ReferenceHolds(t.segments, forest)
  }

  predicate NodeRefsValid(n: Node, forest: seq<Node>) {
    forall i :: 0 <= i < |TagsOf(n)| && TagsOf(n)[i].kind == Reference ==> ReferenceHolds(TagsOf(n)[i].segments, forest)
  }

  predicate RefsValid(ns: seq<Node>, forest: seq<Node>) {
    forall x :: x in ns ==> NodeRefsValid(x, forest)
  }

  /** `returnIndex ?? -1` for the last sibling, the next address otherwise. */
  function DefaultNext(isLast: bool, returnIndex: Option<int>, addr: int): int {
    if isLast then (if returnIndex.Some? then returnIndex.value else -1) else addr + 1
  }

  /** `!returnIndex`: true for an absent return index, and also for 0. */
  predicate NoReturnIndex(returnIndex: Option<int>) {
    returnIndex.None? || returnIndex == Some(0)
  }

  /** `firstTriggerIndex` after the walk has visited the first `k` of the
      siblings `ns` (placed from address `base`, called with `returnIndex`),
      starting from `ft`. */
  function FirstTriggerUpTo(ns: seq<Node>, k: nat, base: int, returnIndex: Option<int>, ft: int): (r: int)
    requires k <= |ns|
    ensures ft != -1 ==> r == ft
    decreases ns, k
  {
    if k == 0 then ft
    else FirstTriggerAt(ns[k - 1], base + |Flatten(ns[..k - 1])|, k == |ns|, returnIndex,
                        FirstTriggerUpTo(ns, k - 1, base, returnIndex, ft))
  }

  function FirstTriggerAt(n: Node, addr: int, isLast: bool, returnIndex: Option<int>, ft: int): (r: int)
    ensures ft != -1 ==> r == ft
    decreases n, 1
  {
    var ft1 := if n.ntype == TRIGGER && NoReturnIndex(returnIndex) && ft == -1 then addr else ft;
    FirstTriggerBody(n, addr, isLast, returnIndex, ft1)
  }

  /** `firstTriggerIndex` after the walk over the body of `n`, which it
      enters with the node's own address (for a trigger) or its default
      successor as the return index. */
  function FirstTriggerBody(n: Node, addr: int, isLast: bool, returnIndex: Option<int>, ft: int): (r: int)
    ensures ft != -1 ==> r == ft
    decreases n, 0
  {
    if |n.body| == 0 then ft
    else if n.ntype == TRIGGER then FirstTriggerUpTo(n.body, |n.body|, addr + 1, Some(addr), ft)
    else FirstTriggerUpTo(n.body, |n.body|, addr + 1, Some(DefaultNext(isLast, returnIndex, addr)), ft)
  }

  /** Below the top level the walk never sets the entry point: every nested
      call gets a non-zero return index. */
  lemma {:induction false} NestedKeepsFirstTrigger(ns: seq<Node>, k: nat, base: int, returnIndex: Option<int>, ft: int)
    requires k <= |ns|
    requires ft != -1 || (returnIndex.Some? && returnIndex.value != 0 && base >= 1)
    ensures FirstTriggerUpTo(ns, k, base, returnIndex, ft) == ft
    decreases ns, k
  {
    if k > 0 {
      NestedKeepsFirstTrigger(ns, k - 1, base, returnIndex, ft);
      NestedKeepsFirstTriggerAt(ns[k - 1], base + |Flatten(ns[..k - 1])|, k == |ns|, returnIndex, ft);
    }
  }

  lemma {:induction false} NestedKeepsFirstTriggerAt(n: Node, addr: int, isLast: bool, returnIndex: Option<int>, ft: int)
    requires ft != -1 || (returnIndex.Some? && returnIndex.value != 0 && addr >= 1)
    ensures FirstTriggerAt(n, addr, isLast, returnIndex, ft) == ft
    decreases n
  {
    assert FirstTriggerAt(n, addr, isLast, returnIndex, ft) == FirstTriggerBody(n, addr, isLast, returnIndex, ft);
    if |n.body| > 0 {
      if n.ntype == TRIGGER {
        NestedKeepsFirstTrigger(n.body, |n.body|, addr + 1, Some(addr), ft);
      } else {
        NestedKeepsFirstTrigger(n.body, |n.body|, addr + 1, Some(DefaultNext(isLast, returnIndex, addr)), ft);
      }
    }
  }

  /** The walk from the top level records the address of the first top-level
      `➔` node, and nothing (-1) when there is none. */
  lemma {:induction false} FirstTriggerIsFirstTopLevel(ns: seq<Node>, k: nat)
    requires k <= |ns|
    ensures var ft := FirstTriggerUpTo(ns, k, 0, None, -1);
      && (ft == -1 <==> forall j :: 0 <= j < k ==> ns[j].ntype != TRIGGER)
      && (ft != -1 ==> exists j :: 0 <= j < k && ns[j].ntype == TRIGGER && ft == |Flatten(ns[..j])|
                                 && forall i :: 0 <= i < j ==> ns[i].ntype != TRIGGER)
  {
    if k > 0 {
      FirstTriggerIsFirstTopLevel(ns, k - 1);
      var prev := FirstTriggerUpTo(ns, k - 1, 0, None, -1);
      var n := ns[k - 1];
      var a := |Flatten(ns[..k - 1])|;
      if prev != -1 {
        NestedKeepsFirstTriggerAt(n, a, k == |ns|, None, prev);
      } else if n.ntype == TRIGGER {
        NestedKeepsFirstTriggerAt(n, a, k == |ns|, None, a);
        assert a >= 0;
      } else {
        assert FirstTriggerAt(n, a, k == |ns|, None, prev) == FirstTriggerBody(n, a, k == |ns|, None, -1);
        if |n.body| > 0 {
          NestedKeepsFirstTrigger(n.body, |n.body|, a + 1, Some(DefaultNext(k == |ns|, None, a)), -1);
        }
      }
    }
  }

  /** The walk's state: the instruction list it appends to and the entry
      point it records, over the whole forest that references are checked
      against. */
  class Linearizer {
    const forest: seq<Node>
    const clock: int
    var instructions: seq<Instruction>
    var firstTriggerIndex: int

    constructor (forest: seq<Node>, clock: int)
      ensures this.forest == forest && this.clock == clock
      ensures instructions == [] && firstTriggerIndex == -1
    {
      this.forest := forest;
      this.clock := clock;
      instructions := [];
      firstTriggerIndex := -1;
    }

    /** The `tags.map` of one node: every reference tag must pass
        `verifyReference`; the first that does not aborts compilation. */
    method CheckTags(n: Node) returns (err: Option<Tag>)
      ensures err.None? <==> NodeRefsValid(n, forest)
      ensures err.Some? ==> BadTag(n, err.value, forest)
    {
      var tags := TagsOf(n);
      var i := 0;
      while i < |tags|
        invariant 0 <= i <= |tags|
        invariant forall j :: 0 <= j < i && tags[j].kind == Reference ==> ReferenceHolds(tags[j].segments, forest)
      {
        if tags[i].kind == Reference {
          var isValid := VerifyReference(tags[i].segments, forest);
          if !isValid {
            return Some(tags[i]);
          }
        }
        i := i + 1;
      }
      return None;
    }

    /** `process(bodyNodes, returnIndex)`: the `forEach` over the siblings. */
    method Process(bodyNodes: seq<Node>, returnIndex: Option<int>) returns (err: Option<Tag>)
      modifies this
      decreases bodyNodes, 0
      ensures err.None? <==> RefsValid(Flatten(bodyNodes), forest)
      ensures err.Some? ==> exists x :: x in Flatten(bodyNodes) && BadTag(x, err.value, forest)
      ensures err.None? ==> instructions == old(instructions) + Linear(bodyNodes, |old(instructions)|, clock)
      ensures err.None? ==> firstTriggerIndex
                            == FirstTriggerUpTo(bodyNodes, |bodyNodes|, |old(instructions)|, returnIndex, old(firstTriggerIndex))
    {
      ghost var base := |instructions|;
      err := None;
      var index := 0;
      while index < |bodyNodes|
        invariant 0 <= index <= |bodyNodes|
        invariant err.None?
        invariant RefsValid(Flatten(bodyNodes[..index]), forest)
        invariant instructions == old(instructions) + Linear(bodyNodes[..index], base, clock)
        invariant firstTriggerIndex == FirstTriggerUpTo(bodyNodes, index, base, returnIndex, old(firstTriggerIndex))
      {
        ghost var prev, ftPrev := instructions, firstTriggerIndex;
        ProcessStep(bodyNodes, index, forest);
        ghost var addr := |prev|;
        assert addr == base + |Flatten(bodyNodes[..index])|;
        err := Visit(bodyNodes[index], index == |bodyNodes| - 1, returnIndex);
        if err.Some? {
          return;
        }
        VisitStep(bodyNodes, index, clock, old(instructions), prev, instructions);
        VisitTriggerStep(bodyNodes, index, base, returnIndex, old(firstTriggerIndex), addr, ftPrev, firstTriggerIndex);
        index := index + 1;
      }
      assert bodyNodes[..index] == bodyNodes;
    }

    /** The `forEach` callback: checks the node's reference tags, pushes its
        instruction with a provisional successor, walks its body
        (`VisitBody`), then writes the final successors into the pushed
        instruction. */
    method Visit(activeNode: Node, isLastInstruction: bool, returnIndex: Option<int>) returns (err: Option<Tag>)
      modifies this
      decreases activeNode, 1
      ensures err.None? <==> RefsValid(FlattenNode(activeNode), forest)
      ensures err.Some? ==> exists x :: x in FlattenNode(activeNode) && BadTag(x, err.value, forest)
      ensures err.None? ==> instructions == old(instructions) + LinearNode(activeNode, |old(instructions)|, clock)
      ensures err.None? ==> firstTriggerIndex
                            == FirstTriggerAt(activeNode, |old(instructions)|, isLastInstruction, returnIndex, old(firstTriggerIndex))
    {
      var currentIndex := |instructions|;
      var defaultNext := DefaultNext(isLastInstruction, returnIndex, currentIndex);
      VisitFacts(activeNode, forest);

      if activeNode.ntype == TRIGGER && NoReturnIndex(returnIndex) && firstTriggerIndex == -1 {
        firstTriggerIndex := currentIndex;
      }
      err := CheckTags(activeNode);
      if err.Some? {
        return;
      }
      ghost var start := instructions;
      ghost var provisional := Instruction(NodeId(activeNode), activeNode.ntype, clock, activeNode.params, activeNode.tags, [defaultNext]);
      ghost var rest := Linear(activeNode.body, currentIndex + 1, clock);
      instructions := instructions + [Instruction(NodeId(activeNode), activeNode.ntype, clock, activeNode.params, activeNode.tags, [defaultNext])];
      var next;
      err, next := VisitBody(activeNode, currentIndex, isLastInstruction, returnIndex);
      if err.Some? {
        return;
      }
      assert instructions[currentIndex] == provisional;
      ghost var fixed := provisional.(next := next);
      assert LinearNode(activeNode, currentIndex, clock) == [fixed] + rest;
      ReplaceAt(start, provisional, rest, fixed);
      instructions := instructions[currentIndex := instructions[currentIndex].(next := next)];
      assert instructions == start + ([fixed] + rest);
    }

    /** The second half of the callback: processes a non-empty body (with
        the node's own address as the return index for a trigger, its
        default successor otherwise) and computes the node's final
        successors. */
    method VisitBody(activeNode: Node, currentIndex: int, isLastInstruction: bool, returnIndex: Option<int>)
      returns (err: Option<Tag>, next: seq<int>)
      requires |instructions| == currentIndex + 1
      modifies this
      decreases activeNode, 0
      ensures err.None? <==> RefsValid(Flatten(activeNode.body), forest)
      ensures err.Some? ==> exists x :: x in Flatten(activeNode.body) && BadTag(x, err.value, forest)
      ensures err.None? ==> instructions == old(instructions) + Linear(activeNode.body, currentIndex + 1, clock)
      ensures err.None? ==> next == NextOf(activeNode, currentIndex)
      ensures err.None? ==> firstTriggerIndex
                            == FirstTriggerBody(activeNode, currentIndex, isLastInstruction, returnIndex, old(firstTriggerIndex))
    {
      var defaultNext := DefaultNext(isLastInstruction, returnIndex, currentIndex);
      err := None;
      next := [defaultNext];
      if |activeNode.body| > 0 {
        var bodyStartIndex := |instructions|;
        if activeNode.ntype == TRIGGER {
          err := Process(activeNode.body, Some(currentIndex));
          if err.Some? {
            return;
          }
          next := [bodyStartIndex, |instructions|];
        } else {
          err := Process(activeNode.body, Some(defaultNext));
          if err.Some? {
            return;
          }
          next := if activeNode.ntype == ANCHOR then [bodyStartIndex, |instructions|] else [bodyStartIndex];
        }
      } else if isLastInstruction {
        next := [|instructions|];
      }
      NextOfBody(activeNode, currentIndex, next);
    }
  }
}
