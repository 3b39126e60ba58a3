/** Compile-time checking of `@` reference paths against the parsed forest
    (`findNodeDeep` and `verifyReference` in the compiler). */
module KrakoaReferences {
  import opened KrakoaValues
  import opened KrakoaSchema

  /** `s.replace(/^[@#]/, '')`: drops one leading `@` or `#`. */
  function Strip(s: string): (r: string)
    ensures |s| > 0 && (s[0] == '@' || s[0] == '#') ==> r == s[1..]
    ensures !(|s| > 0 && (s[0] == '@' || s[0] == '#')) ==> r == s
  {
    if |s| > 0 && (s[0] == '@' || s[0] == '#') then s[1..] else s
  }

  /** The node's id with its sigil stripped; a missing id (or one that is not
      a string) reads as `None`. */
  function NodeKey(n: Node): Option<string> {
    match NodeId(n)
    case Str(s) => Some(Strip(s))
    case _ => None
  }

  /** Some tag of `n` has the (stripped) root `x`. */
  predicate TagOn(n: Node, x: string) {
    exists i :: 0 <= i < |TagsOf(n)| && Strip(TagsOf(n)[i].root) == x
  }

  /** The match test of the forest search: the stripped id equals the target,
      or a tag does. An absent target matches every node without an id. */
  predicate Matches(n: Node, target: Option<string>) {
    NodeKey(n) == target || (target.Some? && TagOn(n, target.value))
  }

  /** `findNodeDeep`: the loop over the nodes, descending into each body before
      moving to the next sibling. */
  function FindNodeDeep(nodes: seq<Node>, target: Option<string>): (r: Option<Node>)
    ensures r.Some? ==> Matches(r.value, target)
    ensures r.None? ==> forall i :: 0 <= i < |nodes| ==> !Matches(nodes[i], target)
    decreases nodes
  {
    if nodes == [] then None
    else if Matches(nodes[0], target) then Some(nodes[0])
    else match FindNodeDeep(nodes[0].body, target)
      case Some(x) => Some(x)
      case None => FindNodeDeep(nodes[1..], target)
  }

  /** Reference definition: the first node in pre-order that matches. */
  function FirstMatch(s: seq<Node>, target: Option<string>): (r: Option<Node>)
    ensures r.Some? ==> r.value in s && Matches(r.value, target)
    ensures r.None? ==> forall i :: 0 <= i < |s| ==> !Matches(s[i], target)
  {
    if s == [] then None
    else if Matches(s[0], target) then Some(s[0])
    else FirstMatch(s[1..], target)
  }

  lemma {:induction false} FirstMatchConcat(a: seq<Node>, b: seq<Node>, target: Option<string>)
    ensures FirstMatch(a + b, target) == if FirstMatch(a, target).Some? then FirstMatch(a, target) else FirstMatch(b, target)
  {
    if a != [] {
      assert (a + b)[1..] == a[1..] + b;
      FirstMatchConcat(a[1..], b, target);
    } else {
      assert a + b == b;
    }
  }

  /** The forest search returns exactly the first matching node of the
      depth-first pre-order, and nothing when no node matches. */
  lemma {:induction false} FindNodeDeepIsFirstInPreOrder(nodes: seq<Node>, target: Option<string>)
    ensures FindNodeDeep(nodes, target) == FirstMatch(Flatten(nodes), target)
    decreases nodes
  {
    if nodes != [] {
      var n := nodes[0];
      assert nodes == [n] + nodes[1..];
      FlattenConcat([n], nodes[1..]);
      assert Flatten([n]) == FlattenNode(n) by {
        assert [n][..0] == [];
      }
      FirstMatchConcat(FlattenNode(n), Flatten(nodes[1..]), target);
      assert FlattenNode(n) == [n] + Flatten(n.body);
      assert ([n] + Flatten(n.body))[1..] == Flatten(n.body);
      FindNodeDeepIsFirstInPreOrder(n.body, target);
      FindNodeDeepIsFirstInPreOrder(nodes[1..], target);
    }
  }

  /** A segment's text with its sigil stripped; an object segment has no text
      (the source's `replace` call throws on it). */
  function SegmentText(s: Segment): Option<string> {
    match s
    case Name(x) => Some(Strip(x))
    case Nested(_) => None
  }

  /** `currentScope.body.find(...)`: the first child whose id or tag is `x`. */
  function ChildMatch(scope: Node, x: string): (r: Option<Node>)
    ensures r.Some? ==> r.value in scope.body && Matches(r.value, Some(x))
    ensures r.None? ==> forall c :: c in scope.body ==> !Matches(c, Some(x))
  {
    FirstMatch(scope.body, Some(x))
  }

  /** The walk over the later segments: stay on a tag of the current node,
      else descend to the first matching child, else fail. */
  function Walk(scope: Node, segs: seq<Segment>): (r: bool)
    ensures r ==> forall i :: 0 <= i < |segs| ==> segs[i].Name?
    decreases |segs|
  {
    if segs == [] then true
    else match SegmentText(segs[0])
      case None => false
      case Some(x) =>
        if TagOn(scope, x) then Walk(scope, segs[1..])
        else match ChildMatch(scope, x)
          case None => false
          case Some(c) => Walk(c, segs[1..])
  }

  /** The node the first segment names: `findNodeDeep(forest, segments[0])`. */
  function RootTarget(segs: seq<Segment>): Option<string>
    requires segs == [] || segs[0].Name?
  {
    if segs == [] then None else Some(Strip(segs[0].name))
  }

  function Rest(segs: seq<Segment>): seq<Segment> {
    if segs == [] then [] else segs[1..]
  }

  /** What `verifyReference(segments, forest)` answers. */
  predicate ReferenceHolds(segs: seq<Segment>, forest: seq<Node>) {
    && (segs == [] || segs[0].Name?)
    && match FindNodeDeep(forest, RootTarget(segs))
       case None => false
       case Some(root) => Walk(root, Rest(segs))
  }

  /** `verifyReference`: the cursor loop over the segments. */
  method VerifyReference(segs: seq<Segment>, forest: seq<Node>) returns (ok: bool)
    ensures ok == ReferenceHolds(segs, forest)
  {
    if |segs| > 0 && segs[0].Nested? {
      return false;
    }
    var found := FindNodeDeep(forest, RootTarget(segs));
    if found.None? {
      return false;
    }
    var currentScope := found.value;
    var i := 1;
    while i < |segs|
      invariant 1 <= i <= |segs| || segs == []
      invariant ReferenceHolds(segs, forest) == Walk(currentScope, if segs == [] then [] else segs[i..])
    {
      assert segs[i..][1..] == segs[i + 1..];
      var clean := SegmentText(segs[i]);
      if clean.None? {
        return false;
      }
      if !TagOn(currentScope, clean.value) {
        var nextNode := ChildMatch(currentScope, clean.value);
        if nextNode.None? {
          return false;
        }
        currentScope := nextNode.value;
      }
      i := i + 1;
    }
    return true;
  }

  /** One step of a path: segment `x` keeps the walk on node `a` through one
      of its tags, or moves it to a child `b` named or tagged `x`. */
  predicate PathStep(a: Node, b: Node, x: string) {
    (b == a && TagOn(a, x)) || (b in a.body && Matches(b, Some(x)))
  }

  /** `p` is a walk from `p[0]` that follows the segment names `xs`. */
  predicate IsPath(p: seq<Node>, xs: seq<string>) {
    |p| == |xs| + 1 && forall i :: 0 <= i < |xs| ==> PathStep(p[i], p[i + 1], xs[i])
  }

  function Names(segs: seq<Segment>): seq<string>
    requires forall i :: 0 <= i < |segs| ==> segs[i].Name?
  {
    seq(|segs|, i requires 0 <= i < |segs| => Strip(segs[i].name))
  }

  /** A successful walk is a real path through tags and children. */
  lemma {:induction false} WalkIsPath(scope: Node, segs: seq<Segment>)
    requires Walk(scope, segs)
    ensures forall i :: 0 <= i < |segs| ==> segs[i].Name?
    ensures exists p :: IsPath(p, Names(segs)) && p[0] == scope
    decreases |segs|
  {
    if segs == [] {
      assert IsPath([scope], Names(segs));
    } else {
      var x := SegmentText(segs[0]).value;
      var next := if TagOn(scope, x) then scope else ChildMatch(scope, x).value;
      assert Walk(next, segs[1..]);
      WalkIsPath(next, segs[1..]);
      var p :| IsPath(p, Names(segs[1..])) && p[0] == next;
      var q := [scope] + p;
      assert q[1] == p[0] == next;
      assert PathStep(scope, next, x);
      forall i | 0 <= i < |segs|
        ensures segs[i].Name?
      {
        if i > 0 { assert segs[1..][i - 1] == segs[i]; }
      }
      assert Names(segs) == [x] + Names(segs[1..]);
      assert IsPath(q, Names(segs));
    }
  }

  /** Soundness of the check: an accepted reference names a node of the
      forest and a path from it along every later segment. */
  lemma ReferenceHoldsIsSound(segs: seq<Segment>, forest: seq<Node>)
    requires ReferenceHolds(segs, forest)
    ensures forall i :: 0 <= i < |segs| ==> segs[i].Name?
    ensures exists p :: |p| >= 1 && p[0] in Flatten(forest) && Matches(p[0], RootTarget(segs)) && IsPath(p, Names(Rest(segs)))
  {
    var root := FindNodeDeep(forest, RootTarget(segs)).value;
    FindNodeDeepIsFirstInPreOrder(forest, RootTarget(segs));
    WalkIsPath(root, Rest(segs));
    var p :| IsPath(p, Names(Rest(segs))) && p[0] == root;
    forall i | 0 <= i < |segs|
      ensures segs[i].Name?
    {
      if i > 0 { assert Rest(segs)[i - 1] == segs[i]; }
    }
  }

  /** A reference whose first segment names no node of the forest fails. */
  lemma UnknownRootFails(segs: seq<Segment>, forest: seq<Node>)
    requires segs != [] && segs[0].Name?
    requires forall i :: 0 <= i < |Flatten(forest)| ==> !Matches(Flatten(forest)[i], Some(Strip(segs[0].name)))
    ensures !ReferenceHolds(segs, forest)
  {
    FindNodeDeepIsFirstInPreOrder(forest, RootTarget(segs));
  }
}
