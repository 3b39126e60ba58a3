/** The shapes the compiler consumes and produces: the parser's node forest,
    tags, the linearised instructions and the compiled program. */
module KrakoaSchema {
  import opened KrakoaValues

  const TRIGGER := "➔"
  const ANCHOR := "⚓"

  datatype TagKind = Hashtag | Reference

  /** A path segment: a plain name, or (inside hashtags) a nested tag object. */
  datatype Segment = Name(name: string) | Nested(tag: Tag)

  /** `#root` or `@seg::seg`, as the parser hands it over. */
  datatype Tag = Tag(root: string, kind: TagKind, segments: seq<Segment>)

  /** A parsed node; `tags` is `None` when the parser gave no tag list. */
  datatype Node = Node(ntype: string, params: seq<Field>, body: seq<Node>, tags: Option<seq<Tag>>)

  /** One linearised instruction before linking (`currInstruction` in the compiler). */
  datatype Instruction = Instruction(
    id: Value, itype: string, timestamp: int, params: seq<Field>, tags: Option<seq<Tag>>, next: seq<int>)

  /** The compiled program: entry address, symbol table, text pool and the
      pooled instructions keyed by address. */
  datatype Program = Program(entry: int, symbols: map<string, int>, text: seq<string>, code: map<nat, Value>)

  function NodeId(n: Node): Value {
    Lookup(n.params, "id")
  }

  function TagsOf(n: Node): seq<Tag> {
    match n.tags
    case None => []
    case Some(ts) => ts
  }

  function KindText(k: TagKind): string {
    match k
    case Hashtag => "hashtag"
    case Reference => "reference"
  }

  /** A tag as the JavaScript object `{root, kind, segments}`. */
  function TagValue(t: Tag): Value {
    Obj([Field("root", Str(t.root)), Field("kind", Str(KindText(t.kind))), Field("segments", Arr(SegmentValues(t.segments)))])
  }

  function SegmentValue(s: Segment): Value {
    match s
    case Name(x) => Str(x)
    case Nested(t) => TagValue(t)
  }

  function SegmentValues(ss: seq<Segment>): (r: seq<Value>)
    ensures |r| == |ss|
    ensures forall i :: 0 <= i < |ss| ==> r[i] == SegmentValue(ss[i])
  {
    if ss == [] then [] else SegmentValues(ss[..|ss| - 1]) + [SegmentValue(ss[|ss| - 1])]
  }

  function TagsValue(ts: Option<seq<Tag>>): Value {
    match ts
    case None => Undefined
    case Some(ts) => Arr(TagValues(ts))
  }

  function TagValues(ts: seq<Tag>): (r: seq<Value>)
    ensures |r| == |ts|
    ensures forall i :: 0 <= i < |ts| ==> r[i] == TagValue(ts[i])
  {
    if ts == [] then [] else TagValues(ts[..|ts| - 1]) + [TagValue(ts[|ts| - 1])]
  }

  function NumValues(ns: seq<int>): (r: seq<Value>)
    ensures |r| == |ns|
    ensures forall i :: 0 <= i < |ns| ==> r[i] == Num(ns[i])
  {
    if ns == [] then [] else NumValues(ns[..|ns| - 1]) + [Num(ns[|ns| - 1])]
  }

  /** The instruction as the object `{id, type, timestamp, params, tags, next}`
      that linking walks over. */
  function InstructionValue(ins: Instruction): Value {
    Obj([Field("id", ins.id), Field("type", Str(ins.itype)), Field("timestamp", Num(ins.timestamp)),
         Field("params", Obj(ins.params)), Field("tags", TagsValue(ins.tags)), Field("next", Arr(NumValues(ins.next)))])
  }

  /** Depth-first pre-order of a forest: each node, then its body. */
  function Flatten(ns: seq<Node>): seq<Node>
    decreases ns
  {
    if ns == [] then [] else Flatten(ns[..|ns| - 1]) + FlattenNode(ns[|ns| - 1])
  }

  function FlattenNode(n: Node): (r: seq<Node>)
    ensures |r| >= 1 && r[0] == n
    decreases n
  {
    [n] + Flatten(n.body)
  }

  /** Number of nodes in a tree. */
  function Size(n: Node): nat {
    |FlattenNode(n)|
  }

  lemma {:induction false} FlattenAppend(ns: seq<Node>, n: Node)
    ensures Flatten(ns + [n]) == Flatten(ns) + FlattenNode(n)
  {
    assert (ns + [n])[..|ns + [n]| - 1] == ns;
  }

  lemma FlattenNonEmpty(ns: seq<Node>)
    requires ns != []
    ensures |Flatten(ns)| >= 1
  {
  }

  lemma {:induction false} FlattenConcat(xs: seq<Node>, ys: seq<Node>)
    ensures Flatten(xs + ys) == Flatten(xs) + Flatten(ys)
    decreases |ys|
  {
    if ys == [] {
      assert xs + ys == xs;
    } else {
      var ys' := ys[..|ys| - 1];
      assert xs + ys == (xs + ys') + [ys[|ys| - 1]];
      FlattenAppend(xs + ys', ys[|ys| - 1]);
      FlattenConcat(xs, ys');
      FlattenAppend(ys', ys[|ys| - 1]);
      assert ys == ys' + [ys[|ys| - 1]];
    }
  }
}
