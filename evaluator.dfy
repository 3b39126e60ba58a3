/** The evaluator's view of the data stack: `findInStack` (walk the `__BSP`
    chain from `BSP`, then scan the whole stack from the top), the `Tags` view
    whose missing keys read `false`, and `evalLambda`, which runs a lambda
    against that view and hands every other value back unchanged. */
module KrakoaEvaluator {
  import opened KrakoaValues
  import opened KrakoaRunner
  import KrakoaContextual

  /** The frames the chain walk visits from `cursor`: a frame's `__BSP` is
      followed only while it is a number below the current index. */
  function Chain(stack: seq<Frame>, cursor: int): (ch: seq<int>)
    ensures forall i :: 0 <= i < |ch| ==> 0 <= ch[i] < |stack|
    ensures forall i :: 0 <= i < |ch| - 1 ==> ch[i] > ch[i + 1]
    ensures 0 <= cursor < |stack| <==> |ch| > 0
    ensures |ch| > 0 ==> ch[0] == cursor
    decreases cursor + 1
  {
    if cursor < 0 || cursor >= |stack| then []
    else
      var up := Get(stack[cursor], "__BSP");
      if up.Num? && up.n < cursor then [cursor] + Chain(stack, up.n) else [cursor]
  }

  /** The chain walk: the value of `prop` in the first frame on the chain that
      holds it. */
  function ChainFind(stack: seq<Frame>, prop: string, cursor: int): Option<Value>
    decreases cursor + 1
  {
    if cursor < 0 || cursor >= |stack| then None
    else if prop in stack[cursor] then Some(stack[cursor][prop])
    else
      var up := Get(stack[cursor], "__BSP");
      if up.Num? && up.n < cursor then ChainFind(stack, prop, up.n) else None
  }

  /** The reverse scan over the frames below index `n`: the value of `prop`
      in the highest-index frame that holds it. */
  function ScanFind(stack: seq<Frame>, prop: string, n: nat): Option<Value>
    requires n <= |stack|
  {
    if n == 0 then None
    else if prop in stack[n - 1] then Some(stack[n - 1][prop])
    else ScanFind(stack, prop, n - 1)
  }

  /** `findInStack(prop, bsp)`: the value in the first frame on the chain
      from `bsp` that holds `prop`; failing that, the value in the highest
      frame that holds it; failing that, `undefined`. */
  function FindInStack(stack: seq<Frame>, prop: string, bsp: int): (r: Value)
    ensures var ch := Chain(stack, bsp);
            var i := FirstHolder(stack, prop, ch);
            && (i < |ch| ==> r == stack[ch[i]][prop])
            && (i == |ch| && (forall j :: 0 <= j < |stack| ==> prop !in stack[j]) ==> r == Undefined)
            && (i == |ch| && (exists j :: 0 <= j < |stack| && prop in stack[j]) ==>
                  exists j :: 0 <= j < |stack| && prop in stack[j] && r == stack[j][prop]
                              && forall k :: j < k < |stack| ==> prop !in stack[k])
  {
    ChainFindFirst(stack, prop, bsp);
    ScanFindHighest(stack, prop, |stack|);
    match ChainFind(stack, prop, bsp)
    case Some(v) => v
    case None =>
      match ScanFind(stack, prop, |stack|)
      case Some(v) => v
      case None => Undefined
  }

  /** The position on `ch` of the first frame holding `prop` (`|ch|` when none does). */
  function FirstHolder(stack: seq<Frame>, prop: string, ch: seq<int>): (i: nat)
    requires forall k :: 0 <= k < |ch| ==> 0 <= ch[k] < |stack|
    ensures i <= |ch|
    ensures forall k :: 0 <= k < i ==> prop !in stack[ch[k]]
    ensures i < |ch| ==> prop in stack[ch[i]]
  {
    if ch == [] then 0
    else if prop in stack[ch[0]] then 0
    else 1 + FirstHolder(stack, prop, ch[1..])
  }

  /** The chain walk finds `prop` exactly when a frame on the chain holds it,
      and then in the first such frame. */
  lemma {:induction false} ChainFindFirst(stack: seq<Frame>, prop: string, cursor: int)
    ensures var ch := Chain(stack, cursor);
            var i := FirstHolder(stack, prop, ch);
            ChainFind(stack, prop, cursor) == if i < |ch| then Some(stack[ch[i]][prop]) else None
    decreases cursor + 1
  {
    if 0 <= cursor < |stack| && prop !in stack[cursor] {
      var up := Get(stack[cursor], "__BSP");
      if up.Num? && up.n < cursor {
        ChainFindFirst(stack, prop, up.n);
        var ch := Chain(stack, cursor);
        var rest := Chain(stack, up.n);
        assert ch == [cursor] + rest;
        assert ch[1..] == rest;
        assert FirstHolder(stack, prop, ch) == 1 + FirstHolder(stack, prop, rest);
      }
    }
  }

  /** The reverse scan finds `prop` exactly when a frame below `n` holds it,
      and then in the highest-index such frame. */
  lemma {:induction false} ScanFindHighest(stack: seq<Frame>, prop: string, n: nat)
    requires n <= |stack|
    ensures match ScanFind(stack, prop, n)
            case None => forall j :: 0 <= j < n ==> prop !in stack[j]
            case Some(v) =>
              exists j :: 0 <= j < n && prop in stack[j] && v == stack[j][prop]
                          && forall k :: j < k < n ==> prop !in stack[k]
  {
    if n > 0 && prop !in stack[n - 1] {
      ScanFindHighest(stack, prop, n - 1);
    }
  }

  /** The lookup reads `undefined` when no frame holds `prop`; when some frame
      does, the value read is that of a frame holding it. */
  lemma FindInStackFound(stack: seq<Frame>, prop: string, bsp: int)
    ensures (forall j :: 0 <= j < |stack| ==> prop !in stack[j]) ==> FindInStack(stack, prop, bsp) == Undefined
    ensures (exists j :: 0 <= j < |stack| && prop in stack[j]) ==>
              exists j :: 0 <= j < |stack| && prop in stack[j] && FindInStack(stack, prop, bsp) == stack[j][prop]
  {
    ChainFindFirst(stack, prop, bsp);
    ScanFindHighest(stack, prop, |stack|);
    var ch := Chain(stack, bsp);
    var i := FirstHolder(stack, prop, ch);
    if i < |ch| {
      assert prop in stack[ch[i]] && FindInStack(stack, prop, bsp) == stack[ch[i]][prop];
    }
  }

  /** When no frame on the chain holds `prop`, the lookup falls back to the
      highest-index frame that does. */
  lemma FallbackIsHighest(stack: seq<Frame>, prop: string, bsp: int, j: nat)
    requires forall i :: 0 <= i < |Chain(stack, bsp)| ==> prop !in stack[Chain(stack, bsp)[i]]
    requires j < |stack| && prop in stack[j]
    requires forall k :: j < k < |stack| ==> prop !in stack[k]
    ensures FindInStack(stack, prop, bsp) == stack[j][prop]
  {
    ChainFindFirst(stack, prop, bsp);
    ScanFindHighest(stack, prop, |stack|);
  }

  /** `findInStack`, as the evaluator runs it: the chain walk, then the reverse scan. */
  method Find(stack: seq<Frame>, prop: string, bsp: int) returns (v: Value)
    ensures v == FindInStack(stack, prop, bsp)
  {
    var cursor := bsp;
    while cursor >= 0
      invariant ChainFind(stack, prop, cursor) == ChainFind(stack, prop, bsp)
      decreases cursor + 1
    {
      if cursor >= |stack| {
        break;
      }
      var frame := stack[cursor];
      if prop in frame {
        return frame[prop];
      }
      var up := Get(frame, "__BSP");
      if up.Num? && up.n < cursor {
        cursor := up.n;
      } else {
        break;
      }
    }
    for i := |stack| downto 0
      invariant ScanFind(stack, prop, i) == ScanFind(stack, prop, |stack|)
    {
      if prop in stack[i] {
        return stack[i][prop];
      }
    }
    return Undefined;
  }

  /** A read through the `Tags` view: the key's value when the tags object
      has it, `false` otherwise; with no tags at all the view is an empty
      object. Probing a key of a string, number or boolean throws (nothing). */
  function TagRead(tags: Value, p: string): Option<Value> {
    if !Truthy(tags) then Some(Bool(false))
    else match tags
      case Obj(fs) => Some(if HasKey(fs, p) then Lookup(fs, p) else Bool(false))
      case Arr(items) =>
        var fs := KrakoaContextual.ArrayFields(items);
        Some(if p == "length" then Num(|items|) else if HasKey(fs, p) then Lookup(fs, p) else Bool(false))
      case _ => None
  }

  /** What a lambda's `ctx` sees: the data stack as the lookup walks it from `BSP`. */
  datatype Scope = Scope(stack: seq<Frame>, bsp: int) {
    /** `ctx[prop]` for any `prop` but `Tags`. */
    function Read(prop: string): Value {
      FindInStack(stack, prop, bsp)
    }

    /** `ctx.Tags[p]`. */
    function Tag(p: string): Option<Value> {
      TagRead(FindInStack(stack, "Tags", bsp), p)
    }
  }

  /** A key missing from the tags reads `false`, whether the nearest `Tags`
      is an object without it or there are no tags at all; a key present
      reads its value. */
  lemma TagsDefaultFalse(s: Scope, p: string)
    ensures var tags := FindInStack(s.stack, "Tags", s.bsp);
            && (!Truthy(tags) ==> s.Tag(p) == Some(Bool(false)))
            && (tags.Obj? && !HasKey(tags.fields, p) ==> s.Tag(p) == Some(Bool(false)))
            && (tags.Obj? && HasKey(tags.fields, p) ==> s.Tag(p) == Some(Lookup(tags.fields, p)))
  {
  }

  /** `evalLambda(runner, id, value)`. The lambda's code is opaque: `run`
      stands for running it against the scope, with nothing for a throw,
      which the evaluator turns into `undefined`. */
  function Evaluate(s: Scope, value: Value, run: (Value, Scope) -> Option<Value>): (r: Value)
    ensures !IsLambda(value) ==> r == value
    ensures IsLambda(value) && run(value, s).Some? ==> r == run(value, s).value
    ensures IsLambda(value) && run(value, s).None? ==> r == Undefined
  {
    if IsLambda(value) then
      match run(value, s)
      case Some(v) => v
      case None => Undefined
    else value
  }
}
