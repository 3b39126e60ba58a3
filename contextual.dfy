/** The Contextual opcodes (`👤`, `🧠`, `🧬`): push one frame holding the
    instruction's params under its id, and tell an enclosing trigger scope that
    its body has started executing. */
module KrakoaContextual {
  import opened KrakoaValues
  import opened KrakoaRunner

  /** The keys `{...v}` copies from an array: its indices. */
  function ArrayFields(items: seq<Value>): (r: seq<Field>)
    ensures |r| == |items|
    ensures forall i :: 0 <= i < |items| ==> r[i] == Field(IntToString(i), items[i])
    decreases |items|
  {
    if items == [] then []
    else ArrayFields(items[..|items| - 1]) + [Field(IntToString(|items| - 1), items[|items| - 1])]
  }

  /** The keys `{...v}` copies from a string: one per character. */
  function StringFields(s: string): (r: seq<Field>)
    ensures |r| == |s|
    ensures forall i :: 0 <= i < |s| ==> r[i] == Field(IntToString(i), Str([s[i]]))
    decreases |s|
  {
    if s == [] then []
    else StringFields(s[..|s| - 1]) + [Field(IntToString(|s| - 1), Str([s[|s| - 1]]))]
  }

  /** `{...v}`: an object's own fields; numbers, booleans, `null` and `undefined` spread to nothing. */
  function Spread(v: Value): seq<Field> {
    match v
    case Obj(fs) => fs
    case Arr(items) => ArrayFields(items)
    case Str(s) => StringFields(s)
    case _ => []
  }

  /** `{...params, __type, __address, __timestamp}`. */
  function ContextObject(params: Value, kind: Value, address: int, now: int): Value {
    Obj(ObjSet(ObjSet(ObjSet(Spread(params), "__type", kind), "__address", Num(address)), "__timestamp", Num(now)))
  }

  /** The frame pushed for instruction `ins`: `{[id]: context}`. */
  function ContextFrame(ins: Value, address: int, now: int): Frame {
    map[ToKey(Prop(ins, "id")) := ContextObject(Prop(ins, "params"), Prop(ins, "type"), address, now)]
  }

  /** The frame at `BSP`, flagged as executing when it is a trigger scope. */
  function FlagScope(stack: seq<Frame>, bsp: int): (r: seq<Frame>)
    ensures |r| == |stack|
    ensures forall i :: 0 <= i < |stack| && i != bsp ==> r[i] == stack[i]
  {
    match FrameAt(stack, bsp)
    case Some(f) => if Truthy(Get(f, "__trigger")) then stack[bsp := f["__isExecuting" := Bool(true)]] else stack
    case None => stack
  }

  /** The Contextual handler on instruction `ins` fetched at `address`, with `now` as `Date.now()`. */
  function ContextualOp(m: Machine, ins: Value, address: int, now: int): (e: Effect)
    ensures e.out != Threw && e.next.ip == m.ip && e.next.bsp == m.bsp && e.next.status == m.status
    ensures e.out == Returned(true) <==> Prop(ins, "id") != Undefined
    ensures |e.next.stack| == |m.stack| + (if Prop(ins, "id") == Undefined then 0 else 1)
    ensures TopIsEsp(m) ==> TopIsEsp(e.next)
  {
    var id := Prop(ins, "id");
    if id == Undefined then Effect(Returned(false), m)
    else
      var stack := FlagScope(m.stack, m.bsp);
      FlagScopeFacts(m.stack, m.bsp);
      Effect(Returned(true), m.(stack := stack + [ContextFrame(ins, address, now)], esp := |stack|))
  }

  /** Without an id nothing happens and the handler fails. */
  lemma NoIdFails(m: Machine, ins: Value, address: int, now: int)
    requires Prop(ins, "id") == Undefined
    ensures ContextualOp(m, ins, address, now) == Effect(Returned(false), m)
  {
  }

  /** The context object holds the params as they are, plus `__type`,
      `__address` and `__timestamp`. */
  lemma ContextObjectFields(params: Value, kind: Value, address: int, now: int)
    ensures var o := ContextObject(params, kind, address, now);
            && Prop(o, "__type") == kind
            && Prop(o, "__address") == Num(address)
            && Prop(o, "__timestamp") == Num(now)
            && forall k :: k !in {"__type", "__address", "__timestamp"} ==> Prop(o, k) == Lookup(Spread(params), k)
  {
    var s0 := Spread(params);
    var s1 := ObjSet(s0, "__type", kind);
    var s2 := ObjSet(s1, "__address", Num(address));
    var s3 := ObjSet(s2, "__timestamp", Num(now));
    assert ContextObject(params, kind, address, now) == Obj(s3);
  }

  /** With an id, exactly one frame `{id: context}` is pushed and `ESP` names
      it; `BSP`, `IP` and `Status` stay; the frame at `BSP` gains
      `__isExecuting = true` if it is a trigger scope, and no other frame changes. */
  lemma PushesOneFrame(m: Machine, ins: Value, address: int, now: int)
    requires TopIsEsp(m)
    requires Prop(ins, "id") != Undefined
    ensures var e := ContextualOp(m, ins, address, now);
            var n := |m.stack|;
            && e.out == Returned(true)
            && TopIsEsp(e.next) && |e.next.stack| == n + 1
            && e.next.bsp == m.bsp && e.next.ip == m.ip && e.next.status == m.status
            && e.next.stack[n] == ContextFrame(ins, address, now)
            && (forall i :: 0 <= i < n && i != m.bsp ==> e.next.stack[i] == m.stack[i])
            && (0 <= m.bsp < n ==>
                  e.next.stack[m.bsp] == if Truthy(Get(m.stack[m.bsp], "__trigger"))
                                         then m.stack[m.bsp]["__isExecuting" := Bool(true)]
                                         else m.stack[m.bsp])
  {
    var s := FlagScope(m.stack, m.bsp);
    FlagScopeFacts(m.stack, m.bsp);
    var top := ContextFrame(ins, address, now);
    assert ContextualOp(m, ins, address, now) == Effect(Returned(true), m.(stack := s + [top], esp := |s|));
    assert (s + [top])[|m.stack|] == top;
  }

  lemma FlagScopeFacts(stack: seq<Frame>, bsp: int)
    ensures var s := FlagScope(stack, bsp);
            && |s| == |stack|
            && (forall i :: 0 <= i < |stack| && i != bsp ==> s[i] == stack[i])
            && (0 <= bsp < |stack| ==>
                  s[bsp] == if Truthy(Get(stack[bsp], "__trigger")) then stack[bsp]["__isExecuting" := Bool(true)] else stack[bsp])
  {
  }

  /** The handler, run on the runner's own registers and stack. */
  method Contextual(r: Runner, ins: Value, address: int, now: int) returns (out: Outcome)
    modifies r
    ensures old(r.Valid()) ==> r.Valid()
    ensures Effect(out, r.State()) == ContextualOp(old(r.State()), ins, address, now)
  {
    var id := Prop(ins, "id");
    if id == Undefined {
      return Returned(false);
    }
    var parent := FrameAt(r.DataStack, r.BSP);
    if parent.Some? && Truthy(Get(parent.value, "__trigger")) {
      r.DataStack := r.DataStack[r.BSP := parent.value["__isExecuting" := Bool(true)]];
    }
    ghost var flagged := r.DataStack;
    assert flagged == FlagScope(old(r.DataStack), r.BSP);
    r.DataStack := r.DataStack + [ContextFrame(ins, address, now)];
    r.ESP := |r.DataStack| - 1;
    return Returned(true);
  }
}
