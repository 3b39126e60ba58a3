/** The Trigger opcode (`➔`): entering a trigger scope pushes a frame that
    records where the body starts and where to go afterwards; re-entering the
    scope at its own frame either runs another cycle or exits, popping every
    frame above it and merging each into the trigger's frame. */
module KrakoaTrigger {
  import opened KrakoaValues
  import opened KrakoaRunner

  /** The name of a trigger's scope, `__trigger@<address>:<id or anon>`. */
  function TriggerName(address: int, id: Value): string {
    "__trigger@" + IntToString(address) + ":" + (if id == Undefined || id == Null then "anon" else ToKey(id))
  }

  /** A scope name never collides with the other keys of its frame. */
  lemma TriggerNameIsFresh(address: int, id: Value)
    ensures var name := TriggerName(address, id);
            name != "__trigger" && name != "__retAddress" && name != "__isExecuting" && name != "__BSP"
  {
    var name := TriggerName(address, id);
    assert name[..10] == "__trigger@";
    assert name[2] == 't' && name[9] == '@';
  }

  /** `v[i]`: nothing when `v` is `undefined` or `null` (a TypeError). */
  function Index(v: Value, i: nat): Option<Value> {
    match v
    case Undefined => None
    case Null => None
    case Arr(items) => Some(if i < |items| then items[i] else Undefined)
    case Str(s) => Some(if i < |s| then Str([s[i]]) else Undefined)
    case Obj(fs) => Some(Lookup(fs, IntToString(i)))
    case _ => Some(Undefined)
  }

  /** The cycle record of a new scope: one cycle, the body's address and the address after it. */
  function CycleRecord(cur: Value, ret: Value): Value {
    Obj([Field("__cycleCount", Num(0)), Field("__cycleMaxim", Num(1)),
         Field("__curAddress", cur), Field("__retAddress", ret)])
  }

  /** What a new cycle record reads back. */
  lemma CycleRecordFields(cur: Value, ret: Value)
    ensures var rec := CycleRecord(cur, ret);
            && Prop(rec, "__cycleCount") == Num(0) && Prop(rec, "__cycleMaxim") == Num(1)
            && Prop(rec, "__curAddress") == cur && Prop(rec, "__retAddress") == ret
  {
    assert "__cycleCount" != "__cycleMaxim" by { assert "__cycleCount"[7] != "__cycleMaxim"[7]; }
    assert "__cycleCount" != "__curAddress" by { assert "__cycleCount"[3] != "__curAddress"[3]; }
    assert "__cycleMaxim" != "__curAddress" by { assert "__cycleMaxim"[3] != "__curAddress"[3]; }
    assert "__retAddress" != "__cycleCount" by { assert "__retAddress"[2] != "__cycleCount"[2]; }
    assert "__retAddress" != "__cycleMaxim" by { assert "__retAddress"[2] != "__cycleMaxim"[2]; }
    assert "__retAddress" != "__curAddress" by { assert "__retAddress"[2] != "__curAddress"[2]; }
    var a, b, c, d := Field("__cycleCount", Num(0)), Field("__cycleMaxim", Num(1)),
                      Field("__curAddress", cur), Field("__retAddress", ret);
    assert CycleRecord(cur, ret).fields == [a] + ([b] + ([c] + [d]));
    LookupCons(a, [b] + ([c] + [d]), "__cycleCount");
    LookupCons(a, [b] + ([c] + [d]), "__cycleMaxim");
    LookupCons(b, [c] + [d], "__cycleMaxim");
    LookupCons(a, [b] + ([c] + [d]), "__curAddress");
    LookupCons(b, [c] + [d], "__curAddress");
    LookupCons(c, [d], "__curAddress");
    LookupCons(a, [b] + ([c] + [d]), "__retAddress");
    LookupCons(b, [c] + [d], "__retAddress");
    LookupCons(c, [d], "__retAddress");
    LookupCons(d, [], "__retAddress");
  }

  /** The frame pushed on entering the scope `name` of the trigger at `address`. */
  function EnterFrame(name: string, cur: Value, ret: Value, address: int, bsp: int): Frame {
    map["__trigger" := Str(name), name := CycleRecord(cur, ret), "__retAddress" := Num(address),
        "__isExecuting" := Bool(false), "__BSP" := Num(bsp)]
  }

  /** The frame at `BSP` is this trigger's own scope. */
  predicate AtOwnFrame(m: Machine, name: string) {
    0 <= m.bsp < |m.stack| && Get(m.stack[m.bsp], "__trigger") == Str(name)
  }

  /** `__cycleCount + 1 < __cycleMaxim`, for the numeric counters a cycle record holds. */
  predicate CycleContinues(rec: Value) {
    var c := Prop(rec, "__cycleCount");
    var x := Prop(rec, "__cycleMaxim");
    c.Num? && x.Num? && c.n + 1 < x.n
  }

  /** A popped frame without its `__trigger` key and the key that names. */
  function Strip(child: Frame): Frame {
    (child - {ToKey(Get(child, "__trigger"))}) - {"__trigger"}
  }

  /** `Object.assign(parent, child)` after stripping the child: the child's keys win. */
  function Absorb(parent: Frame, child: Frame): Frame {
    parent + Strip(child)
  }

  /** Absorbing a popped frame drops its `__trigger` key and the key that
      names, and otherwise lets the child's keys win over the parent's. */
  lemma AbsorbFacts(parent: Frame, child: Frame)
    ensures var c := Strip(child);
            forall k :: k in c <==> k in child && k != "__trigger" && k != ToKey(Get(child, "__trigger"))
    ensures var r := Absorb(parent, child);
            && (forall k :: k in r <==> k in parent || k in Strip(child))
            && (forall k :: k in Strip(child) ==> r[k] == child[k])
            && (forall k :: k in parent && k !in Strip(child) ==> r[k] == parent[k])
  {
  }

  /** The exit loop: pops frames from the top down to index `p`, absorbing
      each into the frame at `p`. */
  function MergeDown(s: seq<Frame>, p: nat): (r: seq<Frame>)
    requires p < |s|
    ensures |r| == p + 1
    ensures forall i :: 0 <= i < p ==> r[i] == s[i]
    decreases |s|
  {
    if |s| == p + 1 then s
    else MergeDown(s[..|s| - 1][p := Absorb(s[p], s[|s| - 1])], p)
  }

  /** Entering: push the scope's frame, point both stack pointers at it and jump into the body. */
  function Enter(m: Machine, name: string, next: Value, address: int): (e: Effect)
    ensures e.out == Threw <==> next == Undefined || next == Null
    ensures e.out != Returned(false) && e.next.status == m.status
    ensures e.out == Threw ==> e.next == m
    ensures e.out == Returned(true) ==>
              && |e.next.stack| == |m.stack| + 1 && e.next.stack[..|m.stack|] == m.stack
              && e.next.esp == e.next.bsp == |m.stack|
              && Get(e.next.stack[|m.stack|], "__BSP") == Num(m.bsp)
  {
    match Index(next, 0)
    case None => Effect(Threw, m)
    case Some(cur) =>
      var ret := Index(next, 1).value;
      var frame := EnterFrame(name, cur, ret, address, m.bsp);
      Effect(Returned(true), Machine(AddrOf(cur), m.status, |m.stack|, |m.stack|, m.stack + [frame]))
  }

  /** `__cycleCount++` on a cycle record. */
  function CountCycle(rec: Value): Value
    requires CycleContinues(rec)
  {
    Obj(ObjSet(rec.fields, "__cycleCount", Num(Prop(rec, "__cycleCount").n + 1)))
  }

  /** Counting a cycle changes the count and nothing else in the record. */
  lemma CountCycleFields(rec: Value)
    requires CycleContinues(rec)
    ensures Prop(CountCycle(rec), "__cycleCount") == Num(Prop(rec, "__cycleCount").n + 1)
    ensures forall k :: k != "__cycleCount" ==> Prop(CountCycle(rec), k) == Prop(rec, k)
  {
  }

  /** Another cycle: count it, jump back to the body and clear `__isExecuting`. */
  function Cycle(m: Machine, name: string, rec: Value): (e: Effect)
    requires 0 <= m.bsp < |m.stack| && CycleContinues(rec)
    ensures e.out == Returned(true)
    ensures e.next == m.(ip := e.next.ip, stack := e.next.stack)
    ensures |e.next.stack| == |m.stack|
    ensures forall i :: 0 <= i < |m.stack| && i != m.bsp ==> e.next.stack[i] == m.stack[i]
  {
    var counted := CountCycle(rec);
    var frame := m.stack[m.bsp][name := counted]["__isExecuting" := Bool(false)];
    Effect(Returned(true), m.(ip := AddrOf(Prop(counted, "__curAddress")), stack := m.stack[m.bsp := frame]))
  }

  /** Exiting: merge everything above `BSP` into the scope's frame, then take
      `BSP` from that frame's `__BSP` and `IP` from its cycle record. */
  function Exit(m: Machine): (e: Effect)
    requires TopIsEsp(m) && 0 <= m.bsp < |m.stack|
    ensures e.out != Returned(false) && e.next.status == m.status
    ensures TopIsEsp(e.next) && |e.next.stack| == m.bsp + 1
    ensures forall i :: 0 <= i < m.bsp ==> e.next.stack[i] == m.stack[i]
    ensures e.next.bsp == AddrOf(Get(e.next.stack[m.bsp], "__BSP"))
  {
    var s := MergeDown(m.stack, m.bsp);
    var parent := s[m.bsp];
    var bsp := AddrOf(Get(parent, "__BSP"));
    var rec := Get(parent, ToKey(Get(parent, "__trigger")));
    if rec == Undefined || rec == Null then Effect(Threw, Machine(m.ip, m.status, m.bsp, bsp, s))
    else Effect(Returned(true), Machine(AddrOf(Prop(rec, "__retAddress")), m.status, m.bsp, bsp, s))
  }

  /** The Trigger handler on instruction `ins` fetched at `address`. */
  function TriggerOp(m: Machine, ins: Value, address: int): (e: Effect)
    requires TopIsEsp(m)
    ensures TopIsEsp(e.next) && e.next.status == m.status
    ensures e.out != Returned(false)
    ensures forall i :: 0 <= i < |m.stack| && i < m.bsp ==> i < |e.next.stack| && e.next.stack[i] == m.stack[i]
  {
    var name := TriggerName(address, Prop(ins, "id"));
    if !AtOwnFrame(m, name) then Enter(m, name, Prop(ins, "next"), address)
    else
      var rec := Get(m.stack[m.bsp], name);
      if rec == Undefined || rec == Null then Effect(Threw, m)
      else if CycleContinues(rec) then Cycle(m, name, rec)
      else Exit(m)
  }

  /** A key no popped frame brings along keeps its value in the scope's frame. */
  lemma {:induction false} MergeDownUntouched(s: seq<Frame>, p: nat, k: string)
    requires p < |s|
    requires forall i :: p < i < |s| ==> k !in Strip(s[i])
    ensures k in MergeDown(s, p)[p] <==> k in s[p]
    ensures k in s[p] ==> MergeDown(s, p)[p][k] == s[p][k]
    decreases |s|
  {
    if |s| > p + 1 {
      var s' := s[..|s| - 1][p := Absorb(s[p], s[|s| - 1])];
      assert forall i :: p < i < |s'| ==> s'[i] == s[i];
      MergeDownUntouched(s', p, k);
    }
  }

  /** Of the popped frames that bring key `k`, the lowest one decides its
      value: it is popped last, so its `Object.assign` comes last. */
  lemma {:induction false} MergeDownKey(s: seq<Frame>, p: nat, k: string, j: nat)
    requires p < j < |s| && k in Strip(s[j])
    requires forall i :: p < i < j ==> k !in Strip(s[i])
    ensures k in MergeDown(s, p)[p] && MergeDown(s, p)[p][k] == Strip(s[j])[k]
    decreases |s|
  {
    var s' := s[..|s| - 1][p := Absorb(s[p], s[|s| - 1])];
    assert forall i :: p < i < |s'| ==> s'[i] == s[i];
    if j == |s| - 1 {
      MergeDownUntouched(s', p, k);
    } else {
      MergeDownKey(s', p, k, j);
    }
  }

  /** `__trigger` is stripped from every popped frame, so the scope keeps its own name. */
  lemma MergeDownKeepsName(s: seq<Frame>, p: nat)
    requires p < |s|
    ensures Get(MergeDown(s, p)[p], "__trigger") == Get(s[p], "__trigger")
  {
    MergeDownUntouched(s, p, "__trigger");
  }

  /** Entering pushes exactly one frame, holding the cycle record
      `{0, 1, next[0], next[1]}`, the trigger's address, `__isExecuting = false`
      and the old `BSP`; both stack pointers then name it and `IP` is `next[0]`. */
  lemma EnterPushes(m: Machine, ins: Value, address: int)
    requires TopIsEsp(m)
    requires !AtOwnFrame(m, TriggerName(address, Prop(ins, "id")))
    requires Prop(ins, "next").Arr?
    ensures var e := TriggerOp(m, ins, address);
            var next := Prop(ins, "next");
            var name := TriggerName(address, Prop(ins, "id"));
            && e.out == Returned(true)
            && |e.next.stack| == |m.stack| + 1
            && e.next.stack[..|m.stack|] == m.stack
            && e.next.stack[|m.stack|] == EnterFrame(name, Index(next, 0).value, Index(next, 1).value, address, m.bsp)
            && e.next.esp == e.next.bsp == |m.stack|
            && e.next.ip == AddrOf(Index(next, 0).value)
  {
  }

  /** A further cycle adds exactly one to `__cycleCount`, jumps to
      `__curAddress`, clears `__isExecuting` and changes no other frame. */
  lemma CycleCounts(m: Machine, ins: Value, address: int)
    requires TopIsEsp(m)
    requires AtOwnFrame(m, TriggerName(address, Prop(ins, "id")))
    requires CycleContinues(Get(m.stack[m.bsp], TriggerName(address, Prop(ins, "id"))))
    ensures var e := TriggerOp(m, ins, address);
            var name := TriggerName(address, Prop(ins, "id"));
            var rec := Get(m.stack[m.bsp], name);
            var rec' := Get(e.next.stack[m.bsp], name);
            && e.out == Returned(true)
            && |e.next.stack| == |m.stack|
            && (forall i :: 0 <= i < |m.stack| && i != m.bsp ==> e.next.stack[i] == m.stack[i])
            && Prop(rec', "__cycleCount") == Num(Prop(rec, "__cycleCount").n + 1)
            && (forall k :: k != "__cycleCount" ==> Prop(rec', k) == Prop(rec, k))
            && Get(e.next.stack[m.bsp], "__isExecuting") == Bool(false)
            && e.next.ip == AddrOf(Prop(rec, "__curAddress"))
            && e.next.esp == m.esp && e.next.bsp == m.bsp
  {
    var name := TriggerName(address, Prop(ins, "id"));
    var rec := Get(m.stack[m.bsp], name);
    TriggerNameIsFresh(address, Prop(ins, "id"));
    assert TriggerOp(m, ins, address) == Cycle(m, name, rec);
    CycleFacts(m, name, rec);
  }

  lemma CycleFacts(m: Machine, name: string, rec: Value)
    requires 0 <= m.bsp < |m.stack| && CycleContinues(rec)
    requires rec == Get(m.stack[m.bsp], name) && name != "__isExecuting"
    ensures var n := Cycle(m, name, rec).next;
            var rec' := Get(n.stack[m.bsp], name);
            && |n.stack| == |m.stack|
            && (forall i :: 0 <= i < |m.stack| && i != m.bsp ==> n.stack[i] == m.stack[i])
            && Prop(rec', "__cycleCount") == Num(Prop(rec, "__cycleCount").n + 1)
            && (forall k :: k != "__cycleCount" ==> Prop(rec', k) == Prop(rec, k))
            && Get(n.stack[m.bsp], "__isExecuting") == Bool(false)
            && n.ip == AddrOf(Prop(rec, "__curAddress"))
            && n.esp == m.esp && n.bsp == m.bsp
  {
    CountCycleFields(rec);
    var frame := m.stack[m.bsp][name := CountCycle(rec)]["__isExecuting" := Bool(false)];
    assert Get(frame, name) == CountCycle(rec);
  }

  /** A freshly entered scope holds `__cycleMaxim = 1`, so the first re-entry exits. */
  lemma FirstReentryExits(m: Machine, ins: Value, address: int, cur: Value, ret: Value)
    requires TopIsEsp(m)
    requires AtOwnFrame(m, TriggerName(address, Prop(ins, "id")))
    requires Get(m.stack[m.bsp], TriggerName(address, Prop(ins, "id"))) == CycleRecord(cur, ret)
    ensures TriggerOp(m, ins, address) == Exit(m)
  {
    CycleRecordFields(cur, ret);
  }

  /** Exiting pops down to the scope's frame, which stays on the stack with
      the popped frames merged in, and returns through the scope's cycle record. */
  lemma ExitReturns(m: Machine, ins: Value, address: int)
    requires TopIsEsp(m)
    requires AtOwnFrame(m, TriggerName(address, Prop(ins, "id")))
    requires Get(m.stack[m.bsp], TriggerName(address, Prop(ins, "id"))) !in {Undefined, Null}
    requires !CycleContinues(Get(m.stack[m.bsp], TriggerName(address, Prop(ins, "id"))))
    ensures var e := TriggerOp(m, ins, address);
            var name := TriggerName(address, Prop(ins, "id"));
            var s := MergeDown(m.stack, m.bsp);
            && e.next.stack == s
            && |e.next.stack| == m.bsp + 1 && e.next.esp == m.bsp
            && (forall i :: 0 <= i < m.bsp ==> e.next.stack[i] == m.stack[i])
            && e.next.bsp == AddrOf(Get(s[m.bsp], "__BSP"))
            && (e.out == Returned(true) <==> Get(s[m.bsp], name) != Undefined && Get(s[m.bsp], name) != Null)
            && (e.out == Returned(true) ==> e.next.ip == AddrOf(Prop(Get(s[m.bsp], name), "__retAddress")))
  {
    var name := TriggerName(address, Prop(ins, "id"));
    MergeDownKeepsName(m.stack, m.bsp);
    assert TriggerOp(m, ins, address) == Exit(m);
  }

  /** A nested trigger's frame popped on exit brings its own `__BSP` and
      `__retAddress`; only its name and `__trigger` are stripped, so they
      overwrite the scope's, and the new `BSP` is the nested scope's saved
      one rather than the scope's own. */
  lemma ExitTakesNestedBSP(m: Machine, id: Value, cur: Value, ret: Value, address: int, bsp: int)
    requires TopIsEsp(m) && 0 <= m.bsp && m.bsp + 1 < |m.stack|
    requires m.stack[m.bsp + 1] == EnterFrame(TriggerName(address, id), cur, ret, address, bsp)
    ensures Exit(m).next.bsp == bsp
    ensures Get(Exit(m).next.stack[m.bsp], "__retAddress") == Num(address)
  {
    var name := TriggerName(address, id);
    TriggerNameIsFresh(address, id);
    var f := m.stack[m.bsp + 1];
    assert Get(f, "__trigger") == Str(name);
    assert Strip(f) == (f - {name}) - {"__trigger"};
    assert "__BSP" in Strip(f) && Strip(f)["__BSP"] == Num(bsp);
    assert "__retAddress" in Strip(f) && Strip(f)["__retAddress"] == Num(address);
    MergeDownKey(m.stack, m.bsp, "__BSP", m.bsp + 1);
    MergeDownKey(m.stack, m.bsp, "__retAddress", m.bsp + 1);
  }

  /** Entering and immediately re-entering leaves the new frame on the stack,
      restores `BSP` and continues at `next[1]`: one cycle of an empty body. */
  lemma EnterThenExit(m: Machine, ins: Value, address: int)
    requires TopIsEsp(m)
    requires !AtOwnFrame(m, TriggerName(address, Prop(ins, "id")))
    requires Prop(ins, "next").Arr?
    ensures var m1 := TriggerOp(m, ins, address).next;
            var e := TriggerOp(m1, ins, address);
            && e.out == Returned(true)
            && e.next.stack == m1.stack
            && e.next.bsp == m.bsp && e.next.esp == |m.stack|
            && e.next.ip == AddrOf(Index(Prop(ins, "next"), 1).value)
  {
    var next := Prop(ins, "next");
    var cur, ret := Index(next, 0).value, Index(next, 1).value;
    var name := TriggerName(address, Prop(ins, "id"));
    var frame := EnterFrame(name, cur, ret, address, m.bsp);
    var m1 := Machine(AddrOf(cur), m.status, |m.stack|, |m.stack|, m.stack + [frame]);
    assert TriggerOp(m, ins, address) == Effect(Returned(true), m1);
    TriggerNameIsFresh(address, Prop(ins, "id"));
    assert Get(frame, "__trigger") == Str(name);
    assert Get(frame, name) == CycleRecord(cur, ret);
    FirstReentryExits(m1, ins, address, cur, ret);
    assert MergeDown(m1.stack, m1.bsp) == m1.stack;
    assert m1.stack[m1.bsp] == frame;
    assert Get(frame, "__BSP") == Num(m.bsp);
    CycleRecordFields(cur, ret);
    assert Exit(m1) == Effect(Returned(true), Machine(AddrOf(ret), m.status, |m.stack|, m.bsp, m1.stack));
  }

  /** The handler, run on the runner's own registers and stack. */
  method Trigger(r: Runner, ins: Value, address: int) returns (out: Outcome)
    requires r.Valid()
    modifies r
    ensures r.Valid()
    ensures Effect(out, r.State()) == TriggerOp(old(r.State()), ins, address)
  {
    ghost var m := r.State();
    var name := TriggerName(address, Prop(ins, "id"));
    var current := FrameAt(r.DataStack, r.BSP);
    if current.None? || Get(current.value, "__trigger") != Str(name) {
      assert TriggerOp(m, ins, address) == Enter(m, name, Prop(ins, "next"), address);
      out := EnterScope(r, name, Prop(ins, "next"), address);
      return;
    }
    assert AtOwnFrame(m, name);
    var rec := Get(r.DataStack[r.BSP], name);
    if rec == Undefined || rec == Null {
      return Threw;
    }
    if CycleContinues(rec) {
      assert TriggerOp(m, ins, address) == Cycle(m, name, rec);
      CycleScope(r, name, rec);
      return Returned(true);
    }
    assert TriggerOp(m, ins, address) == Exit(m);
    out := ExitScope(r);
  }

  /** The entering branch: push the new scope and jump into its body. */
  method EnterScope(r: Runner, name: string, next: Value, address: int) returns (out: Outcome)
    requires r.Valid()
    modifies r
    ensures r.Valid()
    ensures Effect(out, r.State()) == Enter(old(r.State()), name, next, address)
  {
    var first := Index(next, 0);
    if first.None? {
      return Threw;
    }
    var frame := EnterFrame(name, first.value, Index(next, 1).value, address, r.BSP);
    r.DataStack := r.DataStack + [frame];
    r.ESP := |r.DataStack| - 1;
    r.BSP := r.ESP;
    r.IP := AddrOf(first.value);
    return Returned(true);
  }

  /** The cycling branch: count the cycle and run the body again. */
  method CycleScope(r: Runner, name: string, rec: Value)
    requires r.Valid() && 0 <= r.BSP < |r.DataStack| && CycleContinues(rec)
    modifies r
    ensures r.Valid()
    ensures Effect(Returned(true), r.State()) == Cycle(old(r.State()), name, rec)
  {
    var p := r.BSP;
    var counted := CountCycle(rec);
    var frame := r.DataStack[p][name := counted];
    r.IP := AddrOf(Prop(counted, "__curAddress"));
    frame := frame["__isExecuting" := Bool(false)];
    r.DataStack := r.DataStack[p := frame];
  }

  /** The exiting branch: pop and merge, then rebase `BSP` and `IP`. */
  method ExitScope(r: Runner) returns (out: Outcome)
    requires r.Valid() && 0 <= r.BSP < |r.DataStack|
    modifies r
    ensures r.Valid()
    ensures Effect(out, r.State()) == Exit(old(r.State()))
  {
    var p := r.BSP;
    PopAndMerge(r);
    r.BSP := AddrOf(Get(r.DataStack[p], "__BSP"));
    var back := Get(r.DataStack[p], ToKey(Get(r.DataStack[p], "__trigger")));
    if back == Undefined || back == Null {
      return Threw;
    }
    r.IP := AddrOf(Prop(back, "__retAddress"));
    return Returned(true);
  }

  /** The exit loop: while `ESP > BSP`, pop the top frame, strip it and
      assign its keys onto the frame at `BSP`. */
  method PopAndMerge(r: Runner)
    requires r.Valid() && 0 <= r.BSP < |r.DataStack|
    modifies r
    ensures r.Valid() && r.DataStack == MergeDown(old(r.DataStack), old(r.BSP))
    ensures r.IP == old(r.IP) && r.Status == old(r.Status) && r.BSP == old(r.BSP)
  {
    var p := r.BSP;
    while r.ESP > r.BSP
      invariant r.Valid() && r.BSP == p && p < |r.DataStack|
      invariant MergeDown(r.DataStack, p) == MergeDown(old(r.DataStack), p)
      invariant r.IP == old(r.IP) && r.Status == old(r.Status)
      decreases r.ESP
    {
      ghost var s := r.DataStack;
      var child := r.DataStack[|r.DataStack| - 1];
      r.DataStack := r.DataStack[..|r.DataStack| - 1];
      child := child - {ToKey(Get(child, "__trigger"))};
      child := child - {"__trigger"};
      r.DataStack := r.DataStack[p := r.DataStack[p] + child];
      r.ESP := |r.DataStack| - 1;
      assert r.DataStack == s[..|s| - 1][p := Absorb(s[p], s[|s| - 1])];
    }
  }
}
