/** The runner's `execute` (dispatch through `InstructionMap` plus the
    implicit-return rule), `step` (fetch, decode, execute, auto-advance) and
    the bounded driver loop that steps a program until it stops. */
module KrakoaExecution {
  import opened KrakoaValues
  import opened KrakoaSchema
  import opened KrakoaRunner
  import KrakoaPool
  import opened KrakoaTrigger
  import opened KrakoaContextual
  import opened KrakoaInheritance
  import opened KrakoaSpeech

  /** The opcodes `InstructionMap` has a handler for (besides the two Speech ones). */
  const TRIGGER := "➔"
  const INHERITANCE := "🔗"
  const PERSONA := "👤"
  const MIND := "🧠"
  const GENOME := "🧬"

  datatype Handler = TriggerHandler | InheritanceHandler | SpeechHandler | ContextualHandler

  /** `InstructionMap[type]`: the handler registered under the key `type` names. */
  function HandlerFor(kind: Value): (h: Option<Handler>)
    ensures h.None? <==> ToKey(kind) !in {TRIGGER, INHERITANCE, COMMUNICATION, SIGNAL, PERSONA, MIND, GENOME}
  {
    var key := ToKey(kind);
    if key == TRIGGER then Some(TriggerHandler)
    else if key == INHERITANCE then Some(InheritanceHandler)
    else if key == COMMUNICATION || key == SIGNAL then Some(SpeechHandler)
    else if key == PERSONA || key == MIND || key == GENOME then Some(ContextualHandler)
    else None
  }

  /** `callback ? await callback(node, this) : true`. */
  function Dispatch(m: Machine, ins: Value, address: int, now: int): (e: Effect)
    requires TopIsEsp(m)
    ensures TopIsEsp(e.next) && e.next.status == m.status
  {
    match HandlerFor(Prop(ins, "type"))
    case None => Effect(Returned(true), m)
    case Some(TriggerHandler) => TriggerOp(m, ins, address)
    case Some(InheritanceHandler) => InheritanceOp(m, ins, address)
    case Some(SpeechHandler) => SpeechOp(m, ins, address, now)
    case Some(ContextualHandler) => ContextualOp(m, ins, address, now)
  }

  /** The implicit return: a trigger scope at `BSP` entered from `address - 1`
      whose body has not started executing sends `IP` back to its trigger. */
  predicate ReturnsImplicitly(m: Machine, address: int) {
    0 <= m.bsp < |m.stack|
    && Truthy(Get(m.stack[m.bsp], "__trigger"))
    && Get(m.stack[m.bsp], "__retAddress") == Num(address - 1)
    && !Truthy(Get(m.stack[m.bsp], "__isExecuting"))
  }

  function ImplicitReturn(m: Machine, address: int): (r: Machine)
    ensures r == if ReturnsImplicitly(m, address) then m.(ip := address - 1) else m
  {
    match FrameAt(m.stack, m.bsp)
    case None => m
    case Some(f) =>
      if Truthy(Get(f, "__trigger")) && Get(f, "__retAddress") == Num(address - 1) && !Truthy(Get(f, "__isExecuting"))
      then m.(ip := AddrOf(Get(f, "__retAddress")))
      else m
  }

  /** `execute(node)` on the decoded instruction `ins` fetched at `address`.
      Destructuring `type` out of a missing instruction throws. */
  function ExecuteOp(m: Machine, ins: Value, address: int, now: int): (r: Effect)
    requires TopIsEsp(m)
    ensures TopIsEsp(r.next) && r.next.status == m.status
  {
    if ins == Undefined || ins == Null then Effect(Threw, m)
    else if Prop(ins, "type") == Undefined then Effect(Returned(false), m)
    else
      var e := Dispatch(m, ins, address, now);
      if e.out == Returned(true) then Effect(Returned(true), ImplicitReturn(e.next, address))
      else e
  }

  /** Auto-advance: only when the handler left `IP` at the fetched address. */
  function Advance(m: Machine, raw: Fetched, count: nat): Machine {
    if m.ip != raw.address then m
    else if raw.next < count then m.(ip := raw.next)
    else m.(status := Halted)
  }

  /** `step()` with `now` as the clock reading its handler sees. A throw out
      of the handler rejects the step and skips the auto-advance. `ESP` stays
      at the top of the stack, and `Status` only ever goes from running to
      halted. */
  function StepOp(p: Program, m: Machine, now: int): (r: Effect)
    requires TopIsEsp(m)
    ensures TopIsEsp(r.next)
    ensures m.status == Halted ==> r.next.status == Halted
    ensures r.next.status == Running ==> m.status == Running
  {
    if m.status != Running then Effect(Returned(false), m)
    else match Fetch(p, m.ip)
      case None => Effect(Returned(false), m)
      case Some(raw) =>
        var e := ExecuteOp(m, KrakoaPool.Decode(raw.instruction, p.text), raw.address, now);
        if e.out == Threw then e
        else Effect(Returned(true), Advance(e.next, raw, |p.code|))
  }

  /** An instruction without a `type` fails and changes nothing. */
  lemma UndefinedKindFails(m: Machine, ins: Value, address: int, now: int)
    requires TopIsEsp(m)
    requires ins !in {Undefined, Null} && Prop(ins, "type") == Undefined
    ensures ExecuteOp(m, ins, address, now) == Effect(Returned(false), m)
  {
  }

  /** A `type` with no registered handler succeeds; only the implicit-return
      rule can then move `IP`, and nothing else changes. */
  lemma UnknownKindSucceeds(m: Machine, ins: Value, address: int, now: int)
    requires TopIsEsp(m)
    requires ins !in {Undefined, Null} && Prop(ins, "type") != Undefined
    requires ToKey(Prop(ins, "type")) !in {TRIGGER, INHERITANCE, COMMUNICATION, SIGNAL, PERSONA, MIND, GENOME}
    ensures var e := ExecuteOp(m, ins, address, now);
            && e.out == Returned(true)
            && e.next == (if ReturnsImplicitly(m, address) then m.(ip := address - 1) else m)
  {
  }

  /** After a successful handler, `IP` goes back to `address - 1` exactly when
      the scope at `BSP` is a trigger entered from there that has not started
      its body; otherwise the handler's machine is kept as it is. */
  lemma ImplicitReturnRule(m: Machine, ins: Value, address: int, now: int)
    requires TopIsEsp(m)
    requires ins !in {Undefined, Null} && Prop(ins, "type") != Undefined
    requires Dispatch(m, ins, address, now).out == Returned(true)
    ensures var d := Dispatch(m, ins, address, now).next;
            var e := ExecuteOp(m, ins, address, now);
            && e.out == Returned(true)
            && (ReturnsImplicitly(d, address) ==> e.next == d.(ip := address - 1))
            && (!ReturnsImplicitly(d, address) ==> e.next == d)
  {
  }

  /** A step on a machine that is not running, or whose `IP` holds no
      instruction, fails and changes nothing. */
  lemma StepNoOp(p: Program, m: Machine, now: int)
    requires TopIsEsp(m)
    requires m.status != Running || Fetch(p, m.ip).None?
    ensures StepOp(p, m, now) == Effect(Returned(false), m)
  {
  }

  /** Once an instruction is fetched the step succeeds, whatever the handler
      reported, unless the handler throws. */
  lemma StepSucceedsAfterFetch(p: Program, m: Machine, now: int)
    requires TopIsEsp(m) && m.status == Running
    requires 0 <= m.ip && m.ip in p.code
    ensures StepOp(p, m, now).out != Returned(false)
  {
  }

  /** Auto-advance: when the handler leaves `IP` at the fetched address, the
      step moves to `next[0]` if that is below the instruction count and
      halts otherwise; when the handler moved `IP`, neither happens. */
  lemma StepAdvances(p: Program, m: Machine, now: int)
    requires TopIsEsp(m) && m.status == Running
    requires 0 <= m.ip && m.ip in p.code
    ensures var raw := Fetch(p, m.ip).value;
            var e := ExecuteOp(m, KrakoaPool.Decode(raw.instruction, p.text), m.ip, now);
            var s := StepOp(p, m, now);
            e.out != Threw ==>
              && (e.next.ip == m.ip && FirstNext(p.code[m.ip]) < |p.code| ==> s.next == e.next.(ip := FirstNext(p.code[m.ip])))
              && (e.next.ip == m.ip && FirstNext(p.code[m.ip]) >= |p.code| ==> s.next == e.next.(status := Halted))
              && (e.next.ip != m.ip ==> s.next == e.next)
  {
  }

  /** A `next` of `[-1]`, as the runner's own test program has, does not halt
      the machine: `-1` is below the instruction count, so `IP` becomes -1
      with the status still running, and the following step fails. */
  lemma StallOnMinusOne(p: Program, m: Machine, now: int, later: int)
    requires TopIsEsp(m) && m.status == Running
    requires 0 <= m.ip && m.ip in p.code
    requires FirstNext(p.code[m.ip]) == -1
    requires var raw := Fetch(p, m.ip).value;
             var e := ExecuteOp(m, KrakoaPool.Decode(raw.instruction, p.text), m.ip, now);
             e.out != Threw && e.next.ip == m.ip
    ensures var s := StepOp(p, m, now);
            && s.out == Returned(true)
            && s.next.ip == -1 && s.next.status == Running
            && StepOp(p, s.next, later) == Effect(Returned(false), s.next)
  {
  }

  /** `execute`, on the runner's own state. */
  method Execute(r: Runner, ins: Value, address: int, now: int) returns (out: Outcome)
    requires r.Valid()
    modifies r
    ensures r.Valid()
    ensures Effect(out, r.State()) == ExecuteOp(old(r.State()), ins, address, now)
  {
    if ins == Undefined || ins == Null {
      return Threw;
    }
    var kind := Prop(ins, "type");
    if kind == Undefined {
      return Returned(false);
    }
    var handler := HandlerFor(kind);
    ghost var m := r.State();
    match handler {
      case None => out := Returned(true);
      case Some(TriggerHandler) => out := Trigger(r, ins, address);
      case Some(InheritanceHandler) => out := Inheritance(r, ins, address);
      case Some(SpeechHandler) => out := Speech(r, ins, address, now);
      case Some(ContextualHandler) => out := Contextual(r, ins, address, now);
    }
    assert Effect(out, r.State()) == Dispatch(m, ins, address, now);
    if out == Returned(true) {
      var parent := FrameAt(r.DataStack, r.BSP);
      if parent.Some? && Truthy(Get(parent.value, "__trigger"))
         && Get(parent.value, "__retAddress") == Num(address - 1)
         && !Truthy(Get(parent.value, "__isExecuting")) {
        r.IP := AddrOf(Get(parent.value, "__retAddress"));
      }
    }
  }

  /** `step`, on the runner's own state. */
  /** Step `i` from `m`, reading `clock(i)`, succeeds and leaves `n`. */
  ghost predicate StepsTo(p: Program, m: Machine, clock: nat -> int, i: nat, n: Machine) {
    TopIsEsp(m) && StepOp(p, m, clock(i)) == Effect(Returned(true), n)
  }

  /** `trace` is a run of `|trace| - 1` successful steps, step `i` reading `clock(i)`. */
  ghost predicate IsRun(p: Program, trace: seq<Machine>, clock: nat -> int) {
    && |trace| >= 1
    && forall i :: 0 <= i < |trace| - 1 ==> StepsTo(p, trace[i], clock, i, trace[i + 1])
  }

  lemma RunSnoc(p: Program, trace: seq<Machine>, clock: nat -> int, n: Machine)
    requires IsRun(p, trace, clock) && StepsTo(p, trace[|trace| - 1], clock, |trace| - 1, n)
    ensures IsRun(p, trace + [n], clock)
  {
    var t := trace + [n];
    forall i | 0 <= i < |t| - 1
      ensures StepsTo(p, t[i], clock, i, t[i + 1])
    {
      if i < |trace| - 1 {
        assert t[i] == trace[i] && t[i + 1] == trace[i + 1];
      }
    }
  }

  /** Step number `k` of a run whose trace so far is `trace`. */
  method NextStep(r: Runner, clock: nat -> int, k: nat, ghost trace: seq<Machine>) returns (ok: Outcome, ghost trace': seq<Machine>)
    requires r.Valid() && r.Status == Running && IsRun(r.program, trace, clock) && |trace| == k + 1 && trace[k] == r.State()
    modifies r
    ensures r.Valid()
    ensures ok == Returned(true) ==> trace' == trace + [r.State()] && IsRun(r.program, trace', clock)
    ensures ok != Returned(true) ==> trace' == trace && StepOp(r.program, old(r.State()), clock(k)) == Effect(ok, r.State())
    ensures ok == Returned(false) ==> r.Status == Running && Fetch(r.program, r.IP).None?
  {
    ghost var m := r.State();
    ok := Step(r, clock(k));
    trace' := trace;
    if ok == Returned(true) {
      trace' := trace + [r.State()];
      RunSnoc(r.program, trace, clock, r.State());
    } else if ok == Returned(false) {
      StepFailsOnlyWithoutInstruction(r.program, m, clock(k));
    }
  }

  method Step(r: Runner, now: int) returns (out: Outcome)
    requires r.Valid()
    modifies r
    ensures r.Valid()
    ensures Effect(out, r.State()) == StepOp(r.program, old(r.State()), now)
  {
    if r.Status != Running {
      return Returned(false);
    }
    var raw := Fetch(r.program, r.IP);
    if raw.None? {
      return Returned(false);
    }
    var ins := KrakoaPool.Decode(raw.value.instruction, r.program.text);
    out := Execute(r, ins, raw.value.address, now);
    if out == Threw {
      return;
    }
    var lastInstruction := |r.program.code|;
    if r.IP == raw.value.address {
      if raw.value.next < lastInstruction {
        r.IP := raw.value.next;
      } else {
        r.Status := Halted;
      }
    }
    out := Returned(true);
  }

  /** A step fails only on a machine that is not running or whose `IP` holds
      no instruction, and then changes nothing. */
  lemma StepFailsOnlyWithoutInstruction(p: Program, m: Machine, now: int)
    requires TopIsEsp(m)
    requires StepOp(p, m, now).out == Returned(false)
    ensures m.status != Running || Fetch(p, m.ip).None?
    ensures StepOp(p, m, now).next == m
  {
  }

  /** The bounded driver loop: steps while the machine runs and the budget
      lasts, and returns how many steps succeeded and how the last step
      attempted ended (`Returned(true)` when none failed). It stops for one of
      three reasons: the machine halted or the budget ran out; a step failed,
      which leaves a running machine whose `IP` holds no instruction; or a
      step threw. A halted machine is left as it is. `clock(i)` is the time
      the `i`-th step reads. `trace` holds the machine before each step and
      after the last successful one. */
  method Run(r: Runner, budget: nat, clock: nat -> int) returns (steps: nat, last: Outcome, ghost trace: seq<Machine>)
    requires r.Valid()
    modifies r
    ensures r.Valid() && steps <= budget
    ensures IsRun(r.program, trace, clock) && |trace| == steps + 1 && trace[0] == old(r.State())
    ensures last == Returned(true) ==> trace[steps] == r.State()
    ensures last != Returned(true) ==> TopIsEsp(trace[steps]) && StepOp(r.program, trace[steps], clock(steps)) == Effect(last, r.State())
    ensures last == Returned(true) ==> r.Status == Halted || steps == budget
    ensures last == Returned(false) ==> r.Status == Running && Fetch(r.program, r.IP).None?
    ensures old(r.Status) == Halted ==> steps == 0 && last == Returned(true) && r.State() == old(r.State())
  {
    steps := 0;
    last := Returned(true);
    trace := [r.State()];
    while r.Status == Running && steps < budget
      invariant r.Valid() && steps <= budget && last == Returned(true)
      invariant IsRun(r.program, trace, clock) && |trace| == steps + 1 && trace[0] == old(r.State()) && trace[steps] == r.State()
      invariant old(r.Status) == Halted ==> steps == 0
      decreases budget - steps
    {
      var ok;
      ok, trace := NextStep(r, clock, steps, trace);
      if ok != Returned(true) {
        return steps, ok, trace;
      }
      steps := steps + 1;
    }
  }
}
