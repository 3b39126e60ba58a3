/** The Inheritance opcode (`🔗`): by `params.mode`, either a jump back to the
    enclosing trigger (`Inheritance`) or a return to the scope's return address
    (`Return`). Both are guarded jumps and only ever move `IP`. */
module KrakoaInheritance {
  import opened KrakoaValues
  import opened KrakoaRunner

  /** `handleInheritance`: legal only right after the trigger that owns the
      frame at `BSP`; then it jumps back to that trigger. */
  function HandleInheritance(m: Machine, address: int): (e: Effect)
    ensures e.out != Threw && e.next == m.(ip := e.next.ip)
    ensures e.out == Returned(true) ==> e.next.ip == address - 1
    ensures e.out == Returned(false) ==> e.next == m
  {
    match FrameAt(m.stack, m.bsp)
    case Some(f) =>
      if Truthy(Get(f, "__trigger")) && Get(f, "__retAddress") == Num(address - 1)
      then Effect(Returned(true), m.(ip := address - 1))
      else Effect(Returned(false), m)
    case None => Effect(Returned(false), m)
  }

  /** `handleReturn`: jump to the `__retAddress` of the frame at `BSP`, unless
      that is where `IP` already is. */
  function HandleReturn(m: Machine): (e: Effect)
    ensures e.out != Threw && e.next == m.(ip := e.next.ip)
    ensures e.out == Returned(false) ==> e.next == m
  {
    match FrameAt(m.stack, m.bsp)
    case Some(f) =>
      if Get(f, "__retAddress") != Num(m.ip)
      then Effect(Returned(true), m.(ip := AddrOf(Get(f, "__retAddress"))))
      else Effect(Returned(false), m)
    case None => Effect(Returned(false), m)
  }

  /** The handler: dispatch on `params.mode`; reading `mode` of missing params throws. */
  function InheritanceOp(m: Machine, ins: Value, address: int): (e: Effect)
    ensures e.next == m.(ip := e.next.ip)
    ensures e.out == Threw <==> Prop(ins, "params") == Undefined || Prop(ins, "params") == Null
  {
    var params := Prop(ins, "params");
    if params == Undefined || params == Null then Effect(Threw, m)
    else
      var mode := Prop(params, "mode");
      if mode == Str("Inheritance") then HandleInheritance(m, address)
      else if mode == Str("Return") then HandleReturn(m)
      else Effect(Returned(false), m)
  }

  /** Mode `Inheritance` succeeds exactly inside a trigger scope entered
      from `address - 1`, and then jumps to that trigger. */
  lemma InheritanceGuard(m: Machine, ins: Value, address: int)
    requires Prop(ins, "params") !in {Undefined, Null}
    requires Prop(Prop(ins, "params"), "mode") == Str("Inheritance")
    ensures var e := InheritanceOp(m, ins, address);
            && (e.out == Returned(true) <==>
                  0 <= m.bsp < |m.stack| && Truthy(Get(m.stack[m.bsp], "__trigger"))
                  && Get(m.stack[m.bsp], "__retAddress") == Num(address - 1))
            && (e.out == Returned(true) ==> e.next.ip == address - 1)
            && (e.out != Returned(true) ==> e.next == m)
  {
  }

  /** Mode `Return` never jumps to where `IP` already is: it either moves
      `IP` to the scope's `__retAddress` or fails and leaves it. */
  lemma ReturnMoves(m: Machine, ins: Value, address: int)
    requires m.ip >= 0
    requires Prop(ins, "params") !in {Undefined, Null}
    requires Prop(Prop(ins, "params"), "mode") == Str("Return")
    ensures var e := InheritanceOp(m, ins, address);
            && (e.out == Returned(true) <==>
                  0 <= m.bsp < |m.stack| && Get(m.stack[m.bsp], "__retAddress") != Num(m.ip))
            && (e.out == Returned(true) ==>
                  e.next.ip != m.ip && e.next.ip == AddrOf(Get(m.stack[m.bsp], "__retAddress")))
            && (e.out != Returned(true) ==> e.next == m)
  {
  }

  /** Any other mode fails and changes nothing. */
  lemma OtherModeFails(m: Machine, ins: Value, address: int)
    requires Prop(ins, "params") !in {Undefined, Null}
    requires Prop(Prop(ins, "params"), "mode") !in {Str("Inheritance"), Str("Return")}
    ensures InheritanceOp(m, ins, address) == Effect(Returned(false), m)
  {
  }

  /** The handler, run on the runner's own registers. */
  method Inheritance(r: Runner, ins: Value, address: int) returns (out: Outcome)
    modifies r
    ensures old(r.Valid()) ==> r.Valid()
    ensures Effect(out, r.State()) == InheritanceOp(old(r.State()), ins, address)
  {
    var params := Prop(ins, "params");
    if params == Undefined || params == Null {
      return Threw;
    }
    var mode := Prop(params, "mode");
    var parent := FrameAt(r.DataStack, r.BSP);
    if mode == Str("Inheritance") {
      if parent.Some? && Truthy(Get(parent.value, "__trigger")) && Get(parent.value, "__retAddress") == Num(address - 1) {
        r.IP := AddrOf(Get(parent.value, "__retAddress"));
        return Returned(true);
      }
      return Returned(false);
    } else if mode == Str("Return") {
      if parent.Some? && Get(parent.value, "__retAddress") != Num(r.IP) {
        r.IP := AddrOf(Get(parent.value, "__retAddress"));
        return Returned(true);
      }
      return Returned(false);
    }
    return Returned(false);
  }
}
