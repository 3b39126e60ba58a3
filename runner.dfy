/** The register machine that runs a compiled program: its registers, its data
    stack of frames, `reset` and `fetch`. The opcode handlers and `step` live in
    their own modules and work on a `Runner` they are handed. */
module KrakoaRunner {
  import opened KrakoaValues
  import opened KrakoaSchema

  datatype Status = Running | Halted

  /** A frame on the data stack: a plain JavaScript object used as a dictionary. */
  type Frame = map<string, Value>

  /** A snapshot of a runner: the registers `IP`, `Status`, `ESP`, `BSP` and the data stack. */
  datatype Machine = Machine(ip: int, status: Status, esp: int, bsp: int, stack: seq<Frame>)

  /** How a handler call ends: with the boolean it returns, or with a TypeError
      thrown out of it (reading a property of `undefined`). */
  datatype Outcome = Returned(ok: bool) | Threw

  /** A handler's outcome together with the machine it leaves behind. */
  datatype Effect = Effect(out: Outcome, next: Machine)

  /** `ESP` names the top of the data stack (-1 when it is empty). */
  predicate TopIsEsp(m: Machine) {
    m.esp == |m.stack| - 1
  }

  /** `DataStack[i]`: nothing when `i` is not an index of the stack. */
  function FrameAt(stack: seq<Frame>, i: int): Option<Frame> {
    if 0 <= i < |stack| then Some(stack[i]) else None
  }

  /** `frame[k]`: `undefined` for a missing key. */
  function Get(f: Frame, k: string): Value {
    if k in f then f[k] else Undefined
  }

  /** The state `reset()` leaves: `IP` at the entry point, running, an empty
      stack and both stack pointers at -1. */
  function Initial(p: Program): (m: Machine)
    ensures TopIsEsp(m) && m.status == Running && m.ip == p.entry
    ensures m.stack == [] && m.esp == -1 && m.bsp == -1
  {
    Machine(p.entry, Running, -1, -1, [])
  }

  /** What `fetch()` hands to `step`: the first successor, the address and the raw instruction. */
  datatype Fetched = Fetched(next: int, address: nat, instruction: Value)

  /** `instruction.next[0] ?? -1` for a `next` list of numbers. */
  function FirstNext(raw: Value): int {
    var nx := Prop(raw, "next");
    if nx.Arr? && |nx.items| > 0 && nx.items[0].Num? then nx.items[0].n else -1
  }

  /** `fetch()`: the instruction stored at `IP`, if there is one. */
  function Fetch(p: Program, ip: int): (r: Option<Fetched>)
    ensures r.Some? <==> 0 <= ip && ip in p.code
    ensures r.Some? ==> r.value.address == ip && r.value.instruction == p.code[ip]
    ensures r.Some? ==> r.value.next == FirstNext(p.code[ip])
  {
    if 0 <= ip && ip in p.code then Some(Fetched(FirstNext(p.code[ip]), ip, p.code[ip])) else None
  }

  /** The runner object: the registers as fields, the data stack as a
      sequence of frames, and the program it runs. */
  class Runner {
    const program: Program
    var IP: int
    var Status: Status
    var ESP: int
    var BSP: int
    var DataStack: seq<Frame>

    function State(): Machine
      reads this
    {
      Machine(IP, Status, ESP, BSP, DataStack)
    }

    predicate Valid()
      reads this
    {
      TopIsEsp(State())
    }

    /** `new KrakoanRunner(program)`: stores the program and resets. */
    constructor(p: Program)
      ensures program == p
      ensures State() == Initial(p) && Valid()
    {
      program := p;
      new;
      Reset();
    }

    /** `reset()`: clears the stack and restarts at the entry point. */
    method Reset()
      modifies this
      ensures State() == Initial(program) && Valid()
    {
      DataStack := [];
      IP := program.entry;
      Status := Running;
      ESP := |DataStack| - 1;
      BSP := ESP;
    }
  }
}
