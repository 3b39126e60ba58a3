/** The Speech opcodes: a communication (`💬`) appends one record to the
    `__communication` log of the frame at `BSP`; a signal (`📡`) appends one
    to its `__signals` log and, when broadcast, one to every other frame's. */
module KrakoaSpeech {
  import opened KrakoaValues
  import opened KrakoaRunner

  /** The two speech opcodes, as the runner's dispatch table names them. */
  const COMMUNICATION := "💬"
  const SIGNAL := "📡"

  /** A log `push` works on a missing (falsy) log, which becomes `[]` first, or on an array. */
  predicate Pushable(log: Value) {
    !Truthy(log) || log.Arr?
  }

  /** The log after pushing `rec`. */
  function Appended(log: Value, rec: Value): Value
    requires Pushable(log)
  {
    if log.Arr? then Arr(log.items + [rec]) else Arr([rec])
  }

  /** `f[k] = f[k] || []; f[k].push(rec)`: nothing when the push throws. */
  function AppendLog(f: Frame, k: string, rec: Value): (r: Option<Frame>)
    ensures r.Some? <==> Pushable(Get(f, k))
    ensures r.Some? ==> r.value == f[k := Appended(Get(f, k), rec)]
  {
    var log := Get(f, k);
    if !Truthy(log) then Some(f[k := Arr([rec])])
    else if log.Arr? then Some(f[k := Arr(log.items + [rec])])
    else None
  }

  function CommunicationRecord(params: Value, bsp: int, address: int, now: int): Value {
    Obj([Field("timestamp", Num(now)), Field("target", Prop(params, "target")),
         Field("message", Prop(params, "message")), Field("channel", Prop(params, "channel")),
         Field("source", Num(bsp)), Field("address", Num(address))])
  }

  function SignalRecord(params: Value, broadcast: bool, bsp: int, address: int, now: int): Value {
    Obj([Field("name", Prop(params, "name")), Field("payload", Prop(params, "payload")),
         Field("timestamp", Num(now)), Field("broadcast", Bool(broadcast)),
         Field("source", Num(bsp)), Field("address", Num(address))])
  }

  /** `handleCommunication`. With no frame at `BSP` the record goes to a
      fresh object that is then dropped; a push that throws is caught and
      reported as failure. */
  function Communicate(m: Machine, params: Value, address: int, now: int): (e: Effect)
    ensures e.out != Threw && e.next == m.(stack := e.next.stack)
    ensures |e.next.stack| == |m.stack|
    ensures forall i :: 0 <= i < |m.stack| && i != m.bsp ==> e.next.stack[i] == m.stack[i]
    ensures e.out == Returned(false) ==> e.next == m
  {
    var rec := CommunicationRecord(params, m.bsp, address, now);
    match FrameAt(m.stack, m.bsp)
    case None => Effect(Returned(true), m)
    case Some(f) =>
      match AppendLog(f, "__communication", rec)
      case None => Effect(Returned(false), m)
      case Some(g) => Effect(Returned(true), m.(stack := m.stack[m.bsp := g]))
  }

  /** The broadcast loop from index `i` on: each frame but the one at `skip`
      gets `rec`; a push that throws ends the loop, keeping what it wrote. */
  function BroadcastFrom(s: seq<Frame>, i: nat, skip: int, rec: Value): (r: (bool, seq<Frame>))
    ensures |r.1| == |s|
    decreases |s| - i
  {
    if i >= |s| then (true, s)
    else if i == skip then BroadcastFrom(s, i + 1, skip, rec)
    else match AppendLog(s[i], "__signals", rec)
      case None => (false, s)
      case Some(g) => BroadcastFrom(s[i := g], i + 1, skip, rec)
  }

  /** `handleSignal`: the record for the frame at `BSP` carries `!!broadcast`,
      the broadcast copies carry `true`. */
  function Signal(m: Machine, params: Value, address: int, now: int): (e: Effect)
    ensures e.out != Threw && e.next == m.(stack := e.next.stack)
    ensures |e.next.stack| == |m.stack|
  {
    var broadcast := Truthy(Prop(params, "broadcast"));
    var rec := SignalRecord(params, broadcast, m.bsp, address, now);
    match SignalCurrent(m, rec)
    case None => Effect(Returned(false), m)
    case Some(w) =>
      if !broadcast then Effect(Returned(true), m.(stack := w.stack))
      else
        var done := BroadcastFrom(w.stack, 0, w.skip, SignalRecord(params, true, m.bsp, address, now));
        Effect(Returned(done.0), m.(stack := done.1))
  }

  /** The stack after the signal reaches the current frame, and the index the
      broadcast leaves out (-1 when there is no frame at `BSP`). */
  datatype Written = Written(stack: seq<Frame>, skip: int)

  function SignalCurrent(m: Machine, rec: Value): (r: Option<Written>)
    ensures r.Some? ==> |r.value.stack| == |m.stack|
    ensures r.Some? ==> forall i :: 0 <= i < |m.stack| && i != m.bsp ==> r.value.stack[i] == m.stack[i]
    ensures r.Some? && r.value.skip != -1 ==> r.value.skip == m.bsp
  {
    match FrameAt(m.stack, m.bsp)
    case None => Some(Written(m.stack, -1))
    case Some(f) =>
      match AppendLog(f, "__signals", rec)
      case None => None
      case Some(g) => Some(Written(m.stack[m.bsp := g], m.bsp))
  }

  /** The handler: dispatch on the instruction's type. */
  function SpeechOp(m: Machine, ins: Value, address: int, now: int): (e: Effect)
    ensures e.out != Threw
    ensures e.next.ip == m.ip && e.next.status == m.status
    ensures e.next.esp == m.esp && e.next.bsp == m.bsp
    ensures |e.next.stack| == |m.stack|
  {
    var kind := Prop(ins, "type");
    if kind == Str(COMMUNICATION) then Communicate(m, Prop(ins, "params"), address, now)
    else if kind == Str(SIGNAL) then Signal(m, Prop(ins, "params"), address, now)
    else Effect(Returned(false), m)
  }

  /** Any other type fails and changes nothing. */
  lemma OtherKindFails(m: Machine, ins: Value, address: int, now: int)
    requires Prop(ins, "type") !in {Str(COMMUNICATION), Str(SIGNAL)}
    ensures SpeechOp(m, ins, address, now) == Effect(Returned(false), m)
  {
  }

  /** A communication appends exactly one record to the log of the frame at
      `BSP` and changes nothing else; it fails, changing nothing, exactly when
      that log is a truthy non-array. */
  lemma CommunicationAppends(m: Machine, ins: Value, address: int, now: int)
    requires Prop(ins, "type") == Str(COMMUNICATION)
    requires 0 <= m.bsp < |m.stack|
    ensures var e := SpeechOp(m, ins, address, now);
            var f := m.stack[m.bsp];
            var rec := CommunicationRecord(Prop(ins, "params"), m.bsp, address, now);
            && (e.out == Returned(true) <==> Pushable(Get(f, "__communication")))
            && (e.out == Returned(true) ==>
                  e.next.stack == m.stack[m.bsp := f["__communication" := Appended(Get(f, "__communication"), rec)]])
            && (e.out != Returned(true) ==> e.next == m)
  {
  }

  /** Without broadcast, a signal touches only the frame at `BSP`. */
  lemma SignalStaysLocal(m: Machine, ins: Value, address: int, now: int)
    requires Prop(ins, "type") == Str(SIGNAL)
    requires !Truthy(Prop(Prop(ins, "params"), "broadcast"))
    ensures var e := SpeechOp(m, ins, address, now);
            var rec := SignalRecord(Prop(ins, "params"), false, m.bsp, address, now);
            && (forall i :: 0 <= i < |m.stack| && i != m.bsp ==> e.next.stack[i] == m.stack[i])
            && (0 <= m.bsp < |m.stack| && Pushable(Get(m.stack[m.bsp], "__signals")) ==>
                  e.out == Returned(true)
                  && e.next.stack[m.bsp] == m.stack[m.bsp]["__signals" := Appended(Get(m.stack[m.bsp], "__signals"), rec)])
  {
  }

  /** When every frame's log can take a push, the broadcast loop adds exactly
      one record to every frame it visits except `skip`, and touches no other. */
  lemma {:induction false} BroadcastAppends(s: seq<Frame>, i: nat, skip: int, rec: Value)
    requires forall j :: i <= j < |s| && j != skip ==> Pushable(Get(s[j], "__signals"))
    ensures var r := BroadcastFrom(s, i, skip, rec);
            && r.0
            && (forall j :: 0 <= j < |s| && (j < i || j == skip) ==> r.1[j] == s[j])
            && (forall j :: i <= j < |s| && j != skip ==>
                  r.1[j] == s[j]["__signals" := Appended(Get(s[j], "__signals"), rec)])
    decreases |s| - i
  {
    if i < |s| {
      if i == skip {
        BroadcastAppends(s, i + 1, skip, rec);
      } else {
        var g := s[i]["__signals" := Appended(Get(s[i], "__signals"), rec)];
        BroadcastAppends(s[i := g], i + 1, skip, rec);
      }
    }
  }

  /** The broadcast loop reports success exactly when every frame it visits can take a push. */
  lemma {:induction false} BroadcastSucceeds(s: seq<Frame>, i: nat, skip: int, rec: Value)
    ensures BroadcastFrom(s, i, skip, rec).0 <==>
            forall j :: i <= j < |s| && j != skip ==> Pushable(Get(s[j], "__signals"))
    decreases |s| - i
  {
    if i < |s| {
      if i == skip {
        BroadcastSucceeds(s, i + 1, skip, rec);
      } else if Pushable(Get(s[i], "__signals")) {
        var g := s[i]["__signals" := Appended(Get(s[i], "__signals"), rec)];
        BroadcastSucceeds(s[i := g], i + 1, skip, rec);
        assert forall j :: i < j < |s| ==> s[i := g][j] == s[j];
      }
    }
  }

  /** A broadcast signal: the frame at `BSP` gets the record with
      `broadcast = true` once, and so does every other frame on the stack. */
  lemma BroadcastReachesAll(m: Machine, ins: Value, address: int, now: int)
    requires Prop(ins, "type") == Str(SIGNAL)
    requires Truthy(Prop(Prop(ins, "params"), "broadcast"))
    requires forall j :: 0 <= j < |m.stack| ==> Pushable(Get(m.stack[j], "__signals"))
    ensures var e := SpeechOp(m, ins, address, now);
            var rec := SignalRecord(Prop(ins, "params"), true, m.bsp, address, now);
            && e.out == Returned(true)
            && forall j :: 0 <= j < |m.stack| ==>
                 e.next.stack[j] == m.stack[j]["__signals" := Appended(Get(m.stack[j], "__signals"), rec)]
  {
    var params := Prop(ins, "params");
    var rec := SignalRecord(params, true, m.bsp, address, now);
    assert SpeechOp(m, ins, address, now) == Signal(m, params, address, now);
    if 0 <= m.bsp < |m.stack| {
      var g := m.stack[m.bsp]["__signals" := Appended(Get(m.stack[m.bsp], "__signals"), rec)];
      BroadcastAppends(m.stack[m.bsp := g], 0, m.bsp, rec);
    } else {
      BroadcastAppends(m.stack, 0, -1, rec);
    }
  }

  /** The handler, run on the runner's own stack. */
  method Speech(r: Runner, ins: Value, address: int, now: int) returns (out: Outcome)
    modifies r
    ensures old(r.Valid()) ==> r.Valid()
    ensures Effect(out, r.State()) == SpeechOp(old(r.State()), ins, address, now)
  {
    var kind := Prop(ins, "type");
    if kind == Str(COMMUNICATION) {
      out := HandleCommunication(r, Prop(ins, "params"), address, now);
    } else if kind == Str(SIGNAL) {
      out := HandleSignal(r, Prop(ins, "params"), address, now);
    } else {
      out := Returned(false);
    }
  }

  method HandleCommunication(r: Runner, params: Value, address: int, now: int) returns (out: Outcome)
    modifies r
    ensures old(r.Valid()) ==> r.Valid()
    ensures Effect(out, r.State()) == Communicate(old(r.State()), params, address, now)
  {
    var current := FrameAt(r.DataStack, r.BSP);
    if current.None? {
      return Returned(true);
    }
    var written := AppendLog(current.value, "__communication", CommunicationRecord(params, r.BSP, address, now));
    if written.None? {
      return Returned(false);
    }
    r.DataStack := r.DataStack[r.BSP := written.value];
    return Returned(true);
  }

  method HandleSignal(r: Runner, params: Value, address: int, now: int) returns (out: Outcome)
    modifies r
    ensures old(r.Valid()) ==> r.Valid()
    ensures Effect(out, r.State()) == Signal(old(r.State()), params, address, now)
  {
    var broadcast := Truthy(Prop(params, "broadcast"));
    var current := FrameAt(r.DataStack, r.BSP);
    var skip := -1;
    if current.Some? {
      var written := AppendLog(current.value, "__signals", SignalRecord(params, broadcast, r.BSP, address, now));
      if written.None? {
        return Returned(false);
      }
      r.DataStack := r.DataStack[r.BSP := written.value];
      skip := r.BSP;
    }
    if broadcast {
      var copy := SignalRecord(params, true, r.BSP, address, now);
      ghost var start := r.DataStack;
      for i := 0 to |r.DataStack|
        invariant |r.DataStack| == |start|
        invariant BroadcastFrom(r.DataStack, i, skip, copy) == BroadcastFrom(start, 0, skip, copy)
        invariant r.IP == old(r.IP) && r.Status == old(r.Status) && r.ESP == old(r.ESP) && r.BSP == old(r.BSP)
      {
        if i != skip {
          var written := AppendLog(r.DataStack[i], "__signals", copy);
          if written.None? {
            return Returned(false);
          }
          r.DataStack := r.DataStack[i := written.value];
        }
      }
    }
    return Returned(true);
  }
}
