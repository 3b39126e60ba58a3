/** The compiler's driver: linearisation, then `link` (symbol table, tag
    resolution, string pooling), and what the compiled program says about
    the parsed forest. */
module KrakoaLink {
  import opened KrakoaValues
  import opened KrakoaSchema
  import opened KrakoaLinearize
  import opened KrakoaPool
  import opened KrakoaSolve
  import opened KrakoaRunner

  /** The outcome of `compile`: a program, the semantic error thrown for a
      reference tag that fails its check, or the type error `solveReference`
      throws on a malformed tag object. */
  datatype Compiled = Compiled(program: Program) | SemanticError(tag: Tag) | LinkError

  /** The code object `{...instructions}`, as the list of its values in
      address order. */
  function CodeValues(ins: seq<Instruction>): (r: seq<Value>)
    ensures |r| == |ins|
  {
    seq(|ins|, a requires 0 <= a < |ins| => InstructionValue(ins[a]))
  }

  /** `processedCode`: address `a` holds `vs[a]`, and there are no other keys. */
  function CodeMap(vs: seq<Value>): (r: map<nat, Value>)
    ensures forall a: nat :: a in r <==> a < |vs|
    ensures forall a: nat :: a < |vs| ==> r[a] == vs[a]
  {
    map a: nat | a < |vs| :: vs[a]
  }

  /** What `link` returns for the code `code` and entry `entry`: the table
      of the registrations in address order, every instruction solved
      against it (`solveReference` on the code object solves each value in
      turn), then pooled in address order into one text pool. */
  function LinkOf(code: seq<Value>, entry: int): (r: Option<Program>)
    ensures r.Some? <==> forall a :: 0 <= a < |code| ==> SolveValue(code[a], SymbolsUpTo(code, |code|)).Some?
    ensures r.Some? ==> && r.value.entry == entry
                        && r.value.symbols == SymbolsUpTo(code, |code|)
                        && forall a: nat :: a in r.value.code <==> a < |code|
  {
    var sym := SymbolsUpTo(code, |code|);
    match SolveItems(code, sym)
    case None => None
    case Some(solved) =>
      var pooled := PoolItems(solved, []);
      Some(Program(entry, sym, pooled.pool, CodeMap(pooled.val)))
  }

  /** `firstTriggerIndex !== -1 ? firstTriggerIndex : 0`. */
  function EntryOf(forest: seq<Node>): int {
    var ft := FirstTriggerUpTo(forest, |forest|, 0, None, -1);
    if ft != -1 then ft else 0
  }

  /** The instructions of a forest, as values. */
  function CodeOf(forest: seq<Node>, clock: int): seq<Value> {
    CodeValues(Linear(forest, 0, clock))
  }

  /** `link`: the registration loop, the solving of the code object and the
      pooling loop, filling `symbolMap`, `textPool` and `processedCode`. */
  method Link(code: seq<Value>, entry: int) returns (r: Option<Program>)
    ensures r == LinkOf(code, entry)
  {
    var symbolMap := RegisterSymbols(code);
    var linked := SolveItems(code, symbolMap);
    if linked.None? {
      return None;
    }
    var textPool, processed := PoolCode(linked.value);
    return Some(Program(entry, symbolMap, textPool, CodeMap(processed)));
  }

  /** The first loop of `link`: every instruction's `id`, then its hashtags. */
  method RegisterSymbols(code: seq<Value>) returns (symbolMap: map<string, int>)
    ensures symbolMap == SymbolsUpTo(code, |code|)
  {
    symbolMap := map[];
    for addr := 0 to |code|
      invariant symbolMap == SymbolsUpTo(code, addr)
    {
      var inst := code[addr];
      var id := Prop(inst, "id");
      ghost var before := symbolMap;
      ghost var own: set<string> := {};
      if Truthy(id) {
        symbolMap := symbolMap[ToKey(id) := addr];
        own := {ToKey(id)};
      } else {
        RegisterNothing(before, addr);
      }
      assert symbolMap == Register(before, own, addr);
      symbolMap := ScanForHashTags(inst, addr, symbolMap);
      RegisterUnion(before, own, HashRoots(inst), addr);
    }
  }

  /** The last loop of `link`: each solved instruction is pooled, in address
      order, into one text pool. */
  method PoolCode(solved: seq<Value>) returns (textPool: seq<string>, processed: seq<Value>)
    ensures Pooled(processed, textPool) == PoolItems(solved, [])
  {
    textPool, processed := [], [];
    for addr := 0 to |solved|
      invariant Pooled(processed, textPool) == PoolItems(solved[..addr], [])
    {
      assert solved[..addr + 1][..addr] == solved[..addr];
      var p;
      p, textPool := PoolStrings(solved[addr], textPool);
      processed := processed + [p];
    }
    assert solved[..|solved|] == solved;
  }

  /** `compile(fullAST)`: linearise the forest, then link the instructions;
      `clock` stands for the `Date.now()` every instruction is stamped with. */
  method Compile(forest: seq<Node>, clock: int) returns (r: Compiled)
    ensures r.SemanticError? <==> !RefsValid(Flatten(forest), forest)
    ensures r.SemanticError? ==> exists x :: x in Flatten(forest) && BadTag(x, r.tag, forest)
    ensures !r.SemanticError? ==> (r.Compiled? <==> LinkOf(CodeOf(forest, clock), EntryOf(forest)).Some?)
    ensures r.Compiled? ==> r.program == LinkOf(CodeOf(forest, clock), EntryOf(forest)).value
  {
    var l := new Linearizer(forest, clock);
    var err := l.Process(forest, None);
    if err.Some? {
      return SemanticError(err.value);
    }
    assert l.instructions == Linear(forest, 0, clock);
    var entry := if l.firstTriggerIndex != -1 then l.firstTriggerIndex else 0;
    assert entry == EntryOf(forest);
    var code := CodeValues(l.instructions);
    assert code == CodeOf(forest, clock);
    var linked := Link(code, entry);
    if linked.None? {
      return LinkError;
    }
    return Compiled(linked.value);
  }

  /** The instruction at address `a`, as linearised. */
  lemma CodeAt(forest: seq<Node>, clock: int, a: nat)
    requires a < |Flatten(forest)|
    ensures CodeOf(forest, clock)[a] == InstructionValue(InstructionOf(Flatten(forest)[a], a, clock))
  {
    CodeOfAt(forest, clock, a);
    LinearFromZero(forest, clock, a);
  }

  lemma LinearFromZero(forest: seq<Node>, clock: int, a: nat)
    requires a < |Flatten(forest)|
    ensures Linear(forest, 0, clock)[a] == InstructionOf(Flatten(forest)[a], a, clock)
  {
    LinearAt(forest, 0, clock, a);
  }

  lemma CodeOfAt(forest: seq<Node>, clock: int, a: nat)
    requires a < |Flatten(forest)|
    ensures CodeOf(forest, clock)[a] == InstructionValue(Linear(forest, 0, clock)[a])
  {
    CodeValuesAt(Linear(forest, 0, clock), a);
  }

  /** Address `a` of the code object holds the `a`-th instruction. */
  lemma CodeValuesAt(ins: seq<Instruction>, a: nat)
    requires a < |ins|
    ensures CodeValues(ins)[a] == InstructionValue(ins[a])
  {
  }

  /** The solved instruction at `a` keeps its successor list and opcode. */
  lemma SolvedInstructionAt(code: seq<Value>, sym: map<string, int>, a: nat, ins: Instruction)
    requires a < |code| && code[a] == InstructionValue(ins)
    requires SolveItems(code, sym).Some?
    requires forall i :: 0 <= i < |ins.next| ==> ins.next[i] >= 1
    ensures var r := SolveItems(code, sym).value[a];
            && r.Obj?
            && Lookup(r.fields, "next") == Arr(NumValues(ins.next))
            && Lookup(r.fields, "type") == (if ins.itype == "" then Undefined else Str(ins.itype))
  {
    SolvableParts(ins, sym);
    SolvedInstruction(ins, sym);
  }

  /** Pooling leaves a successor list of positive addresses alone. */
  lemma PooledNext(solved: seq<Value>, a: nat, next: seq<int>)
    requires a < |solved| && solved[a].Obj?
    requires Lookup(solved[a].fields, "next") == Arr(NumValues(next))
    requires forall i :: 0 <= i < |next| ==> next[i] >= 1
    ensures Prop(PoolItems(solved, []).val[a], "next") == Arr(NumValues(next))
  {
    var q := PoolItems(solved[..a], []).pool;
    PoolItemsAt(solved, [], a);
    var r := solved[a];
    var pv := PoolItems(solved, []).val[a];
    assert pv == PoolValue(r, q).val;
    if IsLambda(r) {
      PoolLambda(r, q);
      assert pv == r;
    } else {
      PoolObject(r, q);
      NumbersKeep(next);
      PoolKeepsKey(r.fields, q, "next");
      assert pv == Obj(PoolFields(r.fields, q).val);
    }
  }

  lemma NumbersKeep(next: seq<int>)
    requires forall i :: 0 <= i < |next| ==> next[i] >= 1
    ensures PoolKeeps(Arr(NumValues(next)))
  {
    var vs := NumValues(next);
    forall i | 0 <= i < |vs|
      ensures PoolKeeps(vs[i])
    {
      assert vs[i] == Num(next[i]);
    }
  }

  /** Decoding a pooled object against the final text gives back a field
      that held `undefined` or a non-empty string. */
  lemma PooledType(solved: seq<Value>, a: nat, t: Value)
    requires a < |solved| && solved[a].Obj?
    requires Lookup(solved[a].fields, "type") == t
    requires t.Undefined? || (t.Str? && t.s != "")
    ensures var pooled := PoolItems(solved, []);
            Prop(Decode(pooled.val[a], pooled.pool), "type") == t
  {
    var q := PoolItems(solved[..a], []).pool;
    PoolItemsAt(solved, [], a);
    DecodedPooledType(solved[a], q, PoolItems(solved, []).pool, t);
  }

  lemma DecodedPooledType(r: Value, q: seq<string>, text: seq<string>, t: Value)
    requires r.Obj? && Lookup(r.fields, "type") == t
    requires t.Undefined? || (t.Str? && t.s != "")
    requires PoolValue(r, q).pool <= text
    ensures Prop(Decode(PoolValue(r, q).val, text), "type") == t
  {
    if IsLambda(r) {
      PoolLambda(r, q);
    } else {
      PoolObject(r, q);
      DecodedFieldsType(r.fields, q, text, t);
    }
  }

  lemma DecodedFieldsType(fs: seq<Field>, q: seq<string>, text: seq<string>, t: Value)
    requires Lookup(fs, "type") == t
    requires t.Undefined? || (t.Str? && t.s != "")
    requires PoolFields(fs, q).pool <= text
    ensures !IsLambda(Obj(PoolFields(fs, q).val))
    ensures Lookup(DecodeFields(PoolFields(fs, q).val, text), "type") == t
  {
    var pooled := PoolFields(fs, q);
    if t.Undefined? {
      PoolKeepsKey(fs, q, "type");
    } else {
      PoolStringKey(fs, q, "type", t.s);
      assert text[Lookup(pooled.val, "type").n] == t.s;
    }
    LookupDecodeFields(pooled.val, text, "type");
  }

  /** Linking keeps the successor list of the instruction at `a`. */
  lemma LinkedNext(code: seq<Value>, entry: int, a: nat, n: Node, clock: int)
    requires a < |code| && code[a] == InstructionValue(InstructionOf(n, a, clock))
    requires LinkOf(code, entry).Some?
    ensures var p := LinkOf(code, entry).value;
            a in p.code && Prop(p.code[a], "next") == Arr(NumValues(NextOf(n, a)))
  {
    var ins := InstructionOf(n, a, clock);
    var sym := SymbolsUpTo(code, |code|);
    SolvedInstructionAt(code, sym, a, ins);
    PooledNext(SolveItems(code, sym).value, a, ins.next);
  }

  /** Linking keeps the opcode of the instruction at `a`, once decoded
      against the text. */
  lemma LinkedType(code: seq<Value>, entry: int, a: nat, n: Node, clock: int)
    requires a < |code| && code[a] == InstructionValue(InstructionOf(n, a, clock))
    requires LinkOf(code, entry).Some?
    ensures var p := LinkOf(code, entry).value;
            a in p.code && Prop(Decode(p.code[a], p.text), "type") == (if n.ntype == "" then Undefined else Str(n.ntype))
  {
    var ins := InstructionOf(n, a, clock);
    var sym := SymbolsUpTo(code, |code|);
    SolvedInstructionAt(code, sym, a, ins);
    PooledType(SolveItems(code, sym).value, a, if ins.itype == "" then Undefined else Str(ins.itype));
  }

  /** Address `a` of the compiled program holds the successor list of the
      `a`-th node in pre-order: `next[0] == a + 1`, and a second successor,
      just past the node's last descendant, only for a trigger or anchor
      with a body (see `NextOf`). Pooling leaves `next` alone. */
  lemma CompiledNext(forest: seq<Node>, clock: int, a: nat)
    requires a < |Flatten(forest)|
    requires LinkOf(CodeOf(forest, clock), EntryOf(forest)).Some?
    ensures var p := LinkOf(CodeOf(forest, clock), EntryOf(forest)).value;
            a in p.code && Prop(p.code[a], "next") == Arr(NumValues(NextOf(Flatten(forest)[a], a)))
  {
    CodeAt(forest, clock, a);
    LinkedNext(CodeOf(forest, clock), EntryOf(forest), a, Flatten(forest)[a], clock);
  }

  /** Decoding the compiled instruction at `a` against the text gives back
      the opcode of the `a`-th node in pre-order (an empty opcode is falsy
      and is dropped). */
  lemma CompiledType(forest: seq<Node>, clock: int, a: nat)
    requires a < |Flatten(forest)|
    requires LinkOf(CodeOf(forest, clock), EntryOf(forest)).Some?
    ensures var p := LinkOf(CodeOf(forest, clock), EntryOf(forest)).value;
            var n := Flatten(forest)[a];
            a in p.code && Prop(Decode(p.code[a], p.text), "type") == (if n.ntype == "" then Undefined else Str(n.ntype))
  {
    CodeAt(forest, clock, a);
    LinkedType(CodeOf(forest, clock), EntryOf(forest), a, Flatten(forest)[a], clock);
  }

  /** In a compiled program the successor `fetch` reads at address `a` is
      always `a + 1`: the runner falls through to the next address unless a
      handler jumps. */
  lemma CompiledFirstNext(forest: seq<Node>, clock: int, a: nat)
    requires a < |Flatten(forest)|
    requires LinkOf(CodeOf(forest, clock), EntryOf(forest)).Some?
    ensures var p := LinkOf(CodeOf(forest, clock), EntryOf(forest)).value;
            a in p.code && FirstNext(p.code[a]) == a + 1
  {
    CompiledNext(forest, clock, a);
  }
}
