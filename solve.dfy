/** Symbolic linking: the symbol table the compiler builds from instruction
    ids and hashtags (`scanForHashTags`), and the rewriting of tags into
    resolved addresses (`solveReference`). */
module KrakoaSolve {
  import opened KrakoaValues
  import opened KrakoaSchema

  // ---------------------------------------------------------------------
  // The symbol table
  // ---------------------------------------------------------------------

  /** A hashtag object registers its root: `kind` is `"hashtag"` and the root is truthy. */
  predicate IsHashtagObject(fs: seq<Field>) {
    Lookup(fs, "kind") == Str("hashtag") && Truthy(Lookup(fs, "root"))
  }

  /** The keys `scanForHashTags` writes while walking `v`: the root of every
      hashtag object anywhere inside it, nested segments included. */
  function HashRoots(v: Value): set<string>
    decreases v
  {
    match v
    case Arr(items) => ItemRoots(items)
    case Obj(fs) => (if IsHashtagObject(fs) then {ToKey(Lookup(fs, "root"))} else {}) + FieldRoots(fs)
    case _ => {}
  }

  function ItemRoots(items: seq<Value>): set<string>
    decreases items
  {
    if items == [] then {} else ItemRoots(items[..|items| - 1]) + HashRoots(items[|items| - 1])
  }

  function FieldRoots(fs: seq<Field>): set<string>
    decreases fs
  {
    if fs == [] then {} else FieldRoots(fs[..|fs| - 1]) + HashRoots(fs[|fs| - 1].val)
  }

  /** Every key of `keys` now maps to `addr`; the others keep their address. */
  function Register(sym: map<string, int>, keys: set<string>, addr: int): (r: map<string, int>)
    ensures r.Keys == sym.Keys + keys
    ensures forall k :: k in keys ==> r[k] == addr
    ensures forall k :: k in sym && k !in keys ==> r[k] == sym[k]
  {
    map k | k in sym.Keys + keys :: if k in keys then addr else sym[k]
  }

  lemma RegisterUnion(sym: map<string, int>, a: set<string>, b: set<string>, addr: int)
    ensures Register(Register(sym, a, addr), b, addr) == Register(sym, a + b, addr)
  {
  }

  lemma RegisterNothing(sym: map<string, int>, addr: int)
    ensures Register(sym, {}, addr) == sym
  {
  }

  /** `scanForHashTags(value, index)`: walks arrays and objects, writing
      `symbolMap[root] = index` for every hashtag object it meets. */
  method ScanForHashTags(value: Value, index: int, symbolMap: map<string, int>) returns (r: map<string, int>)
    ensures r == Register(symbolMap, HashRoots(value), index)
    decreases value
  {
    match value
    case Arr(items) =>
      r := ScanItems(items, index, symbolMap);
    case Obj(fs) =>
      var own: set<string> := {};
      r := symbolMap;
      if IsHashtagObject(fs) {
        own := {ToKey(Lookup(fs, "root"))};
        r := r[ToKey(Lookup(fs, "root")) := index];
      }
      assert r == Register(symbolMap, own, index);
      r := ScanFields(fs, index, r);
      RegisterUnion(symbolMap, own, FieldRoots(fs), index);
    case _ =>
      r := symbolMap;
      RegisterNothing(symbolMap, index);
  }

  /** The `forEach` over an array's elements. */
  method ScanItems(items: seq<Value>, index: int, symbolMap: map<string, int>) returns (r: map<string, int>)
    ensures r == Register(symbolMap, ItemRoots(items), index)
    decreases items
  {
    r := symbolMap;
    RegisterNothing(symbolMap, index);
    var i := 0;
    while i < |items|
      invariant 0 <= i <= |items|
      invariant r == Register(symbolMap, ItemRoots(items[..i]), index)
    {
      assert items[..i + 1][..i] == items[..i];
      RegisterUnion(symbolMap, ItemRoots(items[..i]), HashRoots(items[i]), index);
      r := ScanForHashTags(items[i], index, r);
      i := i + 1;
    }
    assert items[..i] == items;
  }

  /** The `for (const k in value)` over an object's properties. */
  method ScanFields(fs: seq<Field>, index: int, symbolMap: map<string, int>) returns (r: map<string, int>)
    ensures r == Register(symbolMap, FieldRoots(fs), index)
    decreases fs
  {
    r := symbolMap;
    RegisterNothing(symbolMap, index);
    var i := 0;
    while i < |fs|
      invariant 0 <= i <= |fs|
      invariant r == Register(symbolMap, FieldRoots(fs[..i]), index)
    {
      assert fs[..i + 1][..i] == fs[..i];
      RegisterUnion(symbolMap, FieldRoots(fs[..i]), HashRoots(fs[i].val), index);
      r := ScanForHashTags(fs[i].val, index, r);
      i := i + 1;
    }
    assert fs[..i] == fs;
  }

  /** The keys instruction `ins` (at its address) writes into the table:
      its id when truthy, then its hashtag roots. */
  function Registrations(ins: Value): set<string> {
    (if Truthy(Prop(ins, "id")) then {ToKey(Prop(ins, "id"))} else {}) + HashRoots(ins)
  }

  /** The table after the loop over the first `n` instructions, in address order. */
  function SymbolsUpTo(code: seq<Value>, n: nat): (r: map<string, int>)
    requires n <= |code|
    ensures forall k :: k in r ==> 0 <= r[k] < n
  {
    if n == 0 then map[] else Register(SymbolsUpTo(code, n - 1), Registrations(code[n - 1]), n - 1)
  }

  /** A key is in the table exactly when some instruction registers it. */
  lemma SymbolIsRegistered(code: seq<Value>, n: nat, k: string)
    requires n <= |code|
    ensures k in SymbolsUpTo(code, n) <==> exists a :: 0 <= a < n && k in Registrations(code[a])
  {
    if k in SymbolsUpTo(code, n) {
      SymbolIsLastRegistration(code, n, k);
    } else {
      forall a | 0 <= a < n
        ensures k !in Registrations(code[a])
      {
        if k in Registrations(code[a]) {
          RegisteredIsInTable(code, n, k, a);
        }
      }
    }
  }

  /** Later registrations never remove a key. */
  lemma {:induction false} RegisteredIsInTable(code: seq<Value>, n: nat, k: string, a: nat)
    requires a < n <= |code| && k in Registrations(code[a])
    ensures k in SymbolsUpTo(code, n)
    decreases n
  {
    if a < n - 1 {
      RegisteredIsInTable(code, n - 1, k, a);
    }
  }

  /** The last write wins: a key in the table maps to the highest address
      that registers it. */
  lemma {:induction false} SymbolIsLastRegistration(code: seq<Value>, n: nat, k: string)
    requires n <= |code| && k in SymbolsUpTo(code, n)
    ensures var a := SymbolsUpTo(code, n)[k];
            0 <= a < n && k in Registrations(code[a]) && forall b :: a < b < n ==> k !in Registrations(code[b])
  {
    var regs := Registrations(code[n - 1]);
    if k !in regs {
      SymbolIsLastRegistration(code, n - 1, k);
      var a := SymbolsUpTo(code, n - 1)[k];
      forall b | a < b < n
        ensures k !in Registrations(code[b])
      {
        if b == n - 1 {
          assert Registrations(code[b]) == regs;
        }
      }
    }
  }

  // ---------------------------------------------------------------------
  // Resolving tags
  // ---------------------------------------------------------------------

  /** `typeof seg === 'object' ? seg.root : seg`; a `null` segment makes the
      source throw (`None`). */
  function SegmentId(seg: Value): Option<Value> {
    match seg
    case Null => None
    case Obj(fs) => Some(Lookup(fs, "root"))
    case Arr(_) => Some(Undefined)
    case _ => Some(seg)
  }

  /** `symbolMap[id] ?? -1`. */
  function AddressOf(sym: map<string, int>, id: Value): int {
    if ToKey(id) in sym then sym[ToKey(id)] else -1
  }

  /** The ids of all segments, or `None` when one of them throws. */
  function SegmentIds(segs: seq<Value>): (r: Option<seq<Value>>)
    ensures r.Some? <==> forall i :: 0 <= i < |segs| ==> SegmentId(segs[i]).Some?
    ensures r.Some? ==> |r.value| == |segs| && forall i :: 0 <= i < |segs| ==> r.value[i] == SegmentId(segs[i]).value
  {
    if segs == [] then Some([])
    else match SegmentIds(segs[..|segs| - 1])
      case None => None
      case Some(front) =>
        match SegmentId(segs[|segs| - 1])
        case None => None
        case Some(id) => Some(front + [id])
  }

  /** `Array.prototype.join` renders `undefined` and `null` as empty text. */
  function JoinText(v: Value): string {
    if v.Undefined? || v.Null? then "" else ToKey(v)
  }

  /** `ids.join('::')`. */
  function JoinIds(ids: seq<Value>): string {
    if ids == [] then ""
    else if |ids| == 1 then JoinText(ids[0])
    else JoinIds(ids[..|ids| - 1]) + "::" + JoinText(ids[|ids| - 1])
  }

  /** The state of the hashtag loop after the first segments: the address
      and the id of the last one (`id ?? root`), `None` once one throws. */
  function HashtagWalk(segs: seq<Value>, root: Value, sym: map<string, int>): Option<(int, Value)>
  {
    if segs == [] then Some((-1, root))
    else match HashtagWalk(segs[..|segs| - 1], root, sym)
      case None => None
      case Some(_) =>
        match SegmentId(segs[|segs| - 1])
        case None => None
        case Some(id) => Some((AddressOf(sym, id), if id.Undefined? || id.Null? then root else id))
  }

  /** Only the last segment decides a hashtag's address and target. */
  lemma {:induction false} HashtagWalkIsLastSegment(segs: seq<Value>, root: Value, sym: map<string, int>)
    ensures HashtagWalk(segs, root, sym).Some? <==> SegmentIds(segs).Some?
    ensures HashtagWalk(segs, root, sym).Some? && segs != [] ==>
              var id := SegmentId(segs[|segs| - 1]).value;
              HashtagWalk(segs, root, sym).value == (AddressOf(sym, id), if id.Undefined? || id.Null? then root else id)
  {
    if segs != [] {
      HashtagWalkIsLastSegment(segs[..|segs| - 1], root, sym);
    }
  }

  /** The rewritten hashtag object: `{...value, original, target, address}`. */
  function SolveHashtag(fs: seq<Field>, sym: map<string, int>): Option<Value> {
    var segs := Lookup(fs, "segments");
    if !segs.Arr? then None
    else match HashtagWalk(segs.items, Lookup(fs, "root"), sym)
      case None => None
      case Some(st) =>
        Some(Obj(ObjSet(ObjSet(ObjSet(fs, "original", Str("#" + ToKey(Lookup(fs, "root")))), "target", st.1), "address", Num(st.0))))
  }

  /** The rewritten reference object: `{...value, segments: ids, original,
      target, address}` with `original` the ids joined by `::`. */
  function SolveReferenceTag(fs: seq<Field>, sym: map<string, int>): Option<Value> {
    var segs := Lookup(fs, "segments");
    if !segs.Arr? then None
    else match SegmentIds(segs.items)
      case None => None
      case Some(ids) =>
        var target := if ids == [] then Lookup(fs, "root") else ids[|ids| - 1];
        var address := if ids == [] then -1 else AddressOf(sym, ids[|ids| - 1]);
        Some(Obj(ObjSet(ObjSet(ObjSet(ObjSet(fs, "segments", Arr(ids)), "original", Str("@" + JoinIds(ids))),
                               "target", target), "address", Num(address))))
  }

  /** `solveReference(value)`: falsy values vanish, arrays and plain objects
      are solved element by element, hashtag and reference objects are
      rewritten; `None` when the source would throw. */
  function SolveValue(v: Value, sym: map<string, int>): (r: Option<Value>)
    ensures !Truthy(v) ==> r == Some(Undefined)
    ensures v.Str? || v.Num? || v.Bool? ==> r == Some(if Truthy(v) then v else Undefined)
    ensures v.Arr? ==> (r.Some? <==> forall i :: 0 <= i < |v.items| ==> SolveValue(v.items[i], sym).Some?)
    ensures v.Arr? && r.Some? ==> r.value.Arr? && |r.value.items| == |v.items|
    decreases v, 2
  {
    if !Truthy(v) then Some(Undefined)
    else match v
      case Arr(items) => SolveArray(items, sym)
      case Obj(fs) => SolveObject(fs, sym)
      case _ => Some(v)
  }

  function SolveArray(items: seq<Value>, sym: map<string, int>): Option<Value>
    decreases items, 1
  {
    match SolveItems(items, sym)
    case None => None
    case Some(xs) => Some(Arr(xs))
  }

  /** A hashtag or reference object is rewritten; any other object is
      solved property by property. */
  function SolveObject(fs: seq<Field>, sym: map<string, int>): Option<Value>
    decreases fs, 1
  {
    if Lookup(fs, "kind") == Str("hashtag") then SolveHashtag(fs, sym)
    else if Lookup(fs, "kind") == Str("reference") then SolveReferenceTag(fs, sym)
    else
      match SolveFields(fs, sym)
      case None => None
      case Some(gs) => Some(Obj(gs))
  }

  function SolveItems(items: seq<Value>, sym: map<string, int>): (r: Option<seq<Value>>)
    ensures r.Some? <==> forall i :: 0 <= i < |items| ==> SolveValue(items[i], sym).Some?
    ensures r.Some? ==> |r.value| == |items| && forall i :: 0 <= i < |items| ==> r.value[i] == SolveValue(items[i], sym).value
    decreases items, 0
  {
    if items == [] then Some([])
    else
      var front := SolveItems(items[..|items| - 1], sym);
      var x := SolveValue(items[|items| - 1], sym);
      assert forall i :: 0 <= i < |items| - 1 ==> items[..|items| - 1][i] == items[i];
      if front.None? || x.None? then None else Some(front.value + [x.value])
  }

  function SolveFields(fs: seq<Field>, sym: map<string, int>): (r: Option<seq<Field>>)
    ensures r.Some? <==> forall i :: 0 <= i < |fs| ==> SolveValue(fs[i].val, sym).Some?
    ensures r.Some? ==> |r.value| == |fs|
    ensures r.Some? ==> forall i :: 0 <= i < |fs| ==> r.value[i].key == fs[i].key
    ensures r.Some? ==> forall i :: 0 <= i < |fs| ==> r.value[i].val == SolveValue(fs[i].val, sym).value
    decreases fs, 0
  {
    if fs == [] then Some([])
    else
      var front := SolveFields(fs[..|fs| - 1], sym);
      var x := SolveValue(fs[|fs| - 1].val, sym);
      assert forall i :: 0 <= i < |fs| - 1 ==> fs[..|fs| - 1][i] == fs[i];
      if front.None? || x.None? then None else Some(front.value + [Field(fs[|fs| - 1].key, x.value)])
  }

  /** Reading a key of a solved plain object reads the solved value. */
  lemma {:induction false} LookupSolveFields(fs: seq<Field>, sym: map<string, int>, k: string)
    requires SolveFields(fs, sym).Some?
    ensures SolveValue(Lookup(fs, k), sym).Some?
    ensures Lookup(SolveFields(fs, sym).value, k) == SolveValue(Lookup(fs, k), sym).value
    decreases |fs|
  {
    var gs := SolveFields(fs, sym).value;
    if fs != [] {
      assert SolveFields(fs[1..], sym).Some? by {
        forall i | 0 <= i < |fs[1..]|
          ensures SolveValue(fs[1..][i].val, sym).Some?
        {
          assert fs[1..][i] == fs[i + 1];
        }
      }
      LookupSolveFields(fs[1..], sym, k);
      assert gs[1..] == SolveFields(fs[1..], sym).value;
      assert SolveValue(fs[0].val, sym).Some?;
    }
  }

  /** The name a parser segment resolves under: a plain segment's text, a
      nested tag's root. */
  function SegmentName(s: Segment): string {
    match s
    case Name(x) => x
    case Nested(t) => t.root
  }

  function NameValues(segs: seq<Segment>): (r: seq<Value>)
    ensures |r| == |segs| && forall i :: 0 <= i < |segs| ==> r[i] == Str(SegmentName(segs[i]))
  {
    seq(|segs|, i requires 0 <= i < |segs| => Str(SegmentName(segs[i])))
  }

  /** The keys a tag is rewritten under differ from each other and from the
      keys it had. */
  lemma DistinctKeys()
    ensures "original" != "target" && "original" != "address" && "target" != "address"
    ensures "segments" != "original" && "segments" != "target" && "segments" != "address"
    ensures "root" != "original" && "root" != "target" && "root" != "address" && "root" != "segments"
    ensures "kind" != "original" && "kind" != "target" && "kind" != "address" && "kind" != "segments"
  {
    assert "original"[0] == 'o' && "target"[0] == 't' && "address"[0] == 'a';
    assert "segments"[0] == 's' && "root"[0] == 'r' && "kind"[0] == 'k';
  }

  /** `{...value, original, target, address}` sets those three keys and
      keeps `root`, `kind` and `segments`. */
  lemma RewrittenTag(fs: seq<Field>, original: Value, target: Value, address: Value)
    ensures var r := ObjSet(ObjSet(ObjSet(fs, "original", original), "target", target), "address", address);
            && Lookup(r, "original") == original && Lookup(r, "target") == target && Lookup(r, "address") == address
            && Lookup(r, "root") == Lookup(fs, "root") && Lookup(r, "kind") == Lookup(fs, "kind")
            && Lookup(r, "segments") == Lookup(fs, "segments")
  {
    var r1 := ObjSet(fs, "original", original);
    var r2 := ObjSet(r1, "target", target);
    assert "original"[0] == 'o' && "target"[0] == 't' && "address"[0] == 'a';
    assert "segments"[0] == 's' && "root"[0] == 'r' && "kind"[0] == 'k';
    ObjSetOther(r2, "address", address, "target");
    ObjSetOther(r2, "address", address, "original");
    ObjSetOther(r1, "target", target, "original");
    ObjSetOther(r2, "address", address, "root");
    ObjSetOther(r1, "target", target, "root");
    ObjSetOther(fs, "original", original, "root");
    ObjSetOther(r2, "address", address, "kind");
    ObjSetOther(r1, "target", target, "kind");
    ObjSetOther(fs, "original", original, "kind");
    ObjSetOther(r2, "address", address, "segments");
    ObjSetOther(r1, "target", target, "segments");
    ObjSetOther(fs, "original", original, "segments");
  }

  /** The name a tag's segments end on: the last segment's, or the root. */
  function LastName(t: Tag): string {
    if t.segments == [] then t.root else SegmentName(t.segments[|t.segments| - 1])
  }

  lemma TagFields(t: Tag)
    ensures Lookup(TagValue(t).fields, "root") == Str(t.root)
    ensures Lookup(TagValue(t).fields, "kind") == Str(KindText(t.kind))
    ensures Lookup(TagValue(t).fields, "segments") == Arr(SegmentValues(t.segments))
    ensures SegmentIds(SegmentValues(t.segments)) == Some(NameValues(t.segments))
  {
    var fs := TagValue(t).fields;
    assert "segments"[0] == 's' && "root"[0] == 'r' && "kind"[0] == 'k';
    LookupAt(fs, 1, "kind");
    LookupAt(fs, 2, "segments");
    SegmentNames(t.segments);
  }

  /** The ids of a parsed tag's segments are their names. */
  lemma SegmentNames(ss: seq<Segment>)
    ensures SegmentIds(SegmentValues(ss)) == Some(NameValues(ss))
  {
    var segs := SegmentValues(ss);
    forall i | 0 <= i < |segs|
      ensures SegmentId(segs[i]) == Some(Str(SegmentName(ss[i])))
    {
      SegmentIdOfValue(ss[i]);
    }
    var ids := SegmentIds(segs);
    assert ids.Some?;
    assert ids.value == NameValues(ss);
  }

  lemma SegmentIdOfValue(s: Segment)
    ensures SegmentId(SegmentValue(s)) == Some(Str(SegmentName(s)))
  {
    match s
    case Name(_) =>
    case Nested(u) =>
      LookupAt(TagValue(u).fields, 0, "root");
  }

  /** The hashtag loop over a parsed tag's segments ends on the last name. */
  lemma HashtagState(t: Tag, sym: map<string, int>) returns (st: (int, Value))
    ensures HashtagWalk(SegmentValues(t.segments), Str(t.root), sym) == Some(st)
    ensures st == (if t.segments == [] || LastName(t) !in sym then -1 else sym[LastName(t)], Str(LastName(t)))
  {
    TagFields(t);
    var segs := SegmentValues(t.segments);
    HashtagWalkIsLastSegment(segs, Str(t.root), sym);
    st := HashtagWalk(segs, Str(t.root), sym).value;
    if segs != [] {
      assert SegmentId(segs[|segs| - 1]) == Some(Str(LastName(t)));
    }
  }

  lemma SolveHashtagOf(fs: seq<Field>, sym: map<string, int>, segs: seq<Value>, root: Value, st: (int, Value))
    requires Lookup(fs, "kind") == Str("hashtag")
    requires Lookup(fs, "segments") == Arr(segs) && Lookup(fs, "root") == root
    requires HashtagWalk(segs, root, sym) == Some(st)
    ensures SolveValue(Obj(fs), sym)
         == Some(Obj(ObjSet(ObjSet(ObjSet(fs, "original", Str("#" + ToKey(root))), "target", st.1), "address", Num(st.0))))
    ensures var r := SolveValue(Obj(fs), sym).value;
            && r.Obj?
            && Lookup(r.fields, "root") == root && Lookup(r.fields, "kind") == Str("hashtag")
            && Lookup(r.fields, "segments") == Arr(segs)
            && Lookup(r.fields, "target") == st.1 && Lookup(r.fields, "address") == Num(st.0)
            && Lookup(r.fields, "original") == Str("#" + ToKey(root))
  {
    SolveValueObj(fs, sym);
    RewrittenTag(fs, Str("#" + ToKey(root)), st.1, Num(st.0));
  }

  lemma SolveValueObj(fs: seq<Field>, sym: map<string, int>)
    ensures SolveValue(Obj(fs), sym) == SolveObject(fs, sym)
  {
  }

  /** An object whose `kind` is `reference` is solved as a reference. */
  lemma SolveReferenceKind(fs: seq<Field>, sym: map<string, int>)
    requires Lookup(fs, "kind") == Str("reference")
    ensures SolveValue(Obj(fs), sym) == SolveReferenceTag(fs, sym)
  {
    SolveValueObj(fs, sym);
    assert Str("reference") != Str("hashtag") by {
      assert "reference"[0] != "hashtag"[0];
    }
  }

  lemma SolveReferenceOf(fs: seq<Field>, sym: map<string, int>, segs: seq<Value>, ids: seq<Value>)
    requires Lookup(fs, "kind") == Str("reference")
    requires Lookup(fs, "segments") == Arr(segs) && SegmentIds(segs) == Some(ids) && ids != []
    ensures SolveValue(Obj(fs), sym)
         == Some(Obj(ObjSet(ObjSet(ObjSet(ObjSet(fs, "segments", Arr(ids)), "original", Str("@" + JoinIds(ids))),
                                   "target", ids[|ids| - 1]), "address", Num(AddressOf(sym, ids[|ids| - 1])))))
  {
    SolveReferenceKind(fs, sym);
  }

  lemma SolveReferenceNoSegments(fs: seq<Field>, sym: map<string, int>)
    requires Lookup(fs, "kind") == Str("reference")
    requires Lookup(fs, "segments") == Arr([])
    ensures SolveValue(Obj(fs), sym)
         == Some(Obj(ObjSet(ObjSet(ObjSet(ObjSet(fs, "segments", Arr([])), "original", Str("@" + JoinIds([]))),
                                   "target", Lookup(fs, "root")), "address", Num(-1))))
  {
    SolveReferenceKind(fs, sym);
    assert SegmentIds([]) == Some([]);
  }

  /** `{...value, segments, original, target, address}` sets those four keys
      and keeps `root` and `kind`. */
  lemma RewrittenReference(fs: seq<Field>, segments: Value, original: Value, target: Value, address: Value)
    ensures var r := ObjSet(ObjSet(ObjSet(ObjSet(fs, "segments", segments), "original", original), "target", target), "address", address);
            && Lookup(r, "segments") == segments
            && Lookup(r, "original") == original && Lookup(r, "target") == target && Lookup(r, "address") == address
            && Lookup(r, "root") == Lookup(fs, "root") && Lookup(r, "kind") == Lookup(fs, "kind")
  {
    DistinctKeys();
    var r0 := ObjSet(fs, "segments", segments);
    RewrittenTag(r0, original, target, address);
    ObjSetOther(fs, "segments", segments, "root");
    ObjSetOther(fs, "segments", segments, "kind");
  }

  /** A hashtag keeps its fields and gains `original` (`#root`), `target`
      (the last segment's name, or the root) and `address` (the table's
      entry for that last name alone, -1 when missing or without segments). */
  lemma SolvedHashtag(t: Tag, sym: map<string, int>)
    requires t.kind == Hashtag
    ensures SolveValue(TagValue(t), sym).Some?
    ensures var r := SolveValue(TagValue(t), sym).value;
            && r.Obj?
            && Lookup(r.fields, "root") == Str(t.root)
            && Lookup(r.fields, "kind") == Str("hashtag")
            && Lookup(r.fields, "segments") == Arr(SegmentValues(t.segments))
            && Lookup(r.fields, "target") == Str(LastName(t))
            && Lookup(r.fields, "address") == Num(if t.segments == [] || LastName(t) !in sym then -1 else sym[LastName(t)])
            && Lookup(r.fields, "original") == Str("#" + t.root)
  {
    var fs := TagValue(t).fields;
    var st := HashtagState(t, sym);
    TagFields(t);
    SolveHashtagOf(fs, sym, SegmentValues(t.segments), Str(t.root), st);
  }

  /** A reference's segments become the bare names; it gains `original`
      (`@` and the names joined by `::`), `target` (the last name, or the
      root) and `address` (the table's entry for that last name alone). */
  lemma SolvedReference(t: Tag, sym: map<string, int>)
    requires t.kind == Reference
    ensures SolveValue(TagValue(t), sym).Some?
    ensures var r := SolveValue(TagValue(t), sym).value;
            && r.Obj?
            && Lookup(r.fields, "root") == Str(t.root)
            && Lookup(r.fields, "kind") == Str("reference")
            && Lookup(r.fields, "segments") == Arr(NameValues(t.segments))
            && Lookup(r.fields, "target") == Str(LastName(t))
            && Lookup(r.fields, "address") == Num(if t.segments == [] || LastName(t) !in sym then -1 else sym[LastName(t)])
            && Lookup(r.fields, "original") == Str("@" + JoinIds(NameValues(t.segments)))
  {
    if t.segments == [] {
      SolvedBareReference(t, sym);
      assert NameValues(t.segments) == [];
    } else {
      SolvedReferencePath(t, sym);
    }
  }

  lemma SolvedBareReference(t: Tag, sym: map<string, int>)
    requires t.kind == Reference && t.segments == []
    ensures SolveValue(TagValue(t), sym).Some?
    ensures var r := SolveValue(TagValue(t), sym).value;
            && r.Obj?
            && Lookup(r.fields, "root") == Str(t.root)
            && Lookup(r.fields, "kind") == Str("reference")
            && Lookup(r.fields, "segments") == Arr([])
            && Lookup(r.fields, "target") == Str(t.root)
            && Lookup(r.fields, "address") == Num(-1)
            && Lookup(r.fields, "original") == Str("@" + JoinIds([]))
  {
    var fs := TagValue(t).fields;
    var ids := NameValues(t.segments);
    TagFields(t);
    assert ids == [];
    SolveReferenceNoSegments(fs, sym);
    RewrittenReferenceOf(fs, sym, ids, Str(t.root), -1);
  }

  lemma SolvedReferencePath(t: Tag, sym: map<string, int>)
    requires t.kind == Reference && t.segments != []
    ensures SolveValue(TagValue(t), sym).Some?
    ensures var r := SolveValue(TagValue(t), sym).value;
            && r.Obj?
            && Lookup(r.fields, "root") == Str(t.root)
            && Lookup(r.fields, "kind") == Str("reference")
            && Lookup(r.fields, "segments") == Arr(NameValues(t.segments))
            && Lookup(r.fields, "target") == Str(LastName(t))
            && Lookup(r.fields, "address") == Num(if t.segments == [] || LastName(t) !in sym then -1 else sym[LastName(t)])
            && Lookup(r.fields, "original") == Str("@" + JoinIds(NameValues(t.segments)))
  {
    var fs := TagValue(t).fields;
    var ids := NameValues(t.segments);
    TagFields(t);
    SolveReferenceOf(fs, sym, SegmentValues(t.segments), ids);
    var last := ids[|ids| - 1];
    assert last == Str(LastName(t));
    RewrittenReferenceOf(fs, sym, ids, last, AddressOf(sym, last));
  }

  /** What a solved reference object reads like, key by key. */
  lemma RewrittenReferenceOf(fs: seq<Field>, sym: map<string, int>, ids: seq<Value>, target: Value, address: int)
    requires SolveValue(Obj(fs), sym)
          == Some(Obj(ObjSet(ObjSet(ObjSet(ObjSet(fs, "segments", Arr(ids)), "original", Str("@" + JoinIds(ids))),
                                    "target", target), "address", Num(address))))
    ensures SolveValue(Obj(fs), sym).Some?
    ensures var r := SolveValue(Obj(fs), sym).value;
            && r.Obj?
            && Lookup(r.fields, "root") == Lookup(fs, "root") && Lookup(r.fields, "kind") == Lookup(fs, "kind")
            && Lookup(r.fields, "segments") == Arr(ids)
            && Lookup(r.fields, "target") == target && Lookup(r.fields, "address") == Num(address)
            && Lookup(r.fields, "original") == Str("@" + JoinIds(ids))
  {
    RewrittenReference(fs, Arr(ids), Str("@" + JoinIds(ids)), target, Num(address));
  }

  lemma SolvePlainOf(fs: seq<Field>, sym: map<string, int>)
    requires Lookup(fs, "kind") == Undefined
    ensures SolveValue(Obj(fs), sym) == if SolveFields(fs, sym).Some? then Some(Obj(SolveFields(fs, sym).value)) else None
  {
    SolveValueObj(fs, sym);
  }

  /** A successor list of addresses at least 1 is truthy throughout and
      passes unchanged. */
  lemma SolveNext(next: seq<int>, sym: map<string, int>)
    requires forall i :: 0 <= i < |next| ==> next[i] >= 1
    ensures SolveValue(Arr(NumValues(next)), sym) == Some(Arr(NumValues(next)))
  {
    var nexts := NumValues(next);
    assert forall i :: 0 <= i < |nexts| ==> SolveValue(nexts[i], sym) == Some(nexts[i]);
    assert SolveItems(nexts, sym).value == nexts;
  }

  /** The solved tag list. */
  function SolvedTags(ts: seq<Tag>, sym: map<string, int>): (r: seq<Value>)
    ensures |r| == |ts|
  {
    seq(|ts|, i requires 0 <= i < |ts| => var x := SolveValue(TagValue(ts[i]), sym); if x.Some? then x.value else Undefined)
  }

  lemma TagSolves(t: Tag, sym: map<string, int>)
    ensures SolveValue(TagValue(t), sym).Some?
  {
    if t.kind == Hashtag {
      SolvedHashtag(t, sym);
    } else {
      SolvedReference(t, sym);
    }
  }

  lemma SolveTagList(ts: seq<Tag>, sym: map<string, int>)
    ensures forall i :: 0 <= i < |ts| ==> SolveValue(TagValue(ts[i]), sym).Some?
    ensures SolveValue(Arr(TagValues(ts)), sym) == Some(Arr(SolvedTags(ts, sym)))
  {
    var items := TagValues(ts);
    forall i | 0 <= i < |ts|
      ensures SolveValue(items[i], sym).Some?
    {
      TagSolves(ts[i], sym);
    }
    SolveValueArr(items, sym);
    var xs := SolveItems(items, sym).value;
    forall i | 0 <= i < |ts|
      ensures xs[i] == SolvedTags(ts, sym)[i]
    {
    }
    assert xs == SolvedTags(ts, sym);
  }

  lemma SolveValueArr(items: seq<Value>, sym: map<string, int>)
    ensures SolveValue(Arr(items), sym) == SolveArray(items, sym)
  {
  }

  lemma InstructionId(ins: Instruction)
    ensures Lookup(InstructionValue(ins).fields, "id") == ins.id
  {
  }

  lemma InstructionType(ins: Instruction)
    ensures Lookup(InstructionValue(ins).fields, "type") == Str(ins.itype)
  {
    assert "id"[0] == 'i' && "type"[0] == 't';
  }

  lemma InstructionParams(ins: Instruction)
    ensures Lookup(InstructionValue(ins).fields, "params") == Obj(ins.params)
  {
    assert "id"[0] == 'i' && "type"[0] == 't' && "timestamp"[0] == 't' && "params"[0] == 'p';
    LookupAt(InstructionValue(ins).fields, 3, "params");
  }

  lemma InstructionTags(ins: Instruction)
    ensures Lookup(InstructionValue(ins).fields, "tags") == TagsValue(ins.tags)
  {
    assert "id"[0] == 'i' && "type"[1] == 'y' && "timestamp"[1] == 'i' && "params"[0] == 'p' && "tags"[0] == 't' && "tags"[1] == 'a';
    LookupAt(InstructionValue(ins).fields, 4, "tags");
  }

  lemma InstructionNext(ins: Instruction)
    ensures Lookup(InstructionValue(ins).fields, "next") == Arr(NumValues(ins.next))
  {
    assert "id"[0] == 'i' && "type"[0] == 't' && "timestamp"[0] == 't' && "params"[0] == 'p' && "tags"[0] == 't' && "next"[0] == 'n';
    LookupAt(InstructionValue(ins).fields, 5, "next");
  }

  lemma InstructionKind(ins: Instruction)
    ensures Lookup(InstructionValue(ins).fields, "kind") == Undefined
  {
    assert "id"[0] == 'i' && "type"[0] == 't' && "timestamp"[0] == 't' && "params"[0] == 'p' && "tags"[0] == 't' && "next"[0] == 'n' && "kind"[0] == 'k';
  }

  /** A plain object (no `kind`) whose every field solves is solved key by key. */
  lemma SolvedPlain(fs: seq<Field>, sym: map<string, int>, k: string)
    requires Lookup(fs, "kind") == Undefined
    requires forall i :: 0 <= i < |fs| ==> SolveValue(fs[i].val, sym).Some?
    ensures SolveValue(Obj(fs), sym).Some? && SolveValue(Obj(fs), sym).value.Obj?
    ensures SolveValue(Lookup(fs, k), sym).Some?
    ensures Lookup(SolveValue(Obj(fs), sym).value.fields, k) == SolveValue(Lookup(fs, k), sym).value
  {
    SolvePlainOf(fs, sym);
    LookupSolveFields(fs, sym, k);
  }

  lemma EverySolves(fs: seq<Field>, sym: map<string, int>)
    requires |fs| == 6
    requires SolveValue(fs[0].val, sym).Some? && SolveValue(fs[1].val, sym).Some? && SolveValue(fs[2].val, sym).Some?
    requires SolveValue(fs[3].val, sym).Some? && SolveValue(fs[4].val, sym).Some? && SolveValue(fs[5].val, sym).Some?
    ensures forall i :: 0 <= i < |fs| ==> SolveValue(fs[i].val, sym).Some?
  {
    forall i | 0 <= i < |fs|
      ensures SolveValue(fs[i].val, sym).Some?
    {
      if i < 3 {
        assert i == 0 || i == 1 || i == 2;
      } else {
        assert i == 3 || i == 4 || i == 5;
      }
    }
  }

  /** Every field of a linearised instruction solves. */
  lemma InstructionSolvable(ins: Instruction, sym: map<string, int>)
    requires forall i :: 0 <= i < |ins.next| ==> ins.next[i] >= 1
    requires SolveValue(ins.id, sym).Some? && SolveValue(Obj(ins.params), sym).Some?
    ensures forall i :: 0 <= i < |InstructionValue(ins).fields| ==> SolveValue(InstructionValue(ins).fields[i].val, sym).Some?
  {
    var fs := InstructionValue(ins).fields;
    SolveNext(ins.next, sym);
    SolvedTagsValue(ins.tags, sym);
    EverySolves(fs, sym);
  }

  /** An instruction that solves has an id and params that solve. */
  lemma SolvableParts(ins: Instruction, sym: map<string, int>)
    requires SolveValue(InstructionValue(ins), sym).Some?
    ensures SolveValue(ins.id, sym).Some? && SolveValue(Obj(ins.params), sym).Some?
  {
    var fs := InstructionValue(ins).fields;
    InstructionKind(ins);
    SolvePlainOf(fs, sym);
    assert SolveFields(fs, sym).Some?;
    assert SolveValue(fs[0].val, sym).Some?;
    assert SolveValue(fs[3].val, sym).Some?;
  }

  /** What linking makes of one linearised instruction: the successor list
      (all addresses at least 1) and a non-empty opcode pass unchanged. */
  lemma SolvedInstruction(ins: Instruction, sym: map<string, int>)
    requires forall i :: 0 <= i < |ins.next| ==> ins.next[i] >= 1
    requires SolveValue(ins.id, sym).Some? && SolveValue(Obj(ins.params), sym).Some?
    ensures SolveValue(InstructionValue(ins), sym).Some?
    ensures var r := SolveValue(InstructionValue(ins), sym).value;
            && r.Obj?
            && Lookup(r.fields, "next") == Arr(NumValues(ins.next))
            && Lookup(r.fields, "type") == (if ins.itype == "" then Undefined else Str(ins.itype))
  {
    SolvedNextField(ins, sym);
    SolvedTypeField(ins, sym);
  }

  lemma SolvedNextField(ins: Instruction, sym: map<string, int>)
    requires forall i :: 0 <= i < |ins.next| ==> ins.next[i] >= 1
    requires SolveValue(ins.id, sym).Some? && SolveValue(Obj(ins.params), sym).Some?
    ensures SolveValue(InstructionValue(ins), sym).Some? && SolveValue(InstructionValue(ins), sym).value.Obj?
    ensures Lookup(SolveValue(InstructionValue(ins), sym).value.fields, "next") == Arr(NumValues(ins.next))
  {
    var fs := InstructionValue(ins).fields;
    InstructionKind(ins);
    InstructionSolvable(ins, sym);
    SolvedPlain(fs, sym, "next");
    InstructionNext(ins);
    SolveNext(ins.next, sym);
  }

  lemma SolvedTypeField(ins: Instruction, sym: map<string, int>)
    requires forall i :: 0 <= i < |ins.next| ==> ins.next[i] >= 1
    requires SolveValue(ins.id, sym).Some? && SolveValue(Obj(ins.params), sym).Some?
    ensures SolveValue(InstructionValue(ins), sym).Some? && SolveValue(InstructionValue(ins), sym).value.Obj?
    ensures Lookup(SolveValue(InstructionValue(ins), sym).value.fields, "type") == (if ins.itype == "" then Undefined else Str(ins.itype))
  {
    var fs := InstructionValue(ins).fields;
    InstructionKind(ins);
    InstructionSolvable(ins, sym);
    SolvedPlain(fs, sym, "type");
    InstructionType(ins);
    SolveString(ins.itype, sym);
  }

  /** Strings pass unchanged, except the empty one, which is falsy. */
  lemma SolveString(s: string, sym: map<string, int>)
    ensures SolveValue(Str(s), sym) == Some(if s == "" then Undefined else Str(s))
  {
  }

  /** The operands of a linked instruction: id and params are solved like
      any value, and the tags are the parsed tags, each resolved. */
  lemma SolvedInstructionOperands(ins: Instruction, sym: map<string, int>)
    requires forall i :: 0 <= i < |ins.next| ==> ins.next[i] >= 1
    requires SolveValue(ins.id, sym).Some? && SolveValue(Obj(ins.params), sym).Some?
    ensures SolveValue(InstructionValue(ins), sym).Some? && SolveValue(InstructionValue(ins), sym).value.Obj?
    ensures var r := SolveValue(InstructionValue(ins), sym).value;
            && Lookup(r.fields, "id") == SolveValue(ins.id, sym).value
            && Lookup(r.fields, "params") == SolveValue(Obj(ins.params), sym).value
            && Lookup(r.fields, "tags") == match ins.tags
                 case None => Undefined
                 case Some(ts) => Arr(SolvedTags(ts, sym))
  {
    var fs := InstructionValue(ins).fields;
    InstructionKind(ins);
    InstructionSolvable(ins, sym);
    SolvedPlain(fs, sym, "id");
    InstructionId(ins);
    SolvedPlain(fs, sym, "params");
    InstructionParams(ins);
    SolvedPlain(fs, sym, "tags");
    InstructionTags(ins);
    SolvedTagsValue(ins.tags, sym);
  }

  lemma SolvedTagsValue(tags: Option<seq<Tag>>, sym: map<string, int>)
    ensures SolveValue(TagsValue(tags), sym).Some?
    ensures SolveValue(TagsValue(tags), sym).value == match tags
              case None => Undefined
              case Some(ts) => Arr(SolvedTags(ts, sym))
  {
    if tags.Some? {
      SolveTagList(tags.value, sym);
    }
  }
}
