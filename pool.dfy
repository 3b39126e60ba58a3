/** The text pool: the compiler's string pooling (`process` inside `link`)
    and the runner's inverse (`decode`), with what survives the round trip. */
module KrakoaPool {
  import opened KrakoaValues

  /** Keys whose values pooling copies verbatim. */
  predicate PoolExempt(k: string) {
    k == "address" || k == "original" || k == "target" || k == "kind"
  }

  /** Keys whose values decoding copies verbatim. */
  predicate DecodeExempt(k: string) {
    k == "address" || k == "next" || k == "original" || k == "target"
  }

  predicate NoDups(pool: seq<string>) {
    forall i, j :: 0 <= i < j < |pool| ==> pool[i] != pool[j]
  }

  /** `textPool.indexOf(s)`: the first slot holding `s`, or -1. */
  function IndexOf(pool: seq<string>, s: string): (r: int)
    ensures -1 <= r < |pool|
    ensures r >= 0 ==> pool[r] == s && forall j :: 0 <= j < r ==> pool[j] != s
    ensures r == -1 <==> s !in pool
  {
    if pool == [] then -1
    else if pool[0] == s then 0
    else var r := IndexOf(pool[1..], s); if r == -1 then -1 else r + 1
  }

  /** A pooled value together with the pool after it. */
  datatype Pooled<T> = Pooled(val: T, pool: seq<string>)

  /** The non-empty strings that pooling meets, in the order it meets them
      (repeats included): everything except lambdas and the values of the
      exempt keys. */
  function StringsOf(v: Value): seq<string>
    decreases v
  {
    match v
    case Str(s) => if s != "" then [s] else []
    case Arr(items) => ItemStrings(items)
    case Obj(fs) => if IsLambda(v) then [] else FieldStrings(fs)
    case _ => []
  }

  function ItemStrings(items: seq<Value>): seq<string>
    decreases items
  {
    if items == [] then [] else ItemStrings(items[..|items| - 1]) + StringsOf(items[|items| - 1])
  }

  function FieldStrings(fs: seq<Field>): seq<string>
    decreases fs
  {
    if fs == [] then []
    else FieldStrings(fs[..|fs| - 1]) + (if PoolExempt(fs[|fs| - 1].key) then [] else StringsOf(fs[|fs| - 1].val))
  }

  /** Interning the strings `ss` one after the other: each one the pool does
      not hold yet gets a new slot at the end. */
  function Intern(pool: seq<string>, ss: seq<string>): seq<string>
    decreases |ss|
  {
    if ss == [] then pool
    else
      var p := Intern(pool, ss[..|ss| - 1]);
      if ss[|ss| - 1] in p then p else p + [ss[|ss| - 1]]
  }

  lemma {:induction false} InternConcat(pool: seq<string>, a: seq<string>, b: seq<string>)
    ensures Intern(pool, a + b) == Intern(Intern(pool, a), b)
    decreases |b|
  {
    if b == [] {
      assert a + b == a;
    } else {
      var n := |b| - 1;
      assert (a + b)[..|a + b| - 1] == a + b[..n];
      InternConcat(pool, a, b[..n]);
    }
  }

  /** Interning keeps the old slots, never repeats a string when the pool
      did not, and adds exactly the strings of `ss` the pool lacked, in the
      order of their first occurrence in `ss`. */
  lemma {:induction false} InternFacts(pool: seq<string>, ss: seq<string>)
    ensures var q := Intern(pool, ss);
            && pool <= q
            && (NoDups(pool) ==> NoDups(q))
            && (forall x :: x in q <==> x in pool || x in ss)
            && (forall i :: |pool| <= i < |q| ==> q[i] in ss && q[i] !in pool)
            && (forall i, j :: |pool| <= i < j < |q| ==> FirstIndex(ss, q[i]) < FirstIndex(ss, q[j]))
    decreases |ss|
  {
    if ss != [] {
      var n := |ss| - 1;
      var front, x := ss[..n], ss[n];
      assert ss == front + [x];
      InternFacts(pool, front);
      var p := Intern(pool, front);
      forall y | y in front
        ensures FirstIndex(ss, y) == FirstIndex(front, y)
      {
        FirstIndexSnoc(front, x, y);
      }
      if x !in p {
        assert FirstIndex(ss, x) == n by {
          assert ss[..n] == front;
        }
        var q := p + [x];
        if NoDups(pool) {
          forall i, j | 0 <= i < j < |q|
            ensures q[i] != q[j]
          {
            if j == |p| {
              assert q[i] == p[i];
            }
          }
        }
      }
    }
  }

  /** The pooling of `v` against `pool`: falsy values vanish, strings become
      the index of their slot (a new slot at the end for a new string),
      arrays and objects are pooled element by element in order, lambdas and
      the exempt keys are left alone. The pool only grows. */
  function PoolValue(v: Value, pool: seq<string>): (r: Pooled<Value>)
    ensures !r.val.Str?
    ensures pool <= r.pool
    decreases v
  {
    if !Truthy(v) then Pooled(Undefined, pool)
    else match v
      case Arr(items) =>
        var r := PoolItems(items, pool);
        Pooled(Arr(r.val), r.pool)
      case Str(s) =>
        var index := IndexOf(pool, s);
        if index == -1 then Pooled(Num(|pool|), pool + [s]) else Pooled(Num(index), pool)
      case Obj(fs) =>
        if IsLambda(v) then Pooled(v, pool)
        else var r := PoolFields(fs, pool); Pooled(Obj(r.val), r.pool)
      case _ => Pooled(v, pool)
  }

  /** A falsy value (`""`, `0`, `false`, `null`, `undefined`) pools to
      `undefined` and leaves the pool alone; a truthy number or boolean is
      kept as it is. */
  lemma PoolScalar(v: Value, pool: seq<string>)
    requires !Truthy(v) || v.Num? || v.Bool?
    ensures !Truthy(v) ==> PoolValue(v, pool) == Pooled(Undefined, pool)
    ensures Truthy(v) ==> PoolValue(v, pool) == Pooled(v, pool)
  {
  }

  function PoolItems(items: seq<Value>, pool: seq<string>): (r: Pooled<seq<Value>>)
    ensures |r.val| == |items|
    ensures pool <= r.pool
    decreases items
  {
    if items == [] then Pooled([], pool)
    else
      var front := PoolItems(items[..|items| - 1], pool);
      var x := PoolValue(items[|items| - 1], front.pool);
      Pooled(front.val + [x.val], x.pool)
  }

  function PoolFields(fs: seq<Field>, pool: seq<string>): (r: Pooled<seq<Field>>)
    ensures |r.val| == |fs|
    ensures forall i :: 0 <= i < |fs| ==> r.val[i].key == fs[i].key
    ensures forall i :: 0 <= i < |fs| && !PoolExempt(fs[i].key) ==> !r.val[i].val.Str?
    ensures pool <= r.pool
    decreases fs
  {
    if fs == [] then Pooled([], pool)
    else
      var front := PoolFields(fs[..|fs| - 1], pool);
      var g := PoolField(fs[|fs| - 1], front.pool);
      Pooled(front.val + [g.val], g.pool)
  }

  /** One property: an exempt key keeps its value, any other has its value pooled. */
  function PoolField(f: Field, pool: seq<string>): (r: Pooled<Field>)
    ensures r.val.key == f.key
    ensures pool <= r.pool
  {
    if PoolExempt(f.key) then Pooled(f, pool)
    else
      var x := PoolValue(f.val, pool);
      Pooled(Field(f.key, x.val), x.pool)
  }

  /** Pooling appends the value's strings exactly as interning them in
      traversal order does. */
  lemma {:induction false} PoolValueInterns(v: Value, pool: seq<string>)
    ensures PoolValue(v, pool).pool == Intern(pool, StringsOf(v))
    decreases v
  {
    if Truthy(v) {
      match v
      case Arr(items) =>
        PoolItemsInterns(items, pool);
      case Obj(fs) =>
        if !IsLambda(v) {
          PoolFieldsInterns(fs, pool);
        }
      case Str(s) =>
        assert [s][..0] == [];
      case _ =>
    } else {
      match v
      case Str(s) =>
      case _ =>
    }
  }

  lemma {:induction false} PoolItemsInterns(items: seq<Value>, pool: seq<string>)
    ensures PoolItems(items, pool).pool == Intern(pool, ItemStrings(items))
    decreases items
  {
    if items != [] {
      var n := |items| - 1;
      PoolItemsInterns(items[..n], pool);
      PoolValueInterns(items[n], PoolItems(items[..n], pool).pool);
      InternConcat(pool, ItemStrings(items[..n]), StringsOf(items[n]));
    }
  }

  lemma {:induction false} PoolFieldsInterns(fs: seq<Field>, pool: seq<string>)
    ensures PoolFields(fs, pool).pool == Intern(pool, FieldStrings(fs))
    decreases fs
  {
    if fs != [] {
      var n := |fs| - 1;
      PoolFieldsInterns(fs[..n], pool);
      var rest := if PoolExempt(fs[n].key) then [] else StringsOf(fs[n].val);
      if !PoolExempt(fs[n].key) {
        PoolValueInterns(fs[n].val, PoolFields(fs[..n], pool).pool);
      }
      InternConcat(pool, FieldStrings(fs[..n]), rest);
    }
  }

  /** Pooling keeps the old slots and their distinctness; the new slots hold
      exactly the value's strings that the pool lacked, each once, in the
      order pooling first meets them. */
  lemma PoolValueContents(v: Value, pool: seq<string>)
    ensures var q := PoolValue(v, pool).pool;
            var ss := StringsOf(v);
            && pool <= q
            && (NoDups(pool) ==> NoDups(q))
            && (forall s :: s in q <==> s in pool || s in ss)
            && (forall i :: |pool| <= i < |q| ==> q[i] in ss && q[i] !in pool)
            && (forall i, j :: |pool| <= i < j < |q| ==> FirstIndex(ss, q[i]) < FirstIndex(ss, q[j]))
  {
    PoolValueInterns(v, pool);
    InternFacts(pool, StringsOf(v));
  }

  /** Pooling one more property extends the pooled properties by that one. */
  lemma PoolFieldsSnoc(fs: seq<Field>, f: Field, pool: seq<string>)
    ensures var front := PoolFields(fs, pool);
            var g := PoolField(f, front.pool);
            PoolFields(fs + [f], pool) == Pooled(front.val + [g.val], g.pool)
  {
    assert (fs + [f])[..|fs|] == fs;
  }

  /** The `i`-th pooled item is that item pooled against the pool the
      items before it left. */
  lemma {:induction false} PoolItemsAt(items: seq<Value>, pool: seq<string>, i: nat)
    requires i < |items|
    ensures var q := PoolItems(items[..i], pool).pool;
            && PoolItems(items, pool).val[i] == PoolValue(items[i], q).val
            && PoolValue(items[i], q).pool <= PoolItems(items, pool).pool
    decreases items
  {
    var n := |items| - 1;
    if i < n {
      PoolItemsAt(items[..n], pool, i);
      assert items[..n][..i] == items[..i];
      assert PoolItems(items[..n], pool).pool <= PoolItems(items, pool).pool;
    } else {
      assert items[..i] == items[..n];
    }
  }

  /** A pooled object is never a lambda: its `type`, if any, is no longer a string. */
  lemma PooledNotLambda(fs: seq<Field>, pool: seq<string>)
    ensures !IsLambda(Obj(PoolFields(fs, pool).val))
  {
    var r := PoolFields(fs, pool).val;
    var t := Lookup(r, "type");
    if t != Undefined {
      var i :| 0 <= i < |r| && r[i].key == "type" && r[i].val == t;
      assert fs[i].key == "type";
    }
  }

  /** A non-lambda object is pooled field by field. */
  lemma PoolObject(v: Value, pool: seq<string>)
    requires v.Obj? && !IsLambda(v)
    ensures PoolValue(v, pool) == Pooled(Obj(PoolFields(v.fields, pool).val), PoolFields(v.fields, pool).pool)
  {
  }

  lemma PoolLambda(v: Value, pool: seq<string>)
    requires IsLambda(v)
    ensures PoolValue(v, pool) == Pooled(v, pool)
  {
  }

  lemma SameKeys(a: seq<Field>, b: seq<Field>, k: string)
    requires |a| == |b| && forall i :: 0 <= i < |a| ==> a[i].key == b[i].key
    ensures HasKey(a, k) <==> HasKey(b, k)
  {
    if HasKey(a, k) {
      var i :| 0 <= i < |a| && a[i].key == k;
      assert b[i].key == k;
    }
    if HasKey(b, k) {
      var i :| 0 <= i < |b| && b[i].key == k;
      assert a[i].key == k;
    }
  }

  /** An exempt key, or a key whose value pooling keeps, reads the same
      after pooling. */
  lemma {:induction false} PoolKeepsKey(fs: seq<Field>, pool: seq<string>, k: string)
    requires PoolExempt(k) || PoolKeeps(Lookup(fs, k))
    ensures Lookup(PoolFields(fs, pool).val, k) == Lookup(fs, k)
    decreases fs
  {
    if fs != [] {
      var n := |fs| - 1;
      var f := fs[n];
      var front := PoolFields(fs[..n], pool);
      var g := PoolField(f, front.pool);
      LookupLast(fs, k);
      PoolFieldsKeys(fs[..n], pool, k);
      LookupAppend(front.val, g.val, k);
      if HasKey(fs[..n], k) {
        PoolKeepsKey(fs[..n], pool, k);
      } else if f.key == k && !PoolExempt(k) {
        PoolKeepsValue(f.val, front.pool);
      }
    }
  }

  /** A non-empty string is pooled as the index of a slot holding it. */
  lemma PoolString(s: string, pool: seq<string>)
    requires s != ""
    ensures var x := PoolValue(Str(s), pool);
            x.val.Num? && 0 <= x.val.n < |x.pool| && x.pool[x.val.n] == s
  {
  }

  /** Pooling keeps the keys. */
  lemma PoolFieldsKeys(fs: seq<Field>, pool: seq<string>, k: string)
    ensures HasKey(PoolFields(fs, pool).val, k) <==> HasKey(fs, k)
  {
    SameKeys(fs, PoolFields(fs, pool).val, k);
  }

  /** Key `k` of pooled properties `r` holds the index of a slot holding `s`. */
  predicate SlotOf(r: Pooled<seq<Field>>, k: string, s: string) {
    var x := Lookup(r.val, k);
    x.Num? && 0 <= x.n < |r.pool| && r.pool[x.n] == s
  }

  /** A non-empty string under a pooled key becomes the index of a slot
      holding it. */
  lemma {:induction false} PoolStringKey(fs: seq<Field>, pool: seq<string>, k: string, s: string)
    requires !PoolExempt(k) && Lookup(fs, k) == Str(s) && s != ""
    ensures SlotOf(PoolFields(fs, pool), k, s)
    decreases fs, 1
  {
    var n := |fs| - 1;
    if HasKey(fs[..n], k) {
      PoolStringKeyFront(fs, pool, k, s);
    } else {
      PoolStringKeyLast(fs, pool, k, s);
    }
  }

  lemma {:induction false} PoolStringKeyFront(fs: seq<Field>, pool: seq<string>, k: string, s: string)
    requires !PoolExempt(k) && Lookup(fs, k) == Str(s) && s != ""
    requires fs != [] && HasKey(fs[..|fs| - 1], k)
    ensures SlotOf(PoolFields(fs, pool), k, s)
    decreases fs, 0
  {
    var n := |fs| - 1;
    var f := fs[n];
    var front := PoolFields(fs[..n], pool);
    var g := PoolField(f, front.pool);
    LookupLast(fs, k);
    PoolFieldsKeys(fs[..n], pool, k);
    LookupAppend(front.val, g.val, k);
    PoolStringKey(fs[..n], pool, k, s);
  }

  lemma PoolStringKeyLast(fs: seq<Field>, pool: seq<string>, k: string, s: string)
    requires !PoolExempt(k) && Lookup(fs, k) == Str(s) && s != ""
    requires fs != [] && !HasKey(fs[..|fs| - 1], k)
    ensures SlotOf(PoolFields(fs, pool), k, s)
  {
    var n := |fs| - 1;
    var f := fs[n];
    var front := PoolFields(fs[..n], pool);
    var g := PoolField(f, front.pool);
    LookupLast(fs, k);
    PoolFieldsKeys(fs[..n], pool, k);
    LookupAppend(front.val, g.val, k);
    PoolString(s, front.pool);
  }

  /** The pool `process` of `link`: rebuilds `value` with every string
      replaced by its slot in `textPool`, appending strings not seen yet. */
  method PoolStrings(value: Value, textPool: seq<string>) returns (pooled: Value, pool: seq<string>)
    ensures Pooled(pooled, pool) == PoolValue(value, textPool)
    decreases value
  {
    if !Truthy(value) {
      return Undefined, textPool;
    }
    match value
    case Arr(items) =>
      var out;
      out, pool := PoolEach(items, textPool);
      return Arr(out), pool;
    case Str(s) =>
      var index := IndexOf(textPool, s);
      pool := textPool;
      if index == -1 {
        index := |pool|;
        pool := pool + [s];
      }
      return Num(index), pool;
    case Obj(fs) =>
      if IsLambda(value) {
        return value, textPool;
      }
      var out;
      out, pool := PoolEntries(fs, textPool);
      return Obj(out), pool;
    case _ =>
      return value, textPool;
  }

  /** `value.map(process)`, threading the pool through the items in order. */
  method PoolEach(items: seq<Value>, textPool: seq<string>) returns (out: seq<Value>, pool: seq<string>)
    ensures Pooled(out, pool) == PoolItems(items, textPool)
    decreases items
  {
    out, pool := [], textPool;
    var i := 0;
    while i < |items|
      invariant 0 <= i <= |items|
      invariant Pooled(out, pool) == PoolItems(items[..i], textPool)
    {
      assert items[..i + 1][..i] == items[..i];
      var x;
      x, pool := PoolStrings(items[i], pool);
      out := out + [x];
      i := i + 1;
    }
    assert items[..i] == items;
  }

  /** The `for (let k in value)` loop: exempt keys are copied, the others pooled. */
  method PoolEntries(fs: seq<Field>, textPool: seq<string>) returns (out: seq<Field>, pool: seq<string>)
    ensures Pooled(out, pool) == PoolFields(fs, textPool)
    decreases fs
  {
    out, pool := [], textPool;
    var i := 0;
    while i < |fs|
      invariant 0 <= i <= |fs|
      invariant Pooled(out, pool) == PoolFields(fs[..i], textPool)
    {
      ghost var before, prior := out, pool;
      var f := fs[i];
      if PoolExempt(f.key) {
        out := out + [f];
      } else {
        var x;
        x, pool := PoolStrings(f.val, pool);
        out := out + [Field(f.key, x)];
      }
      PoolEntryStep(fs, i, textPool, before, prior, out, pool);
      i := i + 1;
    }
    assert fs[..i] == fs;
  }

  lemma PoolEntryStep(fs: seq<Field>, i: nat, textPool: seq<string>, before: seq<Field>, prior: seq<string>,
                      out: seq<Field>, pool: seq<string>)
    requires i < |fs|
    requires Pooled(before, prior) == PoolFields(fs[..i], textPool)
    requires Pooled(out, pool) == Pooled(before + [PoolField(fs[i], prior).val], PoolField(fs[i], prior).pool)
    ensures Pooled(out, pool) == PoolFields(fs[..i + 1], textPool)
  {
    PrefixSnoc(fs, i);
    PoolFieldsSnoc(fs[..i], fs[i], textPool);
  }

  /** `decode(value)` against the program's text: numbers are read back as
      the text at that index (nothing when out of range), `null` becomes
      `undefined`, lambdas and the exempt keys are left alone. */
  function Decode(v: Value, text: seq<string>): (r: Value)
    ensures !r.Num? && !r.Null?
    ensures v.Num? ==> (r.Str? <==> 0 <= v.n < |text|) && (r.Str? ==> r == Str(text[v.n]))
    ensures v.Arr? ==> r.Arr? && |r.items| == |v.items|
    ensures v.Obj? ==> r.Obj? && |r.fields| == |v.fields|
    decreases v
  {
    match v
    case Undefined => Undefined
    case Null => Undefined
    case Num(n) => if 0 <= n < |text| then Str(text[n]) else Undefined
    case Arr(items) => Arr(DecodeItems(items, text))
    case Obj(fs) => if IsLambda(v) then v else Obj(DecodeFields(fs, text))
    case _ => v
  }

  function DecodeItems(items: seq<Value>, text: seq<string>): (r: seq<Value>)
    ensures |r| == |items|
    decreases items
  {
    if items == [] then [] else DecodeItems(items[..|items| - 1], text) + [Decode(items[|items| - 1], text)]
  }

  function DecodeField(f: Field, text: seq<string>): Field {
    if DecodeExempt(f.key) then f else Field(f.key, Decode(f.val, text))
  }

  function DecodeFields(fs: seq<Field>, text: seq<string>): (r: seq<Field>)
    ensures |r| == |fs|
    decreases fs
  {
    if fs == [] then [] else DecodeFields(fs[..|fs| - 1], text) + [DecodeField(fs[|fs| - 1], text)]
  }

  /** Reading a key of a decoded object reads the decoded value. */
  lemma {:induction false} LookupDecodeFields(fs: seq<Field>, text: seq<string>, k: string)
    ensures Lookup(DecodeFields(fs, text), k) == if DecodeExempt(k) then Lookup(fs, k) else Decode(Lookup(fs, k), text)
    ensures HasKey(DecodeFields(fs, text), k) <==> HasKey(fs, k)
    decreases fs
  {
    if fs != [] {
      var n := |fs| - 1;
      var front := DecodeFields(fs[..n], text);
      LookupDecodeFields(fs[..n], text, k);
      LookupAppend(front, DecodeField(fs[n], text), k);
      LookupAppend(fs[..n], fs[n], k);
      assert fs[..n] + [fs[n]] == fs;
      HasKeyAppend(front, DecodeField(fs[n], text), k);
      HasKeyAppend(fs[..n], fs[n], k);
    }
  }

  /** Values that pooling leaves exactly as they are (the `next` lists). */
  predicate PoolKeeps(v: Value)
    decreases v
  {
    match v
    case Undefined => true
    case Num(n) => n != 0
    case Bool(b) => b
    case Arr(items) => forall i :: 0 <= i < |items| ==> PoolKeeps(items[i])
    case Obj(_) => IsLambda(v)
    case _ => false
  }

  /** Values that come back from pooling then decoding exactly as they were:
      no numbers and no falsy values other than `undefined` outside the keys
      both sides leave alone; under `kind` (pooled verbatim, then decoded)
      only values decoding keeps, and under `next` (pooled, never decoded)
      only values pooling keeps. */
  predicate RoundTrips(v: Value)
    decreases v, 0
  {
    match v
    case Undefined => true
    case Str(s) => s != ""
    case Bool(b) => b
    case Arr(items) => forall i :: 0 <= i < |items| ==> RoundTrips(items[i])
    case Obj(fs) => IsLambda(v) || forall i :: 0 <= i < |fs| ==> FieldRoundTrips(fs[i].key, fs[i].val)
    case _ => false
  }

  predicate FieldRoundTrips(k: string, x: Value)
    decreases x, 1
  {
    if k == "address" || k == "original" || k == "target" then true
    else if k == "kind" then x.Undefined? || x.Str? || x.Bool?
    else if k == "next" then PoolKeeps(x)
    else RoundTrips(x)
  }

  lemma {:induction false} PoolKeepsValue(v: Value, pool: seq<string>)
    requires PoolKeeps(v)
    ensures PoolValue(v, pool) == Pooled(v, pool)
    decreases v
  {
    match v
    case Arr(items) =>
      PoolKeepsItems(items, pool);
    case _ =>
  }

  lemma {:induction false} PoolKeepsItems(items: seq<Value>, pool: seq<string>)
    requires forall i :: 0 <= i < |items| ==> PoolKeeps(items[i])
    ensures PoolItems(items, pool) == Pooled(items, pool)
    decreases items
  {
    if items != [] {
      PoolKeepsItems(items[..|items| - 1], pool);
      PoolKeepsValue(items[|items| - 1], pool);
      assert items[..|items| - 1] + [items[|items| - 1]] == items;
    }
  }

  /** Round trip: decoding, against any text that extends the pool, what
      pooling produced gives back the original value. */
  lemma {:induction false} DecodePoolValue(v: Value, pool: seq<string>, text: seq<string>)
    requires RoundTrips(v)
    requires PoolValue(v, pool).pool <= text
    ensures Decode(PoolValue(v, pool).val, text) == v
    decreases v, 1
  {
    match v
    case Arr(items) =>
      var r := PoolItems(items, pool);
      assert PoolValue(v, pool) == Pooled(Arr(r.val), r.pool);
      DecodePoolItems(items, pool, text);
    case Obj(fs) =>
      if IsLambda(v) {
        PoolLambda(v, pool);
      } else {
        var r := PoolFields(fs, pool);
        PoolObject(v, pool);
        PooledNotLambda(fs, pool);
        assert Decode(Obj(r.val), text) == Obj(DecodeFields(r.val, text));
        DecodePoolFields(fs, pool, text);
      }
    case Str(s) =>
      PoolString(s, pool);
    case Undefined =>
    case Bool(_) =>
  }

  lemma {:induction false} DecodePoolItems(items: seq<Value>, pool: seq<string>, text: seq<string>)
    requires forall i :: 0 <= i < |items| ==> RoundTrips(items[i])
    requires PoolItems(items, pool).pool <= text
    ensures DecodeItems(PoolItems(items, pool).val, text) == items
    decreases items
  {
    if items != [] {
      var n := |items| - 1;
      var front := PoolItems(items[..n], pool);
      var x := PoolValue(items[n], front.pool);
      assert PoolItems(items, pool) == Pooled(front.val + [x.val], x.pool);
      assert front.pool <= x.pool <= text;
      assert forall i :: 0 <= i < n ==> items[..n][i] == items[i];
      DecodePoolItems(items[..n], pool, text);
      DecodePoolValue(items[n], front.pool, text);
      DecodeItemsSnoc(front.val, x.val, text);
      assert items[..n] + [items[n]] == items;
    }
  }

  lemma DecodeItemsSnoc(front: seq<Value>, x: Value, text: seq<string>)
    ensures DecodeItems(front + [x], text) == DecodeItems(front, text) + [Decode(x, text)]
  {
    assert (front + [x])[..|front|] == front;
  }

  lemma {:induction false} DecodePoolFields(fs: seq<Field>, pool: seq<string>, text: seq<string>)
    requires forall i :: 0 <= i < |fs| ==> FieldRoundTrips(fs[i].key, fs[i].val)
    requires PoolFields(fs, pool).pool <= text
    ensures DecodeFields(PoolFields(fs, pool).val, text) == fs
    decreases fs
  {
    if fs != [] {
      var n := |fs| - 1;
      var f := fs[n];
      var front := PoolFields(fs[..n], pool);
      var g := PoolField(f, front.pool);
      assert PoolFields(fs, pool) == Pooled(front.val + [g.val], g.pool);
      DecodePoolFields(fs[..n], pool, text);
      DecodePoolField(f, front.pool, text);
      DecodeFieldsSnoc(front.val, g.val, text);
      assert fs[..n] + [f] == fs;
    }
  }

  lemma DecodeFieldsSnoc(front: seq<Field>, g: Field, text: seq<string>)
    ensures DecodeFields(front + [g], text) == DecodeFields(front, text) + [DecodeField(g, text)]
  {
    assert (front + [g])[..|front|] == front;
  }

  /** One property comes back from pooling then decoding. */
  lemma DecodePoolField(f: Field, pool: seq<string>, text: seq<string>)
    requires FieldRoundTrips(f.key, f.val)
    requires PoolField(f, pool).pool <= text
    ensures DecodeField(PoolField(f, pool).val, text) == f
    decreases f.val, 2
  {
    if !PoolExempt(f.key) {
      if f.key == "next" {
        PoolKeepsValue(f.val, pool);
      } else {
        DecodePoolValue(f.val, pool, text);
      }
    }
  }

  /** Numbers are not restored: a number outside the exempt keys (such as an
      instruction's timestamp) is pooled as itself and then decoded as an
      index into the text. */
  lemma NumbersDoNotRoundTrip()
    ensures var v := Obj([Field("timestamp", Num(1))]);
            Decode(PoolValue(v, ["a", "b"]).val, ["a", "b"]) == Obj([Field("timestamp", Str("b"))])
  {
    var v := Obj([Field("timestamp", Num(1))]);
    assert PoolFields([Field("timestamp", Num(1))], ["a", "b"]).val == [Field("timestamp", Num(1))] by {
      assert [Field("timestamp", Num(1))][..0] == [];
    }
    assert DecodeFields([Field("timestamp", Num(1))], ["a", "b"]) == [Field("timestamp", Str("b"))] by {
      assert [Field("timestamp", Num(1))][..0] == [];
    }
  }
}
