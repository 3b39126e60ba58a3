/** JavaScript values as the Krakoa engine sees them: the literals of a script,
    the fields of compiled instructions and the contents of runtime frames. */
module KrakoaValues {

  datatype Option<+T> = None | Some(value: T)

  /** One property of a JavaScript object; objects keep their insertion order,
      because the order of the keys decides the order of the text pool. */
  datatype Field = Field(key: string, val: Value)

  /** A JavaScript value. Numbers are integers: every number the engine
      computes with is an address, an index or a counter. */
  datatype Value =
    | Undefined
    | Null
    | Str(s: string)
    | Num(n: int)
    | Bool(b: bool)
    | Arr(items: seq<Value>)
    | Obj(fields: seq<Field>)

  /** JavaScript truthiness: `undefined`, `null`, `false`, `0` and `""` are falsy. */
  predicate Truthy(v: Value) {
    match v
    case Undefined => false
    case Null => false
    case Str(s) => s != ""
    case Num(n) => n != 0
    case Bool(b) => b
    case _ => true
  }

  /** `o[k]` on an object given by its fields: the value of the first field named `k`. */
  function Lookup(fs: seq<Field>, k: string): (r: Value)
    ensures r != Undefined ==> exists i :: 0 <= i < |fs| && fs[i].key == k && fs[i].val == r
    ensures (forall i :: 0 <= i < |fs| ==> fs[i].key != k) ==> r == Undefined
  {
    if fs == [] then Undefined
    else if fs[0].key == k then fs[0].val
    else Lookup(fs[1..], k)
  }

  /** `o[k]` on an object built field by field. */
  lemma LookupCons(f: Field, rest: seq<Field>, k: string)
    ensures Lookup([f] + rest, k) == if f.key == k then f.val else Lookup(rest, k)
  {
    assert ([f] + rest)[1..] == rest;
  }

  /** The first field named `k` decides `o[k]`. */
  lemma {:induction false} LookupAt(fs: seq<Field>, i: nat, k: string)
    requires i < |fs| && fs[i].key == k
    requires forall j :: 0 <= j < i ==> fs[j].key != k
    ensures Lookup(fs, k) == fs[i].val
    decreases i
  {
    if i > 0 {
      LookupAt(fs[1..], i - 1, k);
    }
  }

  predicate HasKey(fs: seq<Field>, k: string) {
    exists i :: 0 <= i < |fs| && fs[i].key == k
  }

  lemma HasKeyAppend(fs: seq<Field>, f: Field, k: string)
    ensures HasKey(fs + [f], k) <==> HasKey(fs, k) || f.key == k
  {
    if HasKey(fs + [f], k) && !HasKey(fs, k) {
      var i :| 0 <= i < |fs + [f]| && (fs + [f])[i].key == k;
      assert i == |fs|;
    }
    if HasKey(fs, k) {
      var i :| 0 <= i < |fs| && fs[i].key == k;
      assert (fs + [f])[i].key == k;
    }
    if f.key == k {
      assert (fs + [f])[|fs|].key == k;
    }
  }

  /** Adding a field at the end only matters for a key not yet present. */
  lemma {:induction false} LookupAppend(fs: seq<Field>, f: Field, k: string)
    ensures Lookup(fs + [f], k) == if HasKey(fs, k) then Lookup(fs, k) else if f.key == k then f.val else Undefined
    decreases |fs|
  {
    if fs != [] {
      assert (fs + [f])[1..] == fs[1..] + [f];
      LookupAppend(fs[1..], f, k);
      if fs[0].key != k {
        assert HasKey(fs, k) ==> HasKey(fs[1..], k) by {
          if HasKey(fs, k) {
            var i :| 0 <= i < |fs| && fs[i].key == k;
            assert fs[1..][i - 1].key == k;
          }
        }
        assert HasKey(fs[1..], k) ==> HasKey(fs, k) by {
          if HasKey(fs[1..], k) {
            var i :| 0 <= i < |fs[1..]| && fs[1..][i].key == k;
            assert fs[i + 1].key == k;
          }
        }
      }
    }
  }

  /** `o[k]` decided by the last field and those before it. */
  lemma LookupLast(fs: seq<Field>, k: string)
    requires fs != []
    ensures var n := |fs| - 1;
            Lookup(fs, k) == if HasKey(fs[..n], k) then Lookup(fs[..n], k) else if fs[n].key == k then fs[n].val else Undefined
  {
    var n := |fs| - 1;
    assert fs[..n] + [fs[n]] == fs;
    LookupAppend(fs[..n], fs[n], k);
  }

  /** One more element of a sequence's prefix. */
  lemma PrefixSnoc<T>(s: seq<T>, i: nat)
    requires i < |s|
    ensures s[..i + 1] == s[..i] + [s[i]]
  {
  }

  /** `v.k` on any value: only objects have properties. */
  function Prop(v: Value, k: string): Value {
    if v.Obj? then Lookup(v.fields, k) else Undefined
  }

  /** `o[k] = x`: overwrites the first field named `k` in place, or appends one. */
  function ObjSet(fs: seq<Field>, k: string, x: Value): (r: seq<Field>)
    ensures Lookup(r, k) == x
    ensures forall j :: j != k ==> Lookup(r, j) == Lookup(fs, j)
    ensures |r| == |fs| || |r| == |fs| + 1
  {
    if fs == [] then [Field(k, x)]
    else if fs[0].key == k then [Field(k, x)] + fs[1..]
    else [fs[0]] + ObjSet(fs[1..], k, x)
  }

  lemma ObjSetOther(fs: seq<Field>, k: string, x: Value, j: string)
    requires j != k
    ensures Lookup(ObjSet(fs, k, x), j) == Lookup(fs, j)
  {
  }

  /** A deferred expression `λ(...)`: the parser's `{type: ":lambda", code}` object. */
  function LambdaValue(code: string): Value {
    Obj([Field("type", Str(":lambda")), Field("code", Str(code))])
  }

  /** The test both the compiler and the runner use to leave lambdas alone. */
  predicate IsLambda(v: Value) {
    v.Obj? && Lookup(v.fields, "type") == Str(":lambda")
  }

  function DigitChar(d: nat): char
    requires d < 10
  {
    "0123456789"[d]
  }

  function NatToString(n: nat): (s: string)
    ensures |s| > 0
    decreases n
  {
    if n < 10 then [DigitChar(n)] else NatToString(n / 10) + [DigitChar(n % 10)]
  }

  function IntToString(n: int): string {
    if n < 0 then "-" + NatToString(-n) else NatToString(n)
  }

  /** `String(v)`, as used when a value becomes a property key or is
      interpolated into a template string. Arrays are rendered like objects,
      a simplification: the engine never uses an array as a key. */
  function ToKey(v: Value): string {
    match v
    case Undefined => "undefined"
    case Null => "null"
    case Str(s) => s
    case Num(n) => IntToString(n)
    case Bool(b) => if b then "true" else "false"
    case _ => "[object Object]"
  }

  /** A register or field read as an address; anything that is not a number
      stands for "no address" (-1), which no instruction has. */
  function AddrOf(v: Value): int {
    if v.Num? then v.n else -1
  }

  /** The index of the first occurrence of `x` in `s`. */
  function FirstIndex(s: seq<string>, x: string): (i: nat)
    requires x in s
    ensures i < |s| && s[i] == x && x !in s[..i]
  {
    if s[0] == x then 0 else 1 + FirstIndex(s[1..], x)
  }

  lemma {:induction false} FirstIndexSnoc(s: seq<string>, x: string, y: string)
    requires y in s
    ensures FirstIndex(s + [x], y) == FirstIndex(s, y)
  {
    if s[0] != y {
      assert (s + [x])[1..] == s[1..] + [x];
      FirstIndexSnoc(s[1..], x, y);
    }
  }
}
