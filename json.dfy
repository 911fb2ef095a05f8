/**
 * The JavaScript values that `JSON.parse` produces, and the few operations the
 * server performs on them: truthiness (`!x`), string conversion (`String(x)`
 * and `x.toString()`), the `p.id.toString()` key used by every lookup, and the
 * own enumerable entries that `Object.assign` copies.
 */
module Json {
  import opened Wrappers
  import opened Text

  /** A parsed JSON value; numbers are restricted to integers. */
  datatype Value =
    | Null
    | Bool(b: bool)
    | Num(n: int)
    | Str(s: string)
    | Arr(items: seq<Value>)
    | Obj(fields: map<string, Value>)

  /** JavaScript truthiness, as tested by `!x`. */
  predicate Truthy(v: Value) {
    match v
    case Null => false
    case Bool(b) => b
    case Num(n) => n != 0
    case Str(s) => s != ""
    case Arr(_) => true
    case Obj(_) => true
  }

  /**
   * `!!v[key]` for a value `v` that is not null: only an object has own
   * properties of these names, and a missing property reads as undefined,
   * which is falsy.
   */
  predicate Present(v: Value, key: string) {
    v.Obj? && key in v.fields && Truthy(v.fields[key])
  }

  /**
   * `String(v)`, which for a non-null value is also `v.toString()`. Arrays
   * join their elements with commas, rendering null elements as empty strings.
   */
  function ToStr(v: Value): string
    decreases v
  {
    match v
    case Null => "null"
    case Bool(b) => if b then "true" else "false"
    case Num(n) => IntString(n)
    case Str(s) => s
    case Arr(items) =>
      Join(seq(|items|, i requires 0 <= i < |items| =>
        if items[i].Null? then "" else ToStr(items[i])), ",")
    case Obj(_) => "[object Object]"
  }

  /**
   * `p.id.toString()`: defined only when `p` is an object whose `id` is
   * present and not null; in every other case the expression throws.
   */
  function IdOf(p: Value): Option<string> {
    match p
    case Obj(m) => if "id" in m && !m["id"].Null? then Some(ToStr(m["id"])) else None
    case _ => None
  }

  /** The numeric id 7 and the string id "7" share the key "7". */
  lemma NumericAndStringIdsCollide()
    ensures IdOf(Obj(map["id" := Num(7)])) == IdOf(Obj(map["id" := Str("7")])) == Some("7")
  {
    assert IntString(7) == "7";
  }

  /** Two numeric ids share a key only when they are equal. */
  lemma NumericIdsDistinct(a: int, b: int)
    requires IdOf(Obj(map["id" := Num(a)])) == IdOf(Obj(map["id" := Num(b)]))
    ensures a == b
  {
    IntStringInjective(a, b);
  }

  /** The entries `{"0": items[0], "1": items[1], ...}` of an array-like source. */
  function IndexEntries(items: seq<Value>): (m: map<string, Value>)
    ensures forall j :: 0 <= j < |items| ==> NatString(j) in m && m[NatString(j)] == items[j]
    ensures forall k :: k in m ==> exists j :: 0 <= j < |items| && k == NatString(j)
  {
    if items == [] then map[]
    else
      var n := |items| - 1;
      var m := IndexEntries(items[..n]);
      assert forall j :: 0 <= j < n ==> NatString(j) != NatString(n) by {
        forall j | 0 <= j < n ensures NatString(j) != NatString(n) {
          if NatString(j) == NatString(n) {
            NatStringInjective(j, n);
          }
        }
      }
      m[NatString(n) := items[n]]
  }

  /**
   * The own enumerable properties `Object.assign` copies from a source: an
   * object's fields, an array's elements or a string's characters under
   * their decimal indices, and nothing from null, booleans or numbers.
   */
  function OwnEntries(v: Value): map<string, Value> {
    match v
    case Obj(m) => m
    case Arr(items) => IndexEntries(items)
    case Str(s) => IndexEntries(seq(|s|, i requires 0 <= i < |s| => Str([s[i]])))
    case _ => map[]
  }

  /**
   * `Object.assign(target, source)` on an object target: the source's
   * entries overwrite same-named fields, every other field is kept.
   */
  function Assign(target: map<string, Value>, source: Value): (r: map<string, Value>)
    ensures r.Keys == target.Keys + OwnEntries(source).Keys
    ensures forall k :: k in OwnEntries(source) ==> r[k] == OwnEntries(source)[k]
    ensures forall k :: k in target && k !in OwnEntries(source) ==> r[k] == target[k]
  {
    target + OwnEntries(source)
  }

  /** Assigning the same source twice has the effect of assigning it once. */
  lemma AssignIdempotent(target: map<string, Value>, source: Value)
    ensures Assign(Assign(target, source), source) == Assign(target, source)
  {
  }

  /** A source without an `id` entry leaves the target's lookup key unchanged. */
  lemma AssignKeepsId(target: map<string, Value>, source: Value)
    requires "id" !in OwnEntries(source)
    ensures IdOf(Obj(Assign(target, source))) == IdOf(Obj(target))
  {
  }

  /** A source with an `id` entry re-keys the target (or removes its key, when that entry is null). */
  lemma AssignReplacesId(target: map<string, Value>, source: Value)
    requires "id" in OwnEntries(source)
    ensures IdOf(Obj(Assign(target, source))) == IdOf(Obj(map["id" := OwnEntries(source)["id"]]))
  {
  }

  /** Assigning an array writes its elements under "0", "1", ...; a string, its characters. */
  lemma AssignArrayLike(target: map<string, Value>, items: seq<Value>, s: string, j: nat)
    ensures j < |items| ==> Assign(target, Arr(items))[NatString(j)] == items[j]
    ensures j < |s| ==> Assign(target, Str(s))[NatString(j)] == Str([s[j]])
  {
  }
}
