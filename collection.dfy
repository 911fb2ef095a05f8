/**
 * The in-memory product array and the search every by-id handler runs on it:
 * `products.find` / `products.findIndex` with the test
 * `p.id.toString() === id`, which throws on the first record scanned that has
 * no usable id.
 */
module Collection {
  import opened Wrappers
  import opened Json

  /** The outcome of a first-match scan: an index, -1, or a thrown TypeError. */
  datatype Scan = Found(index: nat) | Missing | Raised

  /** The scan passes `p` by: `p` has an id, and it is not the one sought. */
  predicate Skips(p: Value, id: string) {
    IdOf(p).Some? && IdOf(p).value != id
  }

  /** The scan passes every one of the first `k` records by. */
  predicate Passes(ps: seq<Value>, k: nat, id: string) {
    k <= |ps| && forall j :: 0 <= j < k ==> Skips(ps[j], id)
  }

  function Offset(s: Scan, n: nat): Scan {
    match s
    case Found(i) => Found(i + n)
    case _ => s
  }

  /** The specification of the scan, one record at a time from the front. */
  function FirstMatch(ps: seq<Value>, id: string): (s: Scan)
    ensures s.Found? ==> s.index < |ps| && IdOf(ps[s.index]) == Some(id)
  {
    if ps == [] then Missing
    else match IdOf(ps[0])
      case None => Raised
      case Some(k) => if k == id then Found(0) else Offset(FirstMatch(ps[1..], id), 1)
  }

  /** A found record is always an object, so `if (product)` succeeds exactly when one is found. */
  lemma FoundIsObject(ps: seq<Value>, id: string)
    requires FirstMatch(ps, id).Found?
    ensures ps[FirstMatch(ps, id).index].Obj?
    ensures Truthy(ps[FirstMatch(ps, id).index])
  {
  }

  lemma {:induction false} FoundExactly(ps: seq<Value>, id: string, i: nat)
    ensures FirstMatch(ps, id) == Found(i) <==>
      i < |ps| && Passes(ps, i, id) && IdOf(ps[i]) == Some(id)
  {
    if ps != [] && IdOf(ps[0]).Some? && IdOf(ps[0]).value != id {
      if i > 0 {
        FoundExactly(ps[1..], id, i - 1);
        assert Passes(ps, i, id) <==> Passes(ps[1..], i - 1, id) by {
          assert forall j :: 1 <= j < i && j < |ps| ==> ps[j] == ps[1..][j - 1];
          if Passes(ps[1..], i - 1, id) {
            forall j | 0 <= j < i ensures Skips(ps[j], id) {
              if j > 0 { assert Skips(ps[1..][j - 1], id); }
            }
          }
        }
      }
    }
  }

  lemma {:induction false} MissingExactly(ps: seq<Value>, id: string)
    ensures FirstMatch(ps, id) == Missing <==> Passes(ps, |ps|, id)
  {
    if ps != [] && IdOf(ps[0]).Some? && IdOf(ps[0]).value != id {
      MissingExactly(ps[1..], id);
      assert forall j :: 1 <= j < |ps| ==> ps[j] == ps[1..][j - 1];
      if Passes(ps[1..], |ps| - 1, id) {
        forall j | 0 <= j < |ps| ensures Skips(ps[j], id) {
          if j > 0 { assert Skips(ps[1..][j - 1], id); }
        }
      }
    }
  }

  lemma {:induction false} RaisedExactly(ps: seq<Value>, id: string, k: nat)
    requires k < |ps| && Passes(ps, k, id) && IdOf(ps[k]).None?
    ensures FirstMatch(ps, id) == Raised
  {
    if k > 0 {
      assert Skips(ps[0], id);
      assert Passes(ps[1..], k - 1, id) by {
        forall j | 0 <= j < k - 1 ensures Skips(ps[1..][j], id) {
          assert ps[1..][j] == ps[j + 1];
        }
      }
      RaisedExactly(ps[1..], id, k - 1);
    }
  }

  /**
   * The scan's three outcomes, exactly: a match at `i` after only skippable
   * records; no match and no id-less record anywhere; or an id-less record
   * reached before any match.
   */
  lemma FirstMatchCases(ps: seq<Value>, id: string)
    ensures match FirstMatch(ps, id)
      case Found(i) => i < |ps| && Passes(ps, i, id) && IdOf(ps[i]) == Some(id)
      case Missing => Passes(ps, |ps|, id)
      case Raised => exists k :: 0 <= k < |ps| && Passes(ps, k, id) && IdOf(ps[k]).None?
  {
    match FirstMatch(ps, id)
    case Found(i) => FoundExactly(ps, id, i);
    case Missing => MissingExactly(ps, id);
    case Raised =>
      var k := RaisedAt(ps, id);
  }

  lemma {:induction false} RaisedAt(ps: seq<Value>, id: string) returns (k: nat)
    requires FirstMatch(ps, id) == Raised
    ensures k < |ps| && Passes(ps, k, id) && IdOf(ps[k]).None?
  {
    if IdOf(ps[0]).None? {
      k := 0;
    } else {
      var k' := RaisedAt(ps[1..], id);
      k := k' + 1;
      forall j | 0 <= j < k ensures Skips(ps[j], id) {
        if j > 0 { assert ps[j] == ps[1..][j - 1]; }
      }
    }
  }

  /**
   * `products.findIndex((p) => p.id.toString() === id)` as a loop over the
   * array: the first matching index, -1 (Missing) when none matches, or the
   * TypeError (Raised) of an id-less record met first.
   */
  method FindIndex(ps: seq<Value>, id: string) returns (s: Scan)
    ensures s == FirstMatch(ps, id)
  {
    var i := 0;
    while i < |ps|
      invariant 0 <= i <= |ps|
      invariant Passes(ps, i, id)
    {
      var key := IdOf(ps[i]);
      if key.None? {
        RaisedExactly(ps, id, i);
        return Raised;
      }
      if key.value == id {
        FoundExactly(ps, id, i);
        return Found(i);
      }
      i := i + 1;
    }
    MissingExactly(ps, id);
    return Missing;
  }

  /** Scanning a concatenation scans the first part, and only on -1 goes on into the second. */
  lemma {:induction false} FirstMatchConcat(a: seq<Value>, b: seq<Value>, id: string)
    ensures FirstMatch(a + b, id) ==
      if FirstMatch(a, id) == Missing then Offset(FirstMatch(b, id), |a|) else FirstMatch(a, id)
  {
    if a == [] {
      assert a + b == b;
      match FirstMatch(b, id)
      case Found(i) =>
      case Missing =>
      case Raised =>
    } else {
      assert (a + b)[0] == a[0];
      assert (a + b)[1..] == a[1..] + b;
      FirstMatchConcat(a[1..], b, id);
    }
  }

  /** Replacing a record by one with the same key does not change any scan. */
  lemma {:induction false} FirstMatchSameKey(ps: seq<Value>, i: nat, x: Value, id: string)
    requires i < |ps| && IdOf(x) == IdOf(ps[i])
    ensures FirstMatch(ps[i := x], id) == FirstMatch(ps, id)
  {
    if i > 0 {
      assert ps[i := x][0] == ps[0];
      assert ps[i := x][1..] == ps[1..][i - 1 := x];
      FirstMatchSameKey(ps[1..], i - 1, x, id);
    }
  }

  /** `products.splice(i, 1)`: the record at `i` is removed, the rest keep their order. */
  function RemoveAt(ps: seq<Value>, i: nat): (r: seq<Value>)
    requires i < |ps|
    ensures |r| == |ps| - 1
    ensures forall j :: 0 <= j < |r| ==> r[j] == if j < i then ps[j] else ps[j + 1]
    ensures multiset(r) + multiset{ps[i]} == multiset(ps)
  {
    assert ps == ps[..i] + [ps[i]] + ps[i + 1..];
    ps[..i] + ps[i + 1..]
  }

  /** Every record has a usable id, so no scan of the array can throw. */
  predicate Keyed(ps: seq<Value>) {
    forall j :: 0 <= j < |ps| ==> IdOf(ps[j]).Some?
  }

  /** Exactly one record, at `i`, has the key `id`. */
  predicate OnlyAt(ps: seq<Value>, i: nat, id: string) {
    i < |ps| && IdOf(ps[i]) == Some(id) &&
    forall j :: 0 <= j < |ps| && j != i ==> IdOf(ps[j]) != Some(id)
  }

  /**
   * Removing the first match makes the next scan find the following record
   * with the same key, if any: the scan resumes just after the removed index.
   */
  lemma RemoveFirstMatch(ps: seq<Value>, id: string, i: nat)
    requires FirstMatch(ps, id) == Found(i)
    ensures FirstMatch(RemoveAt(ps, i), id) == Offset(FirstMatch(ps[i + 1..], id), i)
  {
    FoundExactly(ps, id, i);
    MissingExactly(ps[..i], id);
    assert Passes(ps[..i], i, id) by {
      forall j | 0 <= j < i ensures Skips(ps[..i][j], id) {
        assert ps[..i][j] == ps[j];
      }
    }
    FirstMatchConcat(ps[..i], ps[i + 1..], id);
  }

  /** With unique, usable keys, the removed key can no longer be found. */
  lemma RemoveUnique(ps: seq<Value>, id: string, i: nat)
    requires Keyed(ps) && OnlyAt(ps, i, id)
    ensures FirstMatch(ps, id) == Found(i)
    ensures FirstMatch(RemoveAt(ps, i), id) == Missing
  {
    var r := RemoveAt(ps, i);
    assert Passes(ps, i, id);
    FoundExactly(ps, id, i);
    assert Passes(r, |r|, id) by {
      forall j | 0 <= j < |r| ensures Skips(r[j], id) {
        assert IdOf(r[j]).Some? && IdOf(r[j]) != Some(id);
      }
    }
    MissingExactly(r, id);
  }

  /** A record appended behind records that all skip its key is found at the end. */
  lemma AppendThenFind(ps: seq<Value>, x: Value, id: string)
    requires Passes(ps, |ps|, id) && IdOf(x) == Some(id)
    ensures FirstMatch(ps + [x], id) == Found(|ps|)
  {
    MissingExactly(ps, id);
    FirstMatchConcat(ps, [x], id);
  }

  /** Appending never changes what an existing match or throw resolves to. */
  lemma AppendKeepsEarlier(ps: seq<Value>, x: Value, id: string)
    requires FirstMatch(ps, id) != Missing
    ensures FirstMatch(ps + [x], id) == FirstMatch(ps, id)
  {
    FirstMatchConcat(ps, [x], id);
  }
}
