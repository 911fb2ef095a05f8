/**
 * What the handlers guarantee across requests: a created record can be read
 * back, a deleted one cannot, a patch keeps untouched fields, an unknown id is
 * a 404 for every by-id method, and which handlers keep every record keyed.
 */
module Scenarios {
  import opened Wrappers
  import opened Json
  import opened Collection
  import opened Server

  /** A rejected creation leaves the file, and so the listed count, as it was. */
  lemma ValidationGate(d: Option<Value>, v: Value, readOk: bool, writeOk: bool, resp: Response, d': Option<Value>)
    requires CreateOutcome(d, Some(v), readOk, writeOk, resp, d')
    requires !v.Null? && !Accepted(v)
    ensures resp == Status(400) && d' == d
    ensures Products(d').Some? ==> |Products(d').value| == |Products(d).value|
  {
  }

  /** The key a created record is found under: its `id`, as a string. */
  function CreatedKey(v: Value): (key: string)
    requires Accepted(v)
    ensures IdOf(v) == Some(key)
  {
    ToStr(v.fields["id"])
  }

  /**
   * Create, then read by the new id: when no earlier record could intercept
   * the scan, the read returns exactly the submitted record. The creation
   * answers 201 with the record's `Location`, or 500 when that value is one
   * `setHeader` refuses; the record is saved either way.
   */
  lemma CreateThenRead(d0: Option<Value>, v: Value, r1: Response, d1: Option<Value>, r2: Response)
    requires Accepted(v) && Products(d0).Some?
    requires Passes(Products(d0).value, |Products(d0).value|, CreatedKey(v))
    requires CreateOutcome(d0, Some(v), true, true, r1, d1)
    requires GetByIdOutcome(d1, true, CreatedKey(v), r2)
    ensures var location := Router.ItemPrefix + CreatedKey(v);
      r1 == if HeaderSafe(location) then Response(201, Some(location), None) else Status(500)
    ensures r2 == Response(200, None, Some(v))
  {
    var ps := Products(d0).value;
    assert Products(d1) == Some(ps + [v]);
    AppendThenFind(ps, v, CreatedKey(v));
  }

  /**
   * The `Location` of a created record leads back to it: a GET on it reads
   * the record's own key, provided the key is one the URL parser keeps as it
   * is, so that the pathname the client sends is the `Location` itself.
   */
  lemma LocationReadsKey(v: Value)
    requires Accepted(v) && Router.UrlPlain(CreatedKey(v))
    ensures Router.RouteOf("GET", Router.ItemPrefix + CreatedKey(v)) == Router.Read(CreatedKey(v))
  {
    assert '/' !in CreatedKey(v) by {
      assert forall i :: 0 <= i < |CreatedKey(v)| ==> CreatedKey(v)[i] != '/';
    }
    assert Text.Upper("GET") == "GET";
    Router.ItemIdIsFirstSegment(CreatedKey(v), "");
    Router.ItemRoutes("GET", CreatedKey(v));
  }

  /** A key holding "/" does not: the `Location` of id "a/b" reads id "a". */
  lemma SlashKeyLocationReadsPrefix()
    ensures Router.RouteOf("GET", Router.ItemPrefix + "a/b") == Router.Read("a")
  {
    assert Text.Upper("GET") == "GET";
    Router.ItemIdIsFirstSegment("a", "b");
    Router.ItemRoutes("GET", "a/b");
    assert Router.ItemPrefix + "a/b" == Router.ItemPrefix + "a" + "/" + "b";
  }

  /**
   * Duplicate ids are not rejected: after creating a record whose key an
   * earlier record already has, reading that key still returns the earlier one.
   * The creation's answer depends only on its `Location` value.
   */
  lemma CreateDuplicateReadsEarlier(d0: Option<Value>, v: Value, r1: Response, d1: Option<Value>, r2: Response, i: nat)
    requires CreateOutcome(d0, Some(v), true, true, r1, d1)
    requires Accepted(v) && Products(d0).Some?
    requires FirstMatch(Products(d0).value, CreatedKey(v)) == Found(i)
    requires GetByIdOutcome(d1, true, CreatedKey(v), r2)
    ensures r1.status == if HeaderSafe(Router.ItemPrefix + CreatedKey(v)) then 201 else 500
    ensures Products(d1) == Some(Products(d0).value + [v])
    ensures r2 == Response(200, None, Some(Products(d0).value[i]))
  {
    var ps := Products(d0).value;
    assert Products(d1) == Some(ps + [v]);
    AppendKeepsEarlier(ps, v, CreatedKey(v));
    assert (ps + [v])[i] == ps[i];
  }

  /**
   * An id holding a line break is saved, but the `Location` header it yields
   * makes `setHeader` throw, so the client is told 500.
   */
  lemma SavedButRefused(r: Response, d1: Option<Value>)
    requires CreateOutcome(Some(Arr([])), Some(Obj(map["id" := Str("a\nb"), "name" := Str("n"),
                                                       "description" := Str("d")])), true, true, r, d1)
    ensures r == Status(500)
    ensures d1 == Some(Arr([Obj(map["id" := Str("a\nb"), "name" := Str("n"), "description" := Str("d")])]))
  {
    var v := Obj(map["id" := Str("a\nb"), "name" := Str("n"), "description" := Str("d")]);
    assert Products(Some(Arr([]))).value + [v] == [v];
    var location := Router.ItemPrefix + "a\nb";
    assert location[|Router.ItemPrefix| + 1] == '\n';
  }

  /**
   * List completeness: after a run of successful creations, the listed array
   * is the old one followed by every created record, in order.
   */
  lemma {:induction false} CreatesAccumulate(ds: seq<Option<Value>>, bodies: seq<Value>, rs: seq<Response>)
    requires |ds| == |bodies| + 1 && |rs| == |bodies|
    requires forall k :: 0 <= k < |bodies| ==>
      CreateOutcome(ds[k], Some(bodies[k]), true, true, rs[k], ds[k + 1]) && rs[k].status == 201
    requires Products(ds[0]).Some?
    ensures Products(ds[|bodies|]) == Some(Products(ds[0]).value + bodies)
  {
    if bodies != [] {
      var n := |bodies| - 1;
      CreatesAccumulate(ds[..n + 1], bodies[..n], rs[..n]);
      assert CreateOutcome(ds[n], Some(bodies[n]), true, true, rs[n], ds[n + 1]) && rs[n].status == 201;
      assert Products(ds[0]).value + bodies[..n] + [bodies[n]] == Products(ds[0]).value + bodies;
    } else {
      assert Products(ds[0]).value + bodies == Products(ds[0]).value;
    }
  }

  /**
   * Delete, then read the same id: the read finds the next record with that
   * key, if there is one after the deleted index.
   */
  lemma DeleteThenReadNext(d0: Option<Value>, id: string, r1: Response, d1: Option<Value>, r2: Response, i: nat)
    requires DeleteOutcome(d0, id, true, true, r1, d1) && GetByIdOutcome(d1, true, id, r2)
    requires Products(d0).Some? && FirstMatch(Products(d0).value, id) == Found(i)
    ensures r1 == Status(204)
    ensures var ps := Products(d0).value;
      match FirstMatch(ps[i + 1..], id)
      case Found(j) => r2 == Response(200, None, Some(ps[i + 1 + j]))
      case Missing => r2 == Status(404)
      case Raised => r2 == Status(500)
  {
    var ps := Products(d0).value;
    RemoveFirstMatch(ps, id, i);
    match FirstMatch(ps[i + 1..], id)
    case Found(j) => assert RemoveAt(ps, i)[i + j] == ps[i + 1 + j];
    case Missing =>
    case Raised =>
  }

  /** Delete, then read: with unique, usable keys the deleted id is a 404. */
  lemma DeleteThenRead(d0: Option<Value>, id: string, r1: Response, d1: Option<Value>, r2: Response, i: nat)
    requires Products(d0).Some? && Keyed(Products(d0).value) && OnlyAt(Products(d0).value, i, id)
    requires DeleteOutcome(d0, id, true, true, r1, d1) && GetByIdOutcome(d1, true, id, r2)
    ensures r1 == Status(204) && r2 == Status(404)
    ensures Products(d1) == Some(RemoveAt(Products(d0).value, i))
  {
    RemoveUnique(Products(d0).value, id, i);
  }

  /**
   * Patch, then read the same id: when the patch does not touch `id`, the
   * read returns the merged record: patched fields take the patch's values,
   * the others keep the old ones.
   */
  lemma PatchThenRead(d0: Option<Value>, id: string, patch: Value, r1: Response, d1: Option<Value>, r2: Response, i: nat)
    requires PatchOutcome(d0, id, Some(patch), true, true, r1, d1) && GetByIdOutcome(d1, true, id, r2)
    requires Products(d0).Some? && FirstMatch(Products(d0).value, id) == Found(i)
    requires "id" !in OwnEntries(patch)
    ensures r1 == Status(200)
    ensures var before := Products(d0).value[i].fields;
      && r2.json.Some? && r2.json.value.Obj?
      && var merged := r2.json.value.fields;
      && merged.Keys == before.Keys + OwnEntries(patch).Keys
      && (forall k :: k in OwnEntries(patch) ==> merged[k] == OwnEntries(patch)[k])
      && (forall k :: k in before && k !in OwnEntries(patch) ==> merged[k] == before[k])
  {
    var ps := Products(d0).value;
    var x := Obj(Assign(ps[i].fields, patch));
    AssignKeepsId(ps[i].fields, patch);
    FirstMatchSameKey(ps, i, x, id);
  }

  /** The merge of a concrete record with a one-field patch. */
  lemma PatchExample()
    ensures var before := map["id" := Num(1), "name" := Str("A"), "description" := Str("d"), "extra" := Str("z")];
      Assign(before, Obj(map["name" := Str("B")])) ==
        map["id" := Num(1), "name" := Str("B"), "description" := Str("d"), "extra" := Str("z")]
  {
  }

  /** PUT, then read the same id: a replacement that keeps the key is what the read returns. */
  lemma UpdateThenRead(d0: Option<Value>, id: string, v: Value, r1: Response, d1: Option<Value>, r2: Response, i: nat)
    requires UpdateOutcome(d0, id, Some(v), true, true, r1, d1) && GetByIdOutcome(d1, true, id, r2)
    requires Products(d0).Some? && FirstMatch(Products(d0).value, id) == Found(i)
    requires IdOf(v) == Some(id)
    ensures r1 == Status(200) && r2 == Response(200, None, Some(v))
  {
    FirstMatchSameKey(Products(d0).value, i, v, id);
  }

  /**
   * The replacement's own id is not checked against the path: a PUT whose
   * body carries another key succeeds, and afterwards, with unique keys, the
   * old key is a 404.
   */
  lemma UpdateCanRekey(d0: Option<Value>, id: string, v: Value, r1: Response, d1: Option<Value>, r2: Response, i: nat)
    requires Products(d0).Some? && Keyed(Products(d0).value) && OnlyAt(Products(d0).value, i, id)
    requires IdOf(v).Some? && IdOf(v) != Some(id)
    requires UpdateOutcome(d0, id, Some(v), true, true, r1, d1) && GetByIdOutcome(d1, true, id, r2)
    ensures r1 == Status(200) && r2 == Status(404)
  {
    var ps := Products(d0).value;
    var qs := ps[i := v];
    assert Passes(ps, i, id);
    FoundExactly(ps, id, i);
    assert Passes(qs, |qs|, id);
    MissingExactly(qs, id);
  }

  /** An id no record has is a 404 for GET, PUT, PATCH and DELETE alike, and nothing is written. */
  lemma NotFoundSymmetry(d: Option<Value>, id: string, body: Option<Value>, writeOk: bool,
                         r1: Response, r2: Response, d2: Option<Value>,
                         r3: Response, d3: Option<Value>, r4: Response, d4: Option<Value>)
    requires Products(d).Some? && Keyed(Products(d).value)
    requires forall j :: 0 <= j < |Products(d).value| ==> IdOf(Products(d).value[j]) != Some(id)
    requires body.Some?
    requires GetByIdOutcome(d, true, id, r1)
    requires UpdateOutcome(d, id, body, true, writeOk, r2, d2)
    requires PatchOutcome(d, id, body, true, writeOk, r3, d3)
    requires DeleteOutcome(d, id, true, writeOk, r4, d4)
    ensures r1 == r2 == r3 == r4 == Status(404)
    ensures d2 == d3 == d4 == d
  {
    var ps := Products(d).value;
    assert Passes(ps, |ps|, id);
    MissingExactly(ps, id);
  }

  /** A record scanned without a usable id turns every later lookup into a 500. */
  lemma UnkeyedRecordRaises(d: Option<Value>, id: string, k: nat, resp: Response)
    requires Products(d).Some? && k < |Products(d).value|
    requires Passes(Products(d).value, k, id) && IdOf(Products(d).value[k]).None?
    requires GetByIdOutcome(d, true, id, resp)
    ensures resp == Status(500)
  {
    RaisedExactly(Products(d).value, id, k);
  }

  /** A successful creation keeps every record keyed: the new one has a truthy id. */
  lemma CreateKeepsKeyed(d: Option<Value>, body: Option<Value>, resp: Response, d': Option<Value>)
    requires CreateOutcome(d, body, true, true, resp, d') && resp.status == 201
    requires Products(d).Some? && Keyed(Products(d).value)
    ensures Products(d').Some? && Keyed(Products(d').value)
  {
  }

  /** A successful deletion keeps every record keyed. */
  lemma DeleteKeepsKeyed(d: Option<Value>, id: string, resp: Response, d': Option<Value>)
    requires DeleteOutcome(d, id, true, true, resp, d') && resp.status == 204
    requires Products(d).Some? && Keyed(Products(d).value)
    ensures Products(d').Some? && Keyed(Products(d').value)
  {
  }

  /**
   * A successful PUT keeps every record keyed exactly when the replacement
   * has a usable id of its own; nothing checks that it does.
   */
  lemma UpdateKeepsKeyedIff(d: Option<Value>, id: string, v: Value, resp: Response, d': Option<Value>)
    requires UpdateOutcome(d, id, Some(v), true, true, resp, d') && resp.status == 200
    requires Products(d).Some? && Keyed(Products(d).value)
    ensures Products(d').Some?
    ensures Keyed(Products(d').value) <==> IdOf(v).Some?
  {
    var i := FirstMatch(Products(d).value, id).index;
    assert Products(d').value[i] == v;
  }

  /**
   * A successful PATCH keeps every record keyed exactly when the patch does
   * not set `id` to null.
   */
  lemma PatchKeepsKeyedIff(d: Option<Value>, id: string, patch: Value, resp: Response, d': Option<Value>)
    requires PatchOutcome(d, id, Some(patch), true, true, resp, d') && resp.status == 200
    requires Products(d).Some? && Keyed(Products(d).value)
    ensures Products(d').Some?
    ensures Keyed(Products(d').value) <==> !("id" in OwnEntries(patch) && OwnEntries(patch)["id"].Null?)
  {
    var ps := Products(d).value;
    var i := FirstMatch(ps, id).index;
    var x := Obj(Assign(ps[i].fields, patch));
    assert Products(d').value[i] == x;
    if "id" in OwnEntries(patch) {
      AssignReplacesId(ps[i].fields, patch);
    } else {
      AssignKeepsId(ps[i].fields, patch);
    }
  }
}
