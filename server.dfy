/**
 * The product server: the file-backed store (`product.json`, held as its
 * parsed contents), the six request handlers that load the whole array,
 * change it in memory and save it back, and the request callback that
 * dispatches to them.
 *
 * Each handler's effect is stated once, as a relation between the file before,
 * the request, the response and the file after (the `...Outcome` predicates);
 * the handler methods are proved to realise them and the lemmas at the end of
 * the module relate several requests to each other.
 */
module Server {
  import opened Wrappers
  import opened Text
  import opened Json
  import opened Collection
  import opened Router

  /** What a handler sends back: the status, a `Location` header, a JSON body. */
  datatype Response = Response(status: nat, location: Option<string>, json: Option<Value>)

  /** A response with a plain-text body (or none), identified by its status. */
  function Status(code: nat): Response {
    Response(code, None, None)
  }

  /** The array the by-id and create handlers work on: the document, when it is an array. */
  function Products(doc: Option<Value>): Option<seq<Value>> {
    if doc.Some? && doc.value.Arr? then Some(doc.value.items) else None
  }

  /** `readDataFromFile`: the file's content when the read succeeds, nothing when it fails. */
  function Loaded(d: Option<Value>, readOk: bool): Option<Value> {
    if readOk then d else None
  }

  /** The catch-all: a 500 and the file as it was. */
  ghost predicate Failed(resp: Response, d: Option<Value>, d': Option<Value>) {
    resp == Status(500) && d' == d
  }

  /** Creation needs a truthy `id`, `name` and `description`. */
  predicate Accepted(v: Value) {
    Present(v, "id") && Present(v, "name") && Present(v, "description")
  }

  /** A character `setHeader` accepts in a header value: tab, visible ASCII and space, or 0x80-0xFF. */
  predicate HeaderChar(c: char) {
    c == '\t' || (' ' <= c <= '~') || (0x80 <= c as int <= 0xff)
  }

  /** A header value `setHeader` accepts; any other makes it throw. */
  predicate HeaderSafe(s: string) {
    forall i :: 0 <= i < |s| ==> HeaderChar(s[i])
  }

  /** The prefix "/product/" never makes a `Location` value unacceptable. */
  lemma LocationSafe(s: string)
    ensures HeaderSafe(ItemPrefix + s) <==> HeaderSafe(s)
  {
    assert forall i :: 0 <= i < |s| ==> (ItemPrefix + s)[|ItemPrefix| + i] == s[i];
  }

  /** A numeric id always gives an acceptable `Location`, so its creation can only fail on I/O. */
  lemma NumericIdLocationSafe(n: int)
    ensures HeaderSafe(ItemPrefix + ToStr(Num(n)))
  {
    var s := IntString(n);
    assert HeaderSafe(s) by {
      if n < 0 {
        assert s == "-" + NatString(-n);
        assert forall i :: 1 <= i < |s| ==> s[i] == NatString(-n)[i - 1];
      }
    }
    LocationSafe(s);
  }

  /** GET /product: whatever the file holds, as JSON; 500 when it cannot be read. */
  ghost predicate GetAllOutcome(d: Option<Value>, readOk: bool, resp: Response) {
    match Loaded(d, readOk)
    case None => resp == Status(500)
    case Some(v) => resp == Response(200, None, Some(v))
  }

  /** GET /product/{id}: the first record with that key, 404 when none, 500 when the scan throws. */
  ghost predicate GetByIdOutcome(d: Option<Value>, readOk: bool, id: string, resp: Response) {
    match Products(Loaded(d, readOk))
    case None => resp == Status(500)
    case Some(ps) =>
      match FirstMatch(ps, id)
      case Found(i) => resp == Response(200, None, Some(ps[i]))
      case Missing => resp == Status(404)
      case Raised => resp == Status(500)
  }

  /**
   * POST /product: an unparsable or null body is a 500, a body lacking a
   * required field a 400 that leaves the file alone; otherwise the body is
   * appended at the end and saved, and a 201 points at `/product/{id}`. When
   * that `Location` value holds a character `setHeader` refuses, the record
   * has already been saved but the answer is a 500.
   */
  ghost predicate CreateOutcome(d: Option<Value>, body: Option<Value>, readOk: bool, writeOk: bool,
                                resp: Response, d': Option<Value>) {
    if body.None? || body.value.Null? then Failed(resp, d, d')
    else if !Accepted(body.value) then resp == Status(400) && d' == d
    else if Products(Loaded(d, readOk)).None? || !writeOk then Failed(resp, d, d')
    else
      var location := ItemPrefix + ToStr(body.value.fields["id"]);
      && d' == Some(Arr(Products(d).value + [body.value]))
      && resp == if HeaderSafe(location) then Response(201, Some(location), None) else Status(500)
  }

  /** PUT /product/{id}: the first matching record is replaced by the body, whatever its shape. */
  ghost predicate UpdateOutcome(d: Option<Value>, id: string, body: Option<Value>, readOk: bool, writeOk: bool,
                                resp: Response, d': Option<Value>) {
    if body.None? || Products(Loaded(d, readOk)).None? then Failed(resp, d, d')
    else
      var ps := Products(d).value;
      match FirstMatch(ps, id)
      case Raised => Failed(resp, d, d')
      case Missing => resp == Status(404) && d' == d
      case Found(i) =>
        if writeOk then resp == Status(200) && d' == Some(Arr(ps[i := body.value]))
        else Failed(resp, d, d')
  }

  /** PATCH /product/{id}: the body's entries are assigned onto the first matching record. */
  ghost predicate PatchOutcome(d: Option<Value>, id: string, body: Option<Value>, readOk: bool, writeOk: bool,
                               resp: Response, d': Option<Value>) {
    if body.None? || Products(Loaded(d, readOk)).None? then Failed(resp, d, d')
    else
      var ps := Products(d).value;
      match FirstMatch(ps, id)
      case Raised => Failed(resp, d, d')
      case Missing => resp == Status(404) && d' == d
      case Found(i) =>
        if writeOk then resp == Status(200) && d' == Some(Arr(ps[i := Obj(Assign(ps[i].fields, body.value))]))
        else Failed(resp, d, d')
  }

  /** DELETE /product/{id}: the first matching record is removed and the answer is a 204. */
  ghost predicate DeleteOutcome(d: Option<Value>, id: string, readOk: bool, writeOk: bool,
                                resp: Response, d': Option<Value>) {
    if Products(Loaded(d, readOk)).None? then Failed(resp, d, d')
    else
      var ps := Products(d).value;
      match FirstMatch(ps, id)
      case Raised => Failed(resp, d, d')
      case Missing => resp == Status(404) && d' == d
      case Found(i) =>
        if writeOk then resp == Status(204) && d' == Some(Arr(RemoveAt(ps, i)))
        else Failed(resp, d, d')
  }

  /**
   * The data file. `doc` is the parsed content of `product.json`, or None when
   * the file is missing or not valid JSON. Every handler reads it afresh;
   * `readOk` says whether that read succeeds and `writeOk` whether the one
   * write a handler attempts succeeds.
   */
  class ProductFile {
    var doc: Option<Value>

    constructor (initial: Option<Value>)
      ensures doc == initial
    {
      doc := initial;
    }

    /** `writeDataToFile`: the whole array replaces the file, unless the write fails. */
    method Save(products: seq<Value>, writeOk: bool) returns (ok: bool)
      modifies this
      ensures ok == writeOk
      ensures doc == if writeOk then Some(Arr(products)) else old(doc)
    {
      if writeOk {
        doc := Some(Arr(products));
      }
      ok := writeOk;
    }

    method GetAllProducts(readOk: bool) returns (resp: Response)
      ensures GetAllOutcome(doc, readOk, resp)
    {
      var loaded := Loaded(doc, readOk);
      if loaded.None? {
        return Status(500);
      }
      resp := Response(200, None, Some(loaded.value));
    }

    method GetProductById(id: string, readOk: bool) returns (resp: Response)
      ensures GetByIdOutcome(doc, readOk, id, resp)
    {
      var loaded := Products(Loaded(doc, readOk));
      if loaded.None? {
        return Status(500);
      }
      var products := loaded.value;
      var scan := FindIndex(products, id);
      match scan
      case Found(i) => resp := Response(200, None, Some(products[i]));
      case Missing => resp := Status(404);
      case Raised => resp := Status(500);
    }

    method CreateProduct(body: Option<Value>, readOk: bool, writeOk: bool) returns (resp: Response)
      modifies this
      ensures CreateOutcome(old(doc), body, readOk, writeOk, resp, doc)
    {
      if body.None? || body.value.Null? {
        return Status(500);
      }
      var newProduct := body.value;
      if !Accepted(newProduct) {
        return Status(400);
      }
      var loaded := Products(Loaded(doc, readOk));
      if loaded.None? {
        return Status(500);
      }
      var products := loaded.value;
      products := products + [newProduct];
      var ok := Save(products, writeOk);
      if !ok {
        return Status(500);
      }
      var location := ItemPrefix + ToStr(newProduct.fields["id"]);
      if !HeaderSafe(location) {
        return Status(500);
      }
      resp := Response(201, Some(location), None);
    }

    method UpdateProduct(id: string, body: Option<Value>, readOk: bool, writeOk: bool) returns (resp: Response)
      modifies this
      ensures UpdateOutcome(old(doc), id, body, readOk, writeOk, resp, doc)
    {
      if body.None? {
        return Status(500);
      }
      var loaded := Products(Loaded(doc, readOk));
      if loaded.None? {
        return Status(500);
      }
      var products := loaded.value;
      var scan := FindIndex(products, id);
      match scan
      case Raised => resp := Status(500);
      case Missing => resp := Status(404);
      case Found(index) =>
        products := products[index := body.value];
        var ok := Save(products, writeOk);
        resp := if ok then Status(200) else Status(500);
    }

    method PatchProduct(id: string, body: Option<Value>, readOk: bool, writeOk: bool) returns (resp: Response)
      modifies this
      ensures PatchOutcome(old(doc), id, body, readOk, writeOk, resp, doc)
    {
      if body.None? {
        return Status(500);
      }
      var loaded := Products(Loaded(doc, readOk));
      if loaded.None? {
        return Status(500);
      }
      var products := loaded.value;
      var scan := FindIndex(products, id);
      match scan
      case Raised => resp := Status(500);
      case Missing => resp := Status(404);
      case Found(index) =>
        var product := products[index];
        products := products[index := Obj(Assign(product.fields, body.value))];
        var ok := Save(products, writeOk);
        resp := if ok then Status(200) else Status(500);
    }

    method DeleteProduct(id: string, readOk: bool, writeOk: bool) returns (resp: Response)
      modifies this
      ensures DeleteOutcome(old(doc), id, readOk, writeOk, resp, doc)
    {
      var loaded := Products(Loaded(doc, readOk));
      if loaded.None? {
        return Status(500);
      }
      var products := loaded.value;
      var scan := FindIndex(products, id);
      match scan
      case Raised => resp := Status(500);
      case Missing => resp := Status(404);
      case Found(index) =>
        products := products[..index] + products[index + 1..];
        var ok := Save(products, writeOk);
        resp := if ok then Status(204) else Status(500);
    }

    /**
     * The request callback: routes on the upper-cased method and the
     * pathname, runs the chosen handler, and answers 405 or 404 itself.
     * The file changes only with a 200, 201 or 204, or with the 500 of a
     * creation whose record was saved before its `Location` was refused.
     */
    method Serve(verb: string, pathname: string, body: Option<Value>, readOk: bool, writeOk: bool)
      returns (resp: Response)
      modifies this
      ensures match RouteOf(verb, pathname)
        case Create => CreateOutcome(old(doc), body, readOk, writeOk, resp, doc)
        case List => GetAllOutcome(old(doc), readOk, resp) && doc == old(doc)
        case Read(id) => GetByIdOutcome(old(doc), readOk, id, resp) && doc == old(doc)
        case Replace(id) => UpdateOutcome(old(doc), id, body, readOk, writeOk, resp, doc)
        case Merge(id) => PatchOutcome(old(doc), id, body, readOk, writeOk, resp, doc)
        case Delete(id) => DeleteOutcome(old(doc), id, readOk, writeOk, resp, doc)
        case MethodNotAllowed => resp == Status(405) && doc == old(doc)
        case NotFound => resp == Status(404) && doc == old(doc)
      ensures resp.status in {200, 201, 204, 400, 404, 405, 500}
      ensures doc != old(doc) ==>
        resp.status in {200, 201, 204} || (RouteOf(verb, pathname) == Create && resp.status == 500)
      ensures !readOk ==> doc == old(doc) && resp.status in {400, 404, 405, 500}
    {
      match RouteOf(verb, pathname)
      case Create => resp := CreateProduct(body, readOk, writeOk);
      case List => resp := GetAllProducts(readOk);
      case Read(id) => resp := GetProductById(id, readOk);
      case Replace(id) => resp := UpdateProduct(id, body, readOk, writeOk);
      case Merge(id) => resp := PatchProduct(id, body, readOk, writeOk);
      case Delete(id) => resp := DeleteProduct(id, readOk, writeOk);
      case MethodNotAllowed => resp := Status(405);
      case NotFound => resp := Status(404);
    }
  }
}
