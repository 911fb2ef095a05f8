/**
 * The request callback's dispatch: the upper-cased request method and the URL
 * pathname select one of the five collection operations, or a 405 or 404
 * answer.
 */
module Router {
  import opened Text

  const CollectionPath: string := "/product"
  const ItemPrefix: string := "/product/"

  /**
   * A character the URL parser keeps as it is in a path segment: an ASCII
   * letter or digit, '-', '_' or '~'. Other characters can end the path
   * ('?', '#'), turn into '/' (a backslash), be dropped or percent-encoded,
   * or form dot segments.
   */
  predicate UrlPlainChar(c: char) {
    ('a' <= c <= 'z') || ('A' <= c <= 'Z') || ('0' <= c <= '9') || c == '-' || c == '_' || c == '~'
  }

  /** A path segment the URL parser leaves unchanged. */
  predicate UrlPlain(s: string) {
    forall i :: 0 <= i < |s| ==> UrlPlainChar(s[i])
  }

  /** Where a request goes; the by-id routes carry the id taken from the path. */
  datatype Route =
    | Create
    | List
    | Read(id: string)
    | Replace(id: string)
    | Merge(id: string)
    | Delete(id: string)
    | MethodNotAllowed
    | NotFound

  /** `pathname.split("/")[2]`, which exists whenever the path starts with "/product/". */
  function PathId(pathname: string): (id: string)
    requires StartsWith(pathname, ItemPrefix)
    ensures var rest := pathname[|ItemPrefix|..];
      && |id| <= |rest| && rest[..|id|] == id
      && '/' !in id
      && (|id| == |rest| || rest[|id|] == '/')
  {
    var rest := pathname[|ItemPrefix|..];
    assert pathname == "" + ['/'] + "product" + ['/'] + rest;
    SplitAfter("", '/', "product" + ['/'] + rest);
    assert "" + ['/'] + "product" + ['/'] + rest == "" + ['/'] + ("product" + ['/'] + rest);
    SplitAfter("product", '/', rest);
    SplitHead(rest, '/');
    Split(pathname, '/')[2]
  }

  /** The routing decision for a request method (in any case) and a pathname. */
  function RouteOf(verb: string, pathname: string): Route {
    var m := Upper(verb);
    if pathname == CollectionPath && m == "POST" then Create
    else if pathname == CollectionPath && m == "GET" then List
    else if StartsWith(pathname, ItemPrefix) then
      var id := PathId(pathname);
      if m == "GET" then Read(id)
      else if m == "PUT" then Replace(id)
      else if m == "PATCH" then Merge(id)
      else if m == "DELETE" then Delete(id)
      else MethodNotAllowed
    else NotFound
  }

  /** On exactly "/product", POST creates, GET lists, and every other method is a 404. */
  lemma CollectionRoutes(verb: string)
    ensures RouteOf(verb, CollectionPath) ==
      if Upper(verb) == "POST" then Create
      else if Upper(verb) == "GET" then List
      else NotFound
  {
    assert !StartsWith(CollectionPath, ItemPrefix);
  }

  /**
   * Below "/product/", the four by-id methods reach their handlers with the
   * first path segment after the prefix as the id, and any other method is a 405.
   */
  lemma ItemRoutes(verb: string, rest: string)
    ensures var id := PathId(ItemPrefix + rest);
      var m := Upper(verb);
      RouteOf(verb, ItemPrefix + rest) ==
        if m == "GET" then Read(id)
        else if m == "PUT" then Replace(id)
        else if m == "PATCH" then Merge(id)
        else if m == "DELETE" then Delete(id)
        else MethodNotAllowed
  {
    assert (ItemPrefix + rest)[..|ItemPrefix|] == ItemPrefix;
    assert ItemPrefix + rest != CollectionPath;
  }

  /**
   * The id is everything after "/product/" up to the next "/": a path with no
   * further slash yields the whole remainder, and "/product/" yields "".
   */
  lemma {:induction false} ItemIdIsFirstSegment(rest: string, tail: string)
    requires '/' !in rest
    ensures PathId(ItemPrefix + rest) == rest
    ensures PathId(ItemPrefix + rest + "/" + tail) == rest
  {
    var p := ItemPrefix + rest;
    assert StartsWith(p, ItemPrefix) by { assert p[..|ItemPrefix|] == ItemPrefix; }
    assert p[|ItemPrefix|..] == rest;
    var q := ItemPrefix + rest + "/" + tail;
    assert StartsWith(q, ItemPrefix) by { assert q[..|ItemPrefix|] == ItemPrefix; }
    assert q[|ItemPrefix|..] == rest + "/" + tail;
    var r := rest + "/" + tail;
    assert forall k :: 0 <= k < |rest| ==> r[k] == rest[k] && r[k] != '/';
    assert r[|rest|] == '/';
    var id := PathId(q);
    assert forall k :: 0 <= k < |id| ==> id[k] == r[k] && id[k] != '/';
    assert |id| == |rest|;
    assert r[..|rest|] == rest;
  }

  /** Any path that is neither "/product" nor below "/product/" is a 404, whatever the method. */
  lemma OtherPathsNotFound(verb: string, pathname: string)
    requires pathname != CollectionPath && !StartsWith(pathname, ItemPrefix)
    ensures RouteOf(verb, pathname) == NotFound
  {
  }

  /** Methods are compared after upper-casing, so their case never matters. */
  lemma MethodCaseIgnored(verb: string, pathname: string)
    ensures RouteOf(verb, pathname) == RouteOf(Upper(verb), pathname)
  {
    UpperIdempotent(verb);
  }

  /** Concrete rows of the routing table: the collection path. */
  lemma CollectionExamples()
    ensures RouteOf("get", "/product") == List
    ensures RouteOf("PUT", "/product") == NotFound
  {
    assert Upper("get") == "GET";
    assert Upper("PUT") == "PUT";
    CollectionRoutes("get");
    CollectionRoutes("PUT");
  }

  /** A concrete row: the id stops at the next slash. */
  lemma ReadExample()
    ensures RouteOf("GET", "/product/7/x") == Read("7")
  {
    assert Upper("GET") == "GET";
    ItemIdIsFirstSegment("7", "x");
    ItemRoutes("GET", "7/x");
    assert ItemPrefix + "7/x" == ItemPrefix + "7" + "/" + "x" == "/product/7/x";
  }

  /** A concrete row: an empty id still reaches the by-id handler. */
  lemma EmptyIdExample()
    ensures RouteOf("DELETE", "/product/") == Delete("")
  {
    assert Upper("DELETE") == "DELETE";
    ItemIdIsFirstSegment("", "");
    ItemRoutes("DELETE", "");
    assert ItemPrefix + "" == "/product/";
  }

  /** A concrete row: POST on an item path is a 405. */
  lemma MethodNotAllowedExample()
    ensures RouteOf("POST", "/product/1") == MethodNotAllowed
  {
    assert Upper("POST") == "POST";
    ItemRoutes("POST", "1");
    assert ItemPrefix + "1" == "/product/1";
  }

  /** Concrete rows of the routing table: an unknown path. */
  lemma UnknownPathExample()
    ensures RouteOf("GET", "/nonexistent") == NotFound
  {
    assert "/nonexistent"[..|ItemPrefix|] != ItemPrefix by {
      assert "/nonexistent"[1] != ItemPrefix[1];
    }
    OtherPathsNotFound("GET", "/nonexistent");
  }
}
