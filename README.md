# Product server: a verified model in Dafny

This project models the core of a small Node.js HTTP server, `server.js`. The
server keeps a collection of product records in one JSON file,
`product.json`. Every handler that gets past its body checks reads the whole
file. A request that changes data then changes the array in memory and
writes the whole array back. A 404 or 405 from the router, a create refused
with 400, and a body that fails to parse read nothing.

The model has two parts:

- **The router** (`Router.RouteOf`). It upper-cases the request method and
  looks at the URL pathname. From these it picks one of these routes:
  - create or list, on exactly `/product`;
  - read, replace, merge or delete by id, below `/product/`, where the id is
    the third `/`-separated segment;
  - 405, for any other method below `/product/`;
  - 404, for everything else.
- **The six handlers** (`Server.ProductFile`). `getAllProducts`,
  `getProductById`, `createProduct`, `updateProduct`, `patchProduct` and
  `deleteProduct` are methods of a class. The class has one field, `doc`,
  which holds the parsed content of the data file.
  - The handlers work on a local copy of the array, as the source does:
    `push`, index assignment, `Object.assign` on the found record, and
    `splice`.
  - The `find`/`findIndex` scan is a loop, `Collection.FindIndex`.
  - Each handler is proved to realise a relation (`CreateOutcome`,
    `PatchOutcome`, …). The relation links the file before, the request, the
    response and the file after.

Modules:

- `Wrappers`: the `Option` type.
- `Text`: the JavaScript string built-ins the server uses.
- `Json`: parsed JSON values. It covers truthiness, `String(v)`,
  `p.id.toString()` and the entries that `Object.assign` copies.
- `Collection`: the first-match scan and its characterisation.
- `Router`: the routing decision.
- `Server`: the file, the handlers and the request callback.
- `Scenarios`: properties that relate one request to the next.

Every lookup compares `p.id.toString()` with the path id. That expression
throws when a record has no `id` or its `id` is null. So a scan has three
outcomes: a first matching index, "none" (404), or a thrown error (500). The
error happens when the scan reaches an id-less record before any match.
`Collection.FirstMatch` specifies these outcomes. `FirstMatchCases` and the
`…Exactly` lemmas characterise it in both directions.

Environment effects are inputs:

- the request body is `Option<Value>`, where None means the stream failed or
  `JSON.parse` threw;
- the file content is `Option<Value>`, where None means the file is missing
  or not JSON;
- whether the handler's read of the file succeeds is the flag `readOk`;
- whether the single write succeeds is the flag `writeOk`.

Every failure that the source catches becomes a 500.

Facts about the code that the model makes explicit:

- **Ids can change.** A PATCH body that has an `id` key replaces the
  record's id (`Json.AssignReplacesId`). A PUT body is stored whatever its id
  is (`Scenarios.UpdateCanRekey`). A PUT body may even be a value that is not
  an object, so the file need not stay an array of objects.
- **Create-then-read is not always a round trip.** Reading a created
  record's key returns that record when no earlier record has the same key
  and no id-less record comes before it (`Scenarios.CreateThenRead`).
  Otherwise the read returns the earlier duplicate, which may or may not
  equal the new record (`Scenarios.CreateDuplicateReadsEarlier`), or a 500.
  A client that follows the `Location` header reads the record's own key
  when that key is made only of ASCII letters, digits, '-', '_' and '~'
  (`Scenarios.LocationReadsKey`). Any other character may break the read-back:
  "/" splits the path, and the URL parser rewrites others. For the id "a/b" the `Location` is
  /product/a/b, which reads id "a" (`Scenarios.SlashKeyLocationReadsPrefix`),
  and for "a?b" the query part is cut off, so it reads "a" too.
- **A saved record can be answered with a 500.** Create writes the file
  before it sets the `Location` header. When the id's string holds a
  character that `setHeader` refuses (a line break, for instance), the
  header call throws and the answer is 500, but the record stays in the file
  (`Scenarios.SavedButRefused`). A numeric id never triggers this
  (`Server.NumericIdLocationSafe`).
- **Listing does not check the array shape.** `GET /product` answers 200 with
  whatever JSON the file holds, even when it is not an array. The by-id
  handlers, and a create whose body passes validation, answer 500 in that
  case.
- **A null body is a 500, not a 400.** A create body of `null` makes
  `newProduct.id` throw. Other bodies that are not objects lack the fields
  and get a 400.
- **Numbers and strings share keys.** The numeric id `7` and the string id
  `"7"` have the same key (`Json.NumericAndStringIdsCollide`).

## Model

| member | source | states |
|---|---|---|
| `Router.PathId` | server.js:45-46 | the id `pathname.split("/")[2]` is the text after "/product/" up to the next "/" or the end; it is a prefix of that text and holds no "/" |
| `Router.CollectionRoutes` | server.js:41-44 | on exactly "/product", POST is create and GET is list; every other method is 404 |
| `Router.ItemRoutes` | server.js:45-58 | below "/product/", GET, PUT, PATCH and DELETE go to the by-id handlers with the path id; any other method is 405 |
| `Router.ItemIdIsFirstSegment` | server.js:46 | "/product/" + r gives id r when r has no "/", and "/product/r/tail" also gives r |
| `Router.OtherPathsNotFound` | server.js:59-62 | a path that is neither "/product" nor below "/product/" is 404 for every method |
| `Router.MethodCaseIgnored` | server.js:39 | the route of a method equals the route of its upper-cased form |
| `Router.CollectionExamples` | server.js:41-44 | "get" on /product lists; PUT on /product is 404 |
| `Router.ReadExample` | server.js:45-48 | GET /product/7/x reads id "7" |
| `Router.EmptyIdExample` | server.js:45-54 | DELETE /product/ deletes id "" |
| `Router.MethodNotAllowedExample` | server.js:55-57 | POST /product/1 is 405 |
| `Router.UnknownPathExample` | server.js:59-62 | GET /nonexistent is 404 |
| `Text.Upper` | server.js:39 | upper-casing keeps the length and maps each character through the ASCII upper-case map |
| `Text.UpperIdempotent` | server.js:39 | upper-casing an upper-cased method changes nothing |
| `Text.Split` | server.js:46 | `split` yields at least one piece, and no piece contains the separator |
| `Text.SplitThenJoin` | server.js:46 | joining the pieces of a split with the separator gives back the string |
| `Text.JoinThenSplit` | server.js:46 | splitting a join of separator-free pieces gives back the pieces |
| `Text.SplitAfter` | server.js:46 | a separator-free prefix followed by the separator splits off as the first piece |
| `Text.SplitFree` | server.js:46 | a separator-free string splits into itself alone |
| `Text.SplitHead` | server.js:46 | the first piece is the longest separator-free prefix; it ends at the first separator or at the end |
| `Text.NatString` | server.js:86 | the decimal rendering of a natural number is a non-empty string of digits |
| `Text.NatStringRoundTrip` | server.js:86 | reading the digits back gives the number |
| `Text.NatStringInjective` | server.js:86 | distinct naturals render differently |
| `Text.IntString` | server.js:86 | an integer renders as a non-empty string that starts with "-" exactly when the integer is negative |
| `Text.IntStringInjective` | server.js:86 | distinct integers render differently |
| `Json.NumericAndStringIdsCollide` | server.js:86 | the records {id: 7} and {id: "7"} both have the key "7" |
| `Json.NumericIdsDistinct` | server.js:86 | two numeric ids give the same key only when they are equal |
| `Json.IndexEntries` | server.js:158 | an array-like source has entry `NatString(j)` = element j for every j, and no other entries |
| `Json.Assign` | server.js:158 | `Object.assign`: the keys are the union; the source's entries win; other target fields are kept |
| `Json.AssignIdempotent` | server.js:158 | assigning the same patch twice equals assigning it once |
| `Json.AssignKeepsId` | server.js:158 | a patch without an `id` entry keeps the record's key |
| `Json.AssignReplacesId` | server.js:158 | a patch with an `id` entry sets the record's key from that entry |
| `Json.AssignArrayLike` | server.js:158 | assigning an array or a string writes its elements or characters under "0", "1", … |
| `Collection.FirstMatch` | server.js:86 | a found index is in range and its record has the sought key |
| `Collection.FoundIsObject` | server.js:86-87 | a found record is an object and hence truthy, so `if (product)` holds exactly when a record is found |
| `Collection.FoundExactly` | server.js:132 | the scan finds index i iff record i has the key and every earlier record has another, usable key |
| `Collection.MissingExactly` | server.js:132 | the scan answers "none" iff every record has a usable key other than the sought one |
| `Collection.RaisedExactly` | server.js:132 | an id-less record reached before any match makes the scan throw |
| `Collection.RaisedAt` | server.js:132 | a scan that throws has reached an id-less record before any match |
| `Collection.FirstMatchCases` | server.js:132 | each of the scan's three outcomes, characterised by the records |
| `Collection.FindIndex` | server.js:132 | the linear `findIndex` loop returns exactly `FirstMatch` |
| `Collection.FirstMatchConcat` | server.js:132 | a scan of a + b is the scan of a, unless that finds nothing; then it is the scan of b shifted by the length of a |
| `Collection.FirstMatchSameKey` | server.js:134 | replacing a record by one with the same key leaves every scan unchanged |
| `Collection.RemoveAt` | server.js:178 | `splice(i, 1)` shortens the array by one, keeps the order of the rest and removes exactly one copy of record i |
| `Collection.RemoveFirstMatch` | server.js:176-178 | after the first match is removed, a scan finds the next record with that key |
| `Collection.RemoveUnique` | server.js:176-178 | with unique, usable keys, the removed key is no longer found |
| `Collection.AppendThenFind` | server.js:114 | a record pushed behind records that all skip its key is found at the end |
| `Collection.AppendKeepsEarlier` | server.js:114 | pushing does not change an earlier match or throw |
| `Server.LocationSafe` | server.js:118 | the "/product/" prefix never makes a `Location` value unacceptable: the value is acceptable iff the id's string is |
| `Server.NumericIdLocationSafe` | server.js:118 | a numeric id always yields an acceptable `Location` |
| `Server.ProductFile.Save` | server.js:12-14 | a save replaces the file with the whole array, or leaves it as it was when the write fails |
| `Server.ProductFile.GetAllProducts` | server.js:71-81 | 200 with the file's JSON; 500 when the read fails or the file is missing or not JSON |
| `Server.ProductFile.GetProductById` | server.js:83-99 | 200 with the first match; 404 when there is none; 500 when the read fails, the file is not an array or the scan throws |
| `Server.ProductFile.CreateProduct` | server.js:101-124 | 500 on a bad or null body; 400 and no change when a required field is falsy; 500 and no change when the read or the write fails; otherwise the body is appended and saved, and the answer is 201 with Location /product/{id}, or 500 when `setHeader` refuses that value |
| `Server.ProductFile.UpdateProduct` | server.js:126-147 | only the first matching index is replaced, by the unchecked body; 404 and no change when nothing matches |
| `Server.ProductFile.PatchProduct` | server.js:149-171 | only the first matching record is merged with the body; 404 and no change when nothing matches |
| `Server.ProductFile.DeleteProduct` | server.js:173-190 | only the first matching record is removed and the answer is 204; 404 and no change when nothing matches |
| `Server.ProductFile.Serve` | server.js:36-62 | each route runs its handler's relation; 405 and 404 change nothing; the status is one of the seven codes; the file changes only with a 200, 201 or 204, or with the 500 of a create refused after its save; a failed read changes nothing and never succeeds |
| `Scenarios.ValidationGate` | server.js:107-111 | a create body lacking a truthy id, name or description is 400 and leaves the file and its count unchanged |
| `Scenarios.CreateThenRead` | server.js:113-118 | after a create, reading the new key returns exactly the submitted record, when no earlier record has that key and none lacks an id; the create answers 201 with Location /product/{key}, or 500 when `setHeader` refuses that value |
| `Scenarios.LocationReadsKey` | server.js:45-48 | a GET on a created record's Location reads the record's own key, when that key is made of ASCII letters, digits, '-', '_' and '~' only |
| `Scenarios.SlashKeyLocationReadsPrefix` | server.js:45-48 | the Location /product/a/b of id "a/b" reads id "a" instead |
| `Scenarios.CreateDuplicateReadsEarlier` | server.js:113-118 | a duplicate id is appended (201, or 500 when `setHeader` refuses the Location), and reading it afterwards still returns the earlier record |
| `Scenarios.SavedButRefused` | server.js:113-122 | creating a record whose id is "a\nb" saves it, yet the answer is 500 |
| `Scenarios.CreatesAccumulate` | server.js:113-115 | after a run of successful creates, the array is the old one followed by the created records, in order |
| `Scenarios.DeleteThenReadNext` | server.js:176-178 | after a delete, reading the same id returns the next record with that key; if none, 404; if an id-less record comes first, 500 |
| `Scenarios.DeleteThenRead` | server.js:176-181 | with unique, usable keys, a delete is 204 and a later read of that id is 404 |
| `Scenarios.PatchThenRead` | server.js:154-159 | after a patch that does not touch `id`, a read returns the merged record: patched keys have the patch's values and the others keep theirs |
| `Scenarios.PatchExample` | server.js:158 | {id:1,name:"A",description:"d",extra:"z"} patched with {name:"B"} becomes {id:1,name:"B",description:"d",extra:"z"} |
| `Scenarios.UpdateThenRead` | server.js:131-135 | after a PUT whose body keeps the key, a read returns that body |
| `Scenarios.UpdateCanRekey` | server.js:131-135 | a PUT whose body has another id still succeeds, and then the old id (if it was unique) is 404 |
| `Scenarios.NotFoundSymmetry` | server.js:83-190 | for an id no record has (all records keyed), GET, PUT, PATCH and DELETE all answer 404 and write nothing |
| `Scenarios.UnkeyedRecordRaises` | server.js:84-97 | a record without a usable id that is scanned before any match turns the lookup into a 500 |
| `Scenarios.CreateKeepsKeyed` | server.js:107-115 | a successful create keeps every record keyed |
| `Scenarios.DeleteKeepsKeyed` | server.js:176-179 | a successful delete keeps every record keyed |
| `Scenarios.UpdateKeepsKeyedIff` | server.js:129-134 | after a successful PUT, every record is keyed iff the body has a usable id |
| `Scenarios.PatchKeepsKeyedIff` | server.js:155-159 | after a successful PATCH, every record is keyed iff the patch does not set `id` to null |

## Left out

- The HTTP listener is not modelled: `http.createServer`, `listen`, the port constant and the console message. This is network and process plumbing.
- URL parsing (`new URL(req.url, …)`) is not modelled. The request callback receives the pathname as a string.
- Scenarios.LocationReadsKey: the lemma takes the pathname a client sends to be the `Location` value as it is. That holds for keys made of ASCII letters, digits, '-', '_' and '~', which is what its requires demands. For other keys the URL parser may cut the path at '?' or '#', turn a backslash into '/', drop or percent-encode characters, or resolve dot segments; those read-backs are not modelled.
- `getRequestBody` is not modelled; it streams the body asynchronously. The body arrives parsed, or as None when the stream fails or `JSON.parse` throws.
- File reads and writes are not modelled, and neither are `JSON.parse` and `JSON.stringify` of the file. The file is its parsed content, and writing an array and reading it back gives the same array.
- Server.ProductFile.Save: a failed write is modelled as leaving the file as it was. A write that fails partway and leaves a truncated file is not captured.
- Concurrent requests are not modelled. Each request runs as one atomic step, so the lost-update race between overlapping read-modify-write requests is not modelled.
- JSON numbers are integers here. Fractions, exponents and their `Number.prototype.toString` forms are left out.
- Json.ToStr: integers are exact and unbounded. `JSON.parse` rounds integers beyond 2^53 to the nearest double, and `toString` writes integers of 1e21 and above in exponent form ("1e+21"); neither is modelled.
- `toUpperCase` maps only the ASCII letters. Node accepts only ASCII method tokens, so other characters do not reach the router.
- Json.ToStr: an object that has its own `toString` key is not modelled. JavaScript would call that value, which throws when it is not a function.
- Json.Assign: an own `__proto__` key in a patch is treated as an ordinary field. `Object.assign` would set the record's prototype instead.
- Records are maps, so the key order of a record and the order `JSON.stringify` writes it in are not modelled.
- Strings are sequences of Unicode scalar values, not UTF-16 code units. Two things follow. A string patch is spread into one entry per scalar value, not one per code unit. A JSON string holding a lone surrogate such as "\ud800" is a valid JavaScript id or field value, but it has no counterpart here.
- Response headers other than `Location` are not modelled, and neither are the exact plain-text bodies. A response is its status, its `Location` and its JSON body.
