# fcstore-backend product table

A model of the product catalog backend of `server.js`: a list of product
records `{id, name, category, price, tag, img}` kept in one JSON file, and the
three request handlers that change it.

- **Create** (`POST /api/products`) reads the list, gives the new record the
  id `max(ids) + 1` (or `1` for an empty list), takes its image reference from
  the uploaded file, else from a truthy body `img`, else `""`, appends it and
  writes the list back.
- **Update** (`PUT /api/products/:id`) finds the first record with the id;
  when there is none it replies not-found and does not write the list back
  (reading a missing file still creates it holding `[]`). Otherwise it sets
  the image when a file came with the request and overwrites each of `name`,
  `category`, `price`, `tag` whose input is truthy, then writes the list back.
- **Delete** (`DELETE /api/products/:id`) keeps every record whose id differs
  and always writes the result back, so an unparsable file becomes `[]`.
- **Reading the store** creates a missing file holding `[]` and treats a file
  whose text is not valid JSON as the empty list.

`catalog.dfy` (module `Catalog`) holds the records and the pure list
operations the handlers use: id allocation (`Ids`, `Max`, `NextId`), the image
choice (`ImageRef`), the new record (`NewProduct`), the lookup
(`FindIndex`, JavaScript's `findIndex`), the field merge (`Patch`), and the
filter (`Without`), with lemmas about them. `server.dfy` (module `Server`)
holds the class `ProductStore`, whose one field is the backing file, with one
method per handler: read the whole list, change it, write it back.

A body field is `Option<string>`: `None` is an absent field (`undefined`), and
a field is truthy when it is present and not `""`. Create stores absent and
empty fields as they came, so the model keeps the two apart. An uploaded file
is `Option<string>`, holding the generated filename. A price is kept symbolic
as `NumberOf(raw)`, the result of `Number` applied to the submitted text.

## Model

| member | source | states |
|---|---|---|
| `Catalog.Ids` | server.js:44 | `products.map(p => p.id)`: same length, the i-th id is the i-th record's id |
| `Catalog.Max` | server.js:44 | `Math.max` of a non-empty list is an element of it that no element exceeds |
| `Catalog.NextId` | server.js:44 | the new id exceeds every id in the list, is 1 for an empty list, and is otherwise one more than an existing id |
| `Catalog.ImageRef` | server.js:45 | `/uploads/<filename>` when a file is present, else the body `img` when truthy, else `""` |
| `Catalog.Truthy` | server.js:45 | a body field is falsy exactly when it is absent (`undefined`) or `""` |
| `Catalog.NewProduct` | server.js:43-46 | the created record's id is `NextId`, i.e. max+1, so fresh (1 on an empty list), the body's name, category and tag as sent, the converted price and the chosen image |
| `Catalog.CreateKeepsDistinct` | server.js:44-47 | appending the created record keeps ids distinct |
| `Catalog.CreateKeepsIncreasing` | server.js:44-47 | appending the created record keeps ids strictly increasing |
| `Catalog.CreateAllKeepsIncreasing` | server.js:42-48 | a run of sequential creates keeps the earlier records in place, adds one record per request, and keeps ids strictly increasing (hence unique) |
| `Catalog.CreateAllNumbers` | server.js:44 | on a list numbered 1..n, the k-th of a run of creates gets id n+k; from an empty store the ids are 1, 2, 3, ... |
| `Catalog.CreateShirtOnEmptyList` | server.js:43-46 | a create of Shirt/Apparel/19.99/sale with no file on an empty list yields id 1 and image `""` |
| `Catalog.FindIndex` | server.js:57 | `findIndex`: -1 exactly when no record has the id; otherwise an index whose record has the id and before which none has it |
| `Catalog.Patch` | server.js:59-64 | the id never changes; the image changes exactly when a file is present; each of name, category, price, tag takes its input when that input is truthy and keeps its value otherwise |
| `Catalog.PatchWithNothingIsIdentity` | server.js:59-64 | an update with no truthy field and no file leaves the record unchanged |
| `Catalog.PatchIgnoresBodyImg` | server.js:59-64 | an update never takes the image from the body's `img` |
| `Catalog.PatchIdempotent` | server.js:59-64 | repeating the same update changes nothing more |
| `Catalog.UpdateAt` | server.js:60-64 | the list after an update at index i: same length, the record at i replaced by its patched version, every other record unchanged |
| `Catalog.UpdateAtTouchesOnlyIndex` | server.js:57-64 | updating one record keeps the list length, every other record, and all ids |
| `Catalog.UpdateAtKeepsDistinct` | server.js:57-64 | an update keeps ids distinct |
| `Catalog.Without` | server.js:74 | `filter(p => p.id !== id)`: no kept record carries the id and the list does not grow |
| `Catalog.WithoutMembers` | server.js:74 | a record is kept exactly when it was in the list and its id differs |
| `Catalog.WithoutAppend` | server.js:74 | the filter of a concatenation is the concatenation of the filters, so relative order is kept |
| `Catalog.WithoutAbsent` | server.js:74 | deleting an id no record has leaves the list unchanged |
| `Catalog.WithoutIdempotent` | server.js:74 | deleting an id twice is deleting it once |
| `Catalog.WithoutKeepsDistinct` | server.js:74 | a delete keeps ids distinct |
| `Catalog.WithoutKeepsIncreasing` | server.js:74 | a delete keeps ids strictly increasing |
| `Catalog.WithoutSingleMatch` | server.js:74 | deleting the id of the only record carrying it drops just that record |
| `Catalog.DeleteRemovesExactlyOne` | server.js:74 | with distinct ids, deleting a present id removes exactly the record `findIndex` finds and shortens the list by one |
| `Catalog.CreateThenDelete` | server.js:42-75 | deleting the id a create has just allocated restores the list as it was before the create |
| `Server.Contents` | server.js:31-32 | the list a read yields: the stored list for a parsed file, `[]` for a missing or unparsable one |
| `Server.ProductStore.ReadProducts` | server.js:30-33 | a missing file is created holding `[]` and yields `[]`; an unparsable file yields `[]` and is left as it is; a parsed file yields its list |
| `Server.ProductStore.WriteProducts` | server.js:34 | the file afterwards holds exactly the given list |
| `Server.ProductStore.Create` | server.js:40-51 | the stored list becomes the old list plus the returned record at the end; the record's id is `NextId` of the old list (max+1, 1 on an empty list) and its fields are the request's; distinct and increasing ids stay so |
| `Server.ProductStore.Update` | server.js:53-68 | an absent id replies not-found and leaves the list unchanged; otherwise only the first matching record is replaced by its patched version, which is returned; the length and all ids are kept |
| `Server.ProductStore.Delete` | server.js:70-78 | the file is rewritten with the filtered old list: no record with the id remains, all others stay in order, an absent id leaves the list unchanged (an unparsable file still becomes `[]`), and distinct or increasing ids stay so |

## Left out

- HTTP routing, CORS, JSON body parsing, status codes and response bodies (server.js:7-13, 36-38, 49-50, 66-67, 76-77): handlers return the created record, an `UpdateReply`, or nothing.
- The generic 500 reply on an exception during file I/O or serialisation: the model's file operations do not fail.
- multer's disk storage and filename generation from the clock and a random number (server.js:19-27): an upload is just "a file is present, with this filename".
- The `GET /api/products` listing (server.js:36-38) and the orders endpoint (server.js:81-85): they do not change the list.
- Body fields are modelled as the strings of a multipart form, or absent. A JSON body (parsed for every route) can carry numbers, booleans or `null`; their truthiness (`0`, `false` and `null` are falsy, so an update skips them and a create stores them as they are) is not modelled. A multipart `"0"` is a non-empty string, hence truthy, so an update does overwrite the price with it, even though a JSON `0` would not overwrite it.
- `Number(price)` and NaN: a price is the symbolic `NumberOf(raw)`. The JSON round trip that turns NaN into `null` is not modelled; the backing file holds the list exactly as written.
- `Number(req.params.id)`: the path id is an `int`. A non-numeric or fractional path id matches no record, which behaves like an integer id that no record has.
- A store holding valid JSON that is not a list of records with numeric ids (such as `{}`, `null` or `[1,2]`): depending on the value and the handler, the source throws (replies 500 without writing), allocates `NaN` ids, or treats every id as absent; the model's file is either unparsable or a list of records with integer ids.
- NextId: assumes ids below `Number.MAX_SAFE_INTEGER` (2^53 - 1). Ids here are unbounded integers, but the source's are JavaScript doubles, and at 2^53 the `+ 1` of the allocation rounds back so create would duplicate an id. It also does not model the `RangeError` that spreading a very long id list into `Math.max` raises once the engine's argument limit is passed (on the order of 10^5 records): the source then replies 500 and writes nothing, while the model always allocates and appends.
- CreateKeepsDistinct: assumes ids below `Number.MAX_SAFE_INTEGER`, as NextId does.
- CreateKeepsIncreasing: assumes ids below `Number.MAX_SAFE_INTEGER`, as NextId does.
- CreateAllKeepsIncreasing: assumes ids below `Number.MAX_SAFE_INTEGER`, as NextId does.
- CreateAllNumbers: assumes ids below `Number.MAX_SAFE_INTEGER`, as NextId does.
- CreateThenDelete: assumes ids below `Number.MAX_SAFE_INTEGER`, as NextId does.
- Concurrent requests and the lost-update and duplicate-id races: each handler is one atomic sequential step.
- Object identity: the update handler mutates the record object held in the array; the model builds the new record and stores it at the same index, which is the same observable list since every request reads a fresh copy of the file.
- Server startup, the port and the upload directory creation (server.js:8, 15-17, 87).
