/** The product records of the catalog and the pure operations that the
    create, update and delete handlers perform on the product list: id
    allocation, the choice of the image reference, the field merge of an
    update, the lookup by id and the filter of a delete. */
module Catalog {

  datatype Option<+T> = None | Some(value: T)

  /** A text field of a multipart request body: None when the field is absent
      (JavaScript `undefined`), Some(s) when it was sent, possibly empty. */
  type Field = Option<string>

  /** JavaScript truthiness of a field: an absent field and "" are falsy. */
  predicate Truthy(f: Field)
    ensures !Truthy(f) <==> f == None || f == Some("")
  {
    f.Some? && f.value != ""
  }

  /** A stored price is `Number(raw)` of the submitted text. The numeric
      conversion (and its NaN) is kept symbolic. */
  datatype Price = NumberOf(raw: Field)

  datatype Product = Product(id: int, name: Field, category: Field, price: Price, tag: Field, img: string)

  /** The text fields of a create or update request. */
  datatype Body = Body(name: Field, category: Field, price: Field, tag: Field, img: Field)

  /** The generated name under which an uploaded image was stored, or None
      when the request carried no file. */
  type Upload = Option<string>

  /** The path under which uploaded images are served. */
  const UploadsPrefix: string := "/uploads/"

  // ---------------------------------------------------------------------
  // Id allocation: `products.length ? Math.max(...products.map(p => p.id)) + 1 : 1`

  /** `products.map(p => p.id)` */
  function Ids(ps: seq<Product>): (ids: seq<int>)
    ensures |ids| == |ps|
    ensures forall i :: 0 <= i < |ps| ==> ids[i] == ps[i].id
  {
    if ps == [] then [] else [ps[0].id] + Ids(ps[1..])
  }

  /** `Math.max(...xs)` of a non-empty list: an element that no element exceeds. */
  function Max(xs: seq<int>): (m: int)
    requires xs != []
    ensures forall i :: 0 <= i < |xs| ==> xs[i] <= m
    ensures exists i :: 0 <= i < |xs| && xs[i] == m
  {
    if |xs| == 1 then xs[0]
    else
      var rest := Max(xs[1..]);
      assert forall i :: 1 <= i < |xs| ==> xs[i] == xs[1..][i - 1];
      if xs[0] >= rest then xs[0] else rest
  }

  /** The id a new record receives: one more than the largest id, or 1 for an
      empty list. It exceeds every id in the list. */
  function NextId(ps: seq<Product>): (id: int)
    ensures forall i :: 0 <= i < |ps| ==> ps[i].id < id
    ensures ps == [] ==> id == 1
    ensures ps != [] ==> exists i :: 0 <= i < |ps| && ps[i].id == id - 1
  {
    if |ps| > 0 then Max(Ids(ps)) + 1 else 1
  }

  // ---------------------------------------------------------------------
  // Create

  /** `req.file ? "/uploads/" + filename : (req.body.img || "")`: an upload
      wins over the body's `img`, which wins only when truthy. */
  function ImageRef(upload: Upload, img: Field): (r: string)
    ensures upload.Some? ==> r == UploadsPrefix + upload.value
    ensures upload.None? && Truthy(img) ==> r == img.value
    ensures upload.None? && !Truthy(img) ==> r == ""
  {
    match upload
    case Some(filename) => UploadsPrefix + filename
    case None => if Truthy(img) then img.value else ""
  }

  /** The record the create handler appends: a fresh id and the request's
      fields as sent, the price converted. */
  function NewProduct(ps: seq<Product>, body: Body, upload: Upload): (p: Product)
    ensures p.id == NextId(ps)
    ensures forall q :: q in ps ==> q.id < p.id
    ensures ps == [] ==> p.id == 1
    ensures p.name == body.name && p.category == body.category && p.tag == body.tag
    ensures p.price == NumberOf(body.price)
    ensures p.img == ImageRef(upload, body.img)
  {
    Product(NextId(ps), body.name, body.category, NumberOf(body.price), body.tag, ImageRef(upload, body.img))
  }

  /** No two records share an id. */
  predicate IdsDistinct(ps: seq<Product>) {
    forall i, j :: 0 <= i < j < |ps| ==> ps[i].id != ps[j].id
  }

  /** Ids grow strictly along the list, as a run of creates leaves them. */
  predicate IdsIncreasing(ps: seq<Product>) {
    forall i, j :: 0 <= i < j < |ps| ==> ps[i].id < ps[j].id
  }

  lemma CreateKeepsDistinct(ps: seq<Product>, body: Body, upload: Upload)
    requires IdsDistinct(ps)
    ensures IdsDistinct(ps + [NewProduct(ps, body, upload)])
  {
  }

  lemma CreateKeepsIncreasing(ps: seq<Product>, body: Body, upload: Upload)
    requires IdsIncreasing(ps)
    ensures IdsIncreasing(ps + [NewProduct(ps, body, upload)])
  {
  }

  /** One create request: its body and its optional upload. */
  datatype CreateRequest = CreateRequest(body: Body, upload: Upload)

  /** The list after the create requests have been handled one after the other. */
  function CreateAll(ps: seq<Product>, reqs: seq<CreateRequest>): seq<Product>
    decreases |reqs|
  {
    if reqs == [] then ps
    else CreateAll(ps + [NewProduct(ps, reqs[0].body, reqs[0].upload)], reqs[1..])
  }

  /** Sequential creates keep the earlier records, add one record per request
      and keep the ids strictly increasing (hence distinct). */
  lemma {:induction false} CreateAllKeepsIncreasing(ps: seq<Product>, reqs: seq<CreateRequest>)
    requires IdsIncreasing(ps)
    ensures |CreateAll(ps, reqs)| == |ps| + |reqs|
    ensures CreateAll(ps, reqs)[..|ps|] == ps
    ensures IdsIncreasing(CreateAll(ps, reqs))
    decreases |reqs|
  {
    if reqs != [] {
      var next := ps + [NewProduct(ps, reqs[0].body, reqs[0].upload)];
      CreateKeepsIncreasing(ps, reqs[0].body, reqs[0].upload);
      CreateAllKeepsIncreasing(next, reqs[1..]);
      assert CreateAll(ps, reqs)[..|ps|] == CreateAll(next, reqs[1..])[..|next|][..|ps|];
    }
  }

  /** Starting from a list numbered 1..n, each create takes the next number:
      from an empty store the k-th create receives id k. */
  lemma {:induction false} CreateAllNumbers(ps: seq<Product>, reqs: seq<CreateRequest>)
    requires forall k :: 0 <= k < |ps| ==> ps[k].id == k + 1
    ensures |CreateAll(ps, reqs)| == |ps| + |reqs|
    ensures forall k :: 0 <= k < |ps| + |reqs| ==> CreateAll(ps, reqs)[k].id == k + 1
    decreases |reqs|
  {
    if reqs != [] {
      var p := NewProduct(ps, reqs[0].body, reqs[0].upload);
      if ps != [] {
        assert ps[|ps| - 1].id == |ps|;
      }
      assert p.id == |ps| + 1;
      CreateAllNumbers(ps + [p], reqs[1..]);
    }
  }

  // ---------------------------------------------------------------------
  // Update

  /** `products.findIndex(p => p.id === id)`: the first index holding the id,
      or -1 when no record has it. */
  function FindIndex(ps: seq<Product>, id: int): (i: int)
    ensures -1 <= i < |ps|
    ensures i == -1 <==> forall k :: 0 <= k < |ps| ==> ps[k].id != id
    ensures 0 <= i ==> ps[i].id == id && forall k :: 0 <= k < i ==> ps[k].id != id
  {
    if ps == [] then -1
    else if ps[0].id == id then 0
    else
      var i := FindIndex(ps[1..], id);
      assert forall k :: 1 <= k < |ps| ==> ps[k] == ps[1..][k - 1];
      if i == -1 then -1 else i + 1
  }

  /** The record after the update handler's assignments: the image when a
      file came with the request, then each text field and the price. */
  function Patch(p: Product, body: Body, upload: Upload): (q: Product)
    ensures q.id == p.id
    ensures q.img == (if upload.Some? then UploadsPrefix + upload.value else p.img)
    ensures Truthy(body.name) ==> q.name == body.name
    ensures !Truthy(body.name) ==> q.name == p.name
    ensures Truthy(body.category) ==> q.category == body.category
    ensures !Truthy(body.category) ==> q.category == p.category
    ensures Truthy(body.price) ==> q.price == NumberOf(body.price)
    ensures !Truthy(body.price) ==> q.price == p.price
    ensures Truthy(body.tag) ==> q.tag == body.tag
    ensures !Truthy(body.tag) ==> q.tag == p.tag
  {
    var withImg := if upload.Some? then p.(img := UploadsPrefix + upload.value) else p;
    var withName := if Truthy(body.name) then withImg.(name := body.name) else withImg;
    var withCategory := if Truthy(body.category) then withName.(category := body.category) else withName;
    var withPrice := if Truthy(body.price) then withCategory.(price := NumberOf(body.price)) else withCategory;
    if Truthy(body.tag) then withPrice.(tag := body.tag) else withPrice
  }

  /** An update with no truthy field and no file leaves the record as it was. */
  lemma PatchWithNothingIsIdentity(p: Product, body: Body)
    requires !Truthy(body.name) && !Truthy(body.category) && !Truthy(body.price) && !Truthy(body.tag)
    ensures Patch(p, body, None) == p
  {
  }

  /** The body's `img` is ignored by an update: only a file sets the image. */
  lemma PatchIgnoresBodyImg(p: Product, body: Body, upload: Upload, img: Field)
    ensures Patch(p, body.(img := img), upload) == Patch(p, body, upload)
  {
  }

  /** Repeating an update changes nothing more. */
  lemma PatchIdempotent(p: Product, body: Body, upload: Upload)
    ensures Patch(Patch(p, body, upload), body, upload) == Patch(p, body, upload)
  {
  }

  /** The list after an update of the record at index i. */
  function UpdateAt(ps: seq<Product>, i: nat, body: Body, upload: Upload): (r: seq<Product>)
    requires i < |ps|
    ensures |r| == |ps| && r[i] == Patch(ps[i], body, upload)
    ensures forall k :: 0 <= k < |ps| && k != i ==> r[k] == ps[k]
  {
    ps[i := Patch(ps[i], body, upload)]
  }

  /** An update keeps the length, every other record, and every id. */
  lemma UpdateAtTouchesOnlyIndex(ps: seq<Product>, i: nat, body: Body, upload: Upload)
    requires i < |ps|
    ensures |UpdateAt(ps, i, body, upload)| == |ps|
    ensures forall k :: 0 <= k < |ps| && k != i ==> UpdateAt(ps, i, body, upload)[k] == ps[k]
    ensures Ids(UpdateAt(ps, i, body, upload)) == Ids(ps)
  {
  }

  lemma UpdateAtKeepsDistinct(ps: seq<Product>, i: nat, body: Body, upload: Upload)
    requires i < |ps| && IdsDistinct(ps)
    ensures IdsDistinct(UpdateAt(ps, i, body, upload))
  {
  }

  // ---------------------------------------------------------------------
  // Delete

  /** `products.filter(p => p.id !== id)`: the records whose id differs,
      in their original order. */
  function Without(ps: seq<Product>, id: int): (r: seq<Product>)
    ensures |r| <= |ps|
    ensures forall k :: 0 <= k < |r| ==> r[k].id != id
  {
    if ps == [] then []
    else if ps[0].id == id then Without(ps[1..], id)
    else [ps[0]] + Without(ps[1..], id)
  }

  /** A record is kept exactly when it was in the list and its id differs. */
  lemma {:induction false} WithoutMembers(ps: seq<Product>, id: int, p: Product)
    ensures p in Without(ps, id) <==> p in ps && p.id != id
  {
    if ps != [] {
      assert ps == [ps[0]] + ps[1..];
      WithoutMembers(ps[1..], id, p);
    }
  }

  /** Filtering a concatenation filters each part: together with the
      single-record cases this fixes the order of what is kept. */
  lemma {:induction false} WithoutAppend(a: seq<Product>, b: seq<Product>, id: int)
    ensures Without(a + b, id) == Without(a, id) + Without(b, id)
  {
    if a == [] {
      assert a + b == b;
    } else {
      assert (a + b)[0] == a[0];
      assert (a + b)[1..] == a[1..] + b;
      WithoutAppend(a[1..], b, id);
    }
  }

  /** Deleting an id no record has leaves the list unchanged. */
  lemma {:induction false} WithoutAbsent(ps: seq<Product>, id: int)
    requires forall k :: 0 <= k < |ps| ==> ps[k].id != id
    ensures Without(ps, id) == ps
  {
    if ps != [] {
      WithoutAbsent(ps[1..], id);
    }
  }

  /** Deleting the same id twice is deleting it once. */
  lemma WithoutIdempotent(ps: seq<Product>, id: int)
    ensures Without(Without(ps, id), id) == Without(ps, id)
  {
    WithoutAbsent(Without(ps, id), id);
  }

  /** A delete keeps the ids distinct. */
  lemma {:induction false} WithoutKeepsDistinct(ps: seq<Product>, id: int)
    requires IdsDistinct(ps)
    ensures IdsDistinct(Without(ps, id))
  {
    if ps != [] {
      WithoutKeepsDistinct(ps[1..], id);
      var rest := Without(ps[1..], id);
      forall k | 0 <= k < |rest| ensures rest[k].id != ps[0].id {
        WithoutMembers(ps[1..], id, rest[k]);
        var j :| 0 <= j < |ps[1..]| && ps[1..][j] == rest[k];
        assert ps[1..][j] == ps[j + 1];
      }
    }
  }

  /** A delete keeps the ids strictly increasing. */
  lemma {:induction false} WithoutKeepsIncreasing(ps: seq<Product>, id: int)
    requires IdsIncreasing(ps)
    ensures IdsIncreasing(Without(ps, id))
  {
    if ps != [] {
      WithoutKeepsIncreasing(ps[1..], id);
      var rest := Without(ps[1..], id);
      forall k | 0 <= k < |rest| ensures ps[0].id < rest[k].id {
        WithoutMembers(ps[1..], id, rest[k]);
        var j :| 0 <= j < |ps[1..]| && ps[1..][j] == rest[k];
        assert ps[1..][j] == ps[j + 1];
      }
    }
  }

  /** Deleting the id of the only record that has it drops that record. */
  lemma WithoutSingleMatch(before: seq<Product>, x: Product, after: seq<Product>)
    requires forall k :: 0 <= k < |before| ==> before[k].id != x.id
    requires forall k :: 0 <= k < |after| ==> after[k].id != x.id
    ensures Without(before + [x] + after, x.id) == before + after
  {
    var id := x.id;
    assert Without([x], id) == [] by {
      assert [x][1..] == [];
    }
    calc {
      Without(before + [x] + after, id);
    == { WithoutAppend(before + [x], after, id); }
      Without(before + [x], id) + Without(after, id);
    == { WithoutAppend(before, [x], id); }
      Without(before, id) + Without([x], id) + Without(after, id);
    == { WithoutAbsent(before, id); WithoutAbsent(after, id); }
      before + [] + after;
    == { assert before + [] == before; }
      before + after;
    }
  }

  /** With distinct ids, no record after index i carries the id of record i. */
  lemma NoLaterDuplicate(ps: seq<Product>, i: nat, after: seq<Product>)
    requires IdsDistinct(ps) && i < |ps| && after == ps[i + 1..]
    ensures forall k :: 0 <= k < |after| ==> after[k].id != ps[i].id
  {
    forall k | 0 <= k < |after| ensures after[k].id != ps[i].id {
      assert after[k] == ps[i + 1 + k];
    }
  }

  /** With distinct ids, deleting a present id removes exactly the record
      found for it and nothing else. */
  lemma DeleteRemovesExactlyOne(ps: seq<Product>, id: int)
    requires IdsDistinct(ps)
    requires FindIndex(ps, id) >= 0
    ensures Without(ps, id) == ps[..FindIndex(ps, id)] + ps[FindIndex(ps, id) + 1..]
    ensures |Without(ps, id)| == |ps| - 1
  {
    var i := FindIndex(ps, id);
    var before, after := ps[..i], ps[i + 1..];
    NoLaterDuplicate(ps, i, after);
    assert ps == before + [ps[i]] + after;
    WithoutSingleMatch(before, ps[i], after);
  }

  /** Deleting the record a create has just appended restores the list. */
  lemma CreateThenDelete(ps: seq<Product>, body: Body, upload: Upload)
    ensures Without(ps + [NewProduct(ps, body, upload)], NextId(ps)) == ps
  {
    WithoutAppend(ps, [NewProduct(ps, body, upload)], NextId(ps));
    WithoutAbsent(ps, NextId(ps));
  }

  /** A create from an empty list with text fields and no file: the record
      gets id 1, the price converted, and an empty image reference. */
  lemma CreateShirtOnEmptyList()
    ensures NewProduct([], Body(Some("Shirt"), Some("Apparel"), Some("19.99"), Some("sale"), None), None)
         == Product(1, Some("Shirt"), Some("Apparel"), NumberOf(Some("19.99")), Some("sale"), "")
  {
  }
}
