/** The backing file of the product list and the three mutating handlers
    (create, update, delete), each one sequential step that reads the whole
    list, changes it and writes the whole list back. */
module Server {
  import opened Catalog

  /** The state of the backing JSON file. */
  datatype StoreFile =
    | Missing                          // the file does not exist yet
    | Unparsable                       // its text is not valid JSON
    | Json(products: seq<Product>)     // it holds this list

  /** What reading the backing file yields: the stored list, or the empty
      list when the file is missing or cannot be parsed. */
  function Contents(f: StoreFile): (ps: seq<Product>)
    ensures f.Json? ==> ps == f.products
    ensures f.Missing? || f.Unparsable? ==> ps == []
  {
    if f.Json? then f.products else []
  }

  /** The outcome of an update request. */
  datatype UpdateReply = Updated(product: Product) | NotFound

  class ProductStore {
    var file: StoreFile

    /** The list every handler starts from. */
    function Products(): seq<Product>
      reads this
    {
      Contents(file)
    }

    constructor (file: StoreFile)
      ensures this.file == file
    {
      this.file := file;
    }

    /** Creates the file holding `[]` when it is missing, then returns its
        list; an unparsable file yields the empty list and stays as it is. */
    method ReadProducts() returns (ps: seq<Product>)
      modifies this
      ensures old(file).Json? ==> ps == old(file).products
      ensures !old(file).Json? ==> ps == []
      ensures file == if old(file).Missing? then Json([]) else old(file)
    {
      if file.Missing? {
        file := Json([]);
      }
      ps := Contents(file);
    }

    /** Overwrites the file with the whole list. */
    method WriteProducts(ps: seq<Product>)
      modifies this
      ensures file == Json(ps)
      ensures Products() == ps
    {
      file := Json(ps);
    }

    /** POST: appends one record with a fresh id and returns it. */
    method Create(body: Body, upload: Upload) returns (p: Product)
      modifies this
      ensures file.Json? && Products() == old(Products()) + [p]
      ensures p.id == NextId(old(Products()))
      ensures forall q :: q in old(Products()) ==> q.id < p.id
      ensures old(Products()) == [] ==> p.id == 1
      ensures p.name == body.name && p.category == body.category && p.tag == body.tag
      ensures p.price == NumberOf(body.price) && p.img == ImageRef(upload, body.img)
      ensures IdsDistinct(old(Products())) ==> IdsDistinct(Products())
      ensures IdsIncreasing(old(Products())) ==> IdsIncreasing(Products())
    {
      var products := ReadProducts();
      p := NewProduct(products, body, upload);
      products := products + [p];
      WriteProducts(products);
      if IdsDistinct(old(Products())) {
        CreateKeepsDistinct(old(Products()), body, upload);
      }
      if IdsIncreasing(old(Products())) {
        CreateKeepsIncreasing(old(Products()), body, upload);
      }
    }

    /** PUT: finds the first record with the id; when there is none, replies
        not-found without writing (a missing file is still created as `[]`).
        Otherwise assigns the uploaded image and the truthy fields to that
        record, writes the list back and returns the record. */
    method Update(id: int, body: Body, upload: Upload) returns (reply: UpdateReply)
      modifies this
      ensures FindIndex(old(Products()), id) == -1 ==>
                reply == NotFound && Products() == old(Products()) &&
                file == (if old(file).Missing? then Json([]) else old(file))
      ensures FindIndex(old(Products()), id) >= 0 ==>
                var i := FindIndex(old(Products()), id);
                file.Json? && Products() == UpdateAt(old(Products()), i, body, upload) &&
                reply == Updated(Products()[i])
      ensures |Products()| == |old(Products())| && Ids(Products()) == Ids(old(Products()))
      ensures IdsDistinct(old(Products())) ==> IdsDistinct(Products())
    {
      var products := ReadProducts();
      var idx := FindIndex(products, id);
      if idx == -1 {
        return NotFound;
      }
      // The source assigns these fields on the record object held at
      // products[idx]; here a new record value is built and stored at idx.
      var p := products[idx];
      if upload.Some? {
        p := p.(img := UploadsPrefix + upload.value);
      }
      if Truthy(body.name) {
        p := p.(name := body.name);
      }
      if Truthy(body.category) {
        p := p.(category := body.category);
      }
      if Truthy(body.price) {
        p := p.(price := NumberOf(body.price));
      }
      if Truthy(body.tag) {
        p := p.(tag := body.tag);
      }
      products := products[idx := p];
      WriteProducts(products);
      reply := Updated(products[idx]);
      UpdateAtTouchesOnlyIndex(old(Products()), idx, body, upload);
      if IdsDistinct(old(Products())) {
        UpdateAtKeepsDistinct(old(Products()), idx, body, upload);
      }
    }

    /** DELETE: keeps every record whose id differs, in order, and writes the
        result back; an absent id leaves the list as it was, though the file
        is still rewritten. */
    method Delete(id: int)
      modifies this
      ensures file.Json? && Products() == Without(old(Products()), id)
      ensures forall p :: p in Products() <==> p in old(Products()) && p.id != id
      ensures FindIndex(old(Products()), id) == -1 ==> Products() == old(Products())
      ensures IdsDistinct(old(Products())) ==> IdsDistinct(Products())
      ensures IdsIncreasing(old(Products())) ==> IdsIncreasing(Products())
    {
      var products := ReadProducts();
      var filtered := Without(products, id);
      WriteProducts(filtered);
      forall p {
        WithoutMembers(products, id, p);
      }
      if FindIndex(products, id) == -1 {
        WithoutAbsent(products, id);
      }
      if IdsDistinct(products) {
        WithoutKeepsDistinct(products, id);
      }
      if IdsIncreasing(products) {
        WithoutKeepsIncreasing(products, id);
      }
    }
  }
}
