/** `ProductService`: the product table behind `ProductRepository`, with
    look-ups by id and creation under a unique-name rule. */
module ProductServices {
  import opened Common
  import opened ProductRequests

  type ProductId = int

  /** The `Product` entity: the request's fields, copied by the mapper, and the
      identity the repository assigns on save. */
  datatype Product = Product(
    id: ProductId,
    name: string,
    description: string,
    price: real,
    stock: Int32,
    category: Category)

  /** Why a product operation fails: `ResourceNotFoundException` and
      `ResourceAlreadyExistsException`. */
  datatype ProductError = NotFound(id: ProductId) | AlreadyExists(name: string)

  /** `productMapper.toEntity` of a request that passed validation, saved under `id`. */
  function ToEntity(req: ProductRequest, id: ProductId): (p: Product)
    requires IsValid(req)
    ensures p.id == id && Some(p.name) == req.name && Some(p.description) == req.description
    ensures Some(p.price) == req.price && Some(p.stock) == req.stock && Some(p.category) == req.category
    ensures p.price >= PRICE_MIN && p.stock >= 0
  {
    Product(id, req.name.value, req.description.value, req.price.value, req.stock.value, req.category.value)
  }

  /** The table is keyed by the id. */
  ghost predicate KeysDistinct(s: seq<Product>)
  {
    forall i, j :: 0 <= i < |s| && 0 <= j < |s| && s[i].id == s[j].id ==> i == j
  }

  /** No two stored products share a name. */
  ghost predicate NamesDistinct(s: seq<Product>)
  {
    forall i, j :: 0 <= i < |s| && 0 <= j < |s| && s[i].name == s[j].name ==> i == j
  }

  /** `existsByName(name)`: some stored product has exactly this name. */
  function HasName(s: seq<Product>, name: string): (b: bool)
    ensures b <==> exists i :: 0 <= i < |s| && s[i].name == name
  {
    if s == [] then false
    else s[0].name == name || HasName(s[1..], name)
  }

  /** `findById(id)`: the position of the product with that id. */
  function IndexOfProduct(s: seq<Product>, id: ProductId): (r: Option<nat>)
    ensures r.Some? ==> r.value < |s| && s[r.value].id == id
    ensures r.None? <==> forall j :: 0 <= j < |s| ==> s[j].id != id
  {
    if s == [] then None
    else if s[0].id == id then Some(0)
    else
      match IndexOfProduct(s[1..], id)
      case None => None
      case Some(k) => Some(k + 1)
  }

  /** Adding a product whose name is not yet stored keeps the names distinct. */
  lemma AppendKeepsNamesDistinct(s: seq<Product>, p: Product)
    requires NamesDistinct(s) && !HasName(s, p.name)
    ensures NamesDistinct(s + [p])
  {
  }

  /** In a keyed table the look-up finds each product at its own position, and a
      product added under a fresh id is found at the end. */
  lemma AppendedIsFound(s: seq<Product>, p: Product)
    requires KeysDistinct(s) && forall i :: 0 <= i < |s| ==> s[i].id != p.id
    ensures KeysDistinct(s + [p])
    ensures IndexOfProduct(s + [p], p.id) == Some(|s|)
    ensures forall i :: 0 <= i < |s| ==> IndexOfProduct(s + [p], s[i].id) == Some(i)
  {
    var t := s + [p];
    assert KeysDistinct(t);
    forall i | 0 <= i <= |s| ensures IndexOfProduct(t, t[i].id) == Some(i) {
      KeyIsFound(t, i);
    }
  }

  lemma {:induction false} KeyIsFound(s: seq<Product>, i: nat)
    requires KeysDistinct(s) && i < |s|
    ensures IndexOfProduct(s, s[i].id) == Some(i)
    decreases |s|
  {
    if i > 0 {
      assert KeysDistinct(s[1..]);
      assert s[1..][i - 1] == s[i];
      KeyIsFound(s[1..], i - 1);
    }
  }

  class ProductService {
    var products: seq<Product>
    var nextId: ProductId

    /** The table is keyed by identities the repository has already handed out. */
    ghost predicate Valid()
      reads this
    {
      KeysDistinct(products) && forall i :: 0 <= i < |products| ==> products[i].id < nextId
    }

    constructor()
      ensures Valid() && products == [] && nextId == 1 && NamesDistinct(products)
    {
      products := [];
      nextId := 1;
    }

    /** `getAllProducts()`: one result per stored product, in table order, each
        of them what a look-up by its id returns. */
    function GetAllProducts(): (r: seq<Product>)
      reads this
      ensures |r| == |products| && forall i :: 0 <= i < |r| ==> r[i] == products[i]
      ensures Valid() ==> forall i :: 0 <= i < |r| ==> GetProductById(r[i].id) == Ok(r[i])
    {
      assert Valid() ==> forall i :: 0 <= i < |products| ==> IndexOfProduct(products, products[i].id) == Some(i) by {
        if Valid() {
          forall i | 0 <= i < |products| ensures IndexOfProduct(products, products[i].id) == Some(i) {
            KeyIsFound(products, i);
          }
        }
      }
      products
    }

    /** `getProductById(id)`: the stored product with that id, or a
        ResourceNotFoundException naming the id when there is none. */
    function GetProductById(id: ProductId): (r: Result<Product, ProductError>)
      reads this
      ensures r.Err? <==> forall i :: 0 <= i < |products| ==> products[i].id != id
      ensures r.Err? ==> r.error == NotFound(id)
      ensures r.Ok? ==> r.value in products && r.value.id == id
    {
      match IndexOfProduct(products, id)
      case None => Err(NotFound(id))
      case Some(k) => Ok(products[k])
    }

    /** `createProduct(request)` on a request that passed validation: a name
        already stored is a ResourceAlreadyExistsException and the table is
        unchanged; otherwise exactly one product is added, under a fresh id,
        with the requested fields, the stored products stay as they were, a
        look-up by the new id finds it, and the names stay distinct. */
    method CreateProduct(req: ProductRequest) returns (r: Result<Product, ProductError>)
      requires Valid() && IsValid(req)
      modifies this
      ensures Valid()
      ensures if HasName(old(products), req.name.value) then
          r == Err(AlreadyExists(req.name.value)) && products == old(products) && nextId == old(nextId)
        else
          && r == Ok(ToEntity(req, old(nextId)))
          && products == old(products) + [r.value]
          && nextId == old(nextId) + 1
          && (forall i :: 0 <= i < |old(products)| ==> old(products)[i].id != r.value.id)
          && GetProductById(r.value.id) == Ok(r.value)
      ensures NamesDistinct(old(products)) ==> NamesDistinct(products)
    {
      var name := req.name.value;
      if HasName(products, name) {
        return Err(AlreadyExists(name));
      }
      var product := ToEntity(req, nextId);
      AppendedIsFound(products, product);
      if NamesDistinct(products) {
        AppendKeepsNamesDistinct(products, product);
      }
      products := products + [product];
      nextId := nextId + 1;
      r := Ok(product);
    }
  }
}
