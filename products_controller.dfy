/**
 * `ProductsController`: the single-product actions over the `Products` table,
 * each request one atomic step. The table is a map from primary key to row;
 * `nextId` is the next value of the `Id` identity sequence.
 */
module Controllers {
  import opened Wrappers
  import opened DotNetText
  import opened IntParsing
  import opened Products
  import opened Catalog

  /** Why a request ended in an unhandled exception (HTTP 500). */
  datatype Fault =
    | ConcurrencyConflict  // `DbUpdateConcurrencyException` rethrown by `UpdateProduct`
    | DuplicateKey         // the insert hit an existing primary key
    | IdentityExhausted    // the identity sequence passed the largest `int`

  /** The action results the controller returns. */
  datatype ActionResult =
    | Ok(product: Product)
    | Created(product: Product)
    | NoContent
    | BadRequest
    | NotFound
    | ServerError(fault: Fault)

  /** The identity sequence of the `Id` column starts here. */
  const FirstId: int := 1

  class ProductsController {
    var products: Table
    var nextId: int

    /** Rows sit under their own id, every stored row passed validation, and the sequence is positive. */
    ghost predicate Valid()
      reads this
    {
      && KeyedById(products)
      && (forall k :: k in products ==> IsValid(products[k]))
      && nextId >= FirstId
    }

    /** An empty table with a fresh identity sequence. */
    constructor ()
      ensures Valid()
      ensures products == map[] && nextId == FirstId
    {
      products := map[];
      nextId := FirstId;
    }

    /** `ProductExists`: whether any row has this id. */
    predicate ProductExists(id: int32)
      reads this
      requires Valid()
      ensures ProductExists(id) <==> id in products
    {
      exists k | k in products :: products[k].id == id
    }

    /** `GetProduct(id)`: the stored product with this id, or NotFound. */
    method GetProduct(id: int32) returns (r: ActionResult)
      requires Valid()
      ensures r.Ok? || r.NotFound?
      ensures r.Ok? <==> id in products
      ensures r.Ok? ==> r.product == products[id] && r.product.id == id
    {
      if ProductExists(id) {
        r := Ok(products[id]);
      } else {
        r := NotFound;
      }
    }

    /**
     * `CreateProduct(product)`: a product that fails validation is refused.
     * An `Id` of 0 asks the identity sequence for the id; any other `Id` is
     * inserted as given. An insert onto an existing key fails.
     */
    method CreateProduct(p: Product) returns (r: ActionResult)
      requires Valid()
      modifies this
      ensures Valid()
      ensures !IsValid(p) ==> r == BadRequest
      ensures IsValid(p) && p.id == 0 ==>
                r == if old(nextId) > Int32Max then ServerError(IdentityExhausted)
                     else if old(nextId) in old(products) then ServerError(DuplicateKey)
                     else Created(p.(id := old(nextId)))
      ensures IsValid(p) && p.id != 0 ==>
                r == if p.id in old(products) then ServerError(DuplicateKey) else Created(p)
      ensures r.Created? ==>
                && r.product == p.(id := r.product.id)
                && r.product.id !in old(products)
                && products == old(products)[r.product.id := r.product]
      ensures !r.Created? ==> products == old(products)
      ensures nextId == if IsValid(p) && p.id == 0 && old(nextId) <= Int32Max then old(nextId) + 1 else old(nextId)
    {
      if !IsValid(p) {
        return BadRequest;
      }
      var id: int32;
      if p.id == 0 {
        if nextId > Int32Max {
          return ServerError(IdentityExhausted);
        }
        id := nextId;
        nextId := nextId + 1;
      } else {
        id := p.id;
      }
      if id in products {
        return ServerError(DuplicateKey);
      }
      var stored := p.(id := id);
      products := products[id := stored];
      r := Created(stored);
    }

    /**
     * `UpdateProduct(id, product)`: refused when the product fails validation
     * or its id differs from the route's; otherwise the whole row is
     * overwritten. Saving a row that is gone raises the concurrency
     * exception; the action then answers NotFound if no row has the id, and
     * rethrows otherwise.
     */
    method UpdateProduct(id: int32, p: Product) returns (r: ActionResult)
      requires Valid()
      modifies this
      ensures Valid()
      ensures nextId == old(nextId)
      ensures r.BadRequest? <==> !IsValid(p) || id != p.id
      ensures r.NoContent? <==> IsValid(p) && id == p.id && id in old(products)
      ensures r.NotFound? <==> IsValid(p) && id == p.id && id !in old(products)
      ensures r.NoContent? ==> products == old(products)[id := p]
      ensures !r.NoContent? ==> products == old(products)
    {
      if !IsValid(p) || id != p.id {
        return BadRequest;
      }
      // `UPDATE ... WHERE Id = id` touches one row exactly when the row exists.
      var saved := p.id in products;
      if saved {
        products := products[p.id := p];
        r := NoContent;
      } else if !ProductExists(p.id) {
        r := NotFound;
      } else {
        r := ServerError(ConcurrencyConflict);
      }
    }

    /** `DeleteProduct(id)`: NotFound when no row has the id; otherwise that row alone is removed. */
    method DeleteProduct(id: int32) returns (r: ActionResult)
      requires Valid()
      modifies this
      ensures Valid()
      ensures nextId == old(nextId)
      ensures r.NoContent? || r.NotFound?
      ensures r.NotFound? <==> id !in old(products)
      ensures products == old(products) - {id}
    {
      if id !in products {
        return NotFound;
      }
      products := products - {id};
      r := NoContent;
    }
  }

  /** A created product is found again under the id it was given, unchanged. */
  method CreateThenGet(c: ProductsController, p: Product) returns (created: ActionResult, found: ActionResult)
    requires c.Valid()
    modifies c
    ensures c.Valid()
    ensures created.Created? ==> found == Ok(created.product) && created.product == p.(id := created.product.id)
  {
    created := c.CreateProduct(p);
    found := c.GetProduct(if created.Created? then created.product.id else 0);
  }

  /** The message `GenerateDescription` returns beside the generated text. */
  const GenerationMessage: string := "AI description generated!"

  /** The single user message sent to the chat model for a product name. */
  function DescriptionPrompt(productName: string): string
  {
    "Write a catchy one-paragraph marketing description for a product named " + productName + "."
  }

  /** The prompt carries the product name verbatim, unescaped. */
  lemma PromptEmbedsName(productName: string)
    ensures Contains(DescriptionPrompt(productName), productName)
  {
    var prefix := "Write a catchy one-paragraph marketing description for a product named ";
    var prompt := DescriptionPrompt(productName);
    assert prompt[|prefix|..|prefix| + |productName|] == productName;
    assert OccursAt(prompt, productName, |prefix|);
    ContainsIsSubstring(prompt, productName);
  }

  /** The JSON body of a `GenerateDescription` response. */
  datatype GeneratedDescription = GeneratedDescription(message: string, aiDescription: string)

  /**
   * `GenerateDescription(productName)`. `chat` stands for the chat-completion
   * client: the text parts of its reply to a prompt, or `None` when the call
   * throws. A failed call, or a reply with no part, ends the request with an
   * exception (`None` here); otherwise the first part is returned. Nothing is
   * stored.
   */
  function GenerateDescription(productName: string, chat: string -> Option<seq<string>>): (r: Option<GeneratedDescription>)
    ensures var reply := chat(DescriptionPrompt(productName));
            && (r.Some? <==> reply.Some? && reply.value != [])
            && (r.Some? ==> r.value == GeneratedDescription(GenerationMessage, reply.value[0]))
  {
    match chat(DescriptionPrompt(productName))
    case None => None
    case Some(parts) =>
      if parts == [] then None else Some(GeneratedDescription(GenerationMessage, parts[0]))
  }

  /** The product of the session below. */
  const Widget: Product := Product(1, "Widget", 9990, None)

  lemma WidgetIsValid()
    ensures IsValid(Widget.(id := 0))
  {
    assert !IsWhiteSpace(Widget.name[0]);
  }

  /** "widget" holds no digit, so it is a text search. */
  lemma WidgetTermIsText()
    ensures FilterFor(Some("widget")) == TextContains("widget")
  {
    assert forall i :: 0 <= i < |"widget"| ==> !IsDigit("widget"[i]);
  }

  /** The term "widget" occurs in the lower-cased name "Widget". */
  lemma WidgetNameMatches()
    ensures Matches(Widget, TextContains("widget"))
  {
    assert ToLower("Widget") == "widget" && ToLower("widget") == "widget";
    assert OccursAt("widget", "widget", 0);
  }

  /** In a table holding only the widget, the term "widget" finds it by name. */
  lemma NameSearchFindsWidget()
    ensures GetProducts(map[1 := Widget], Some("widget"), 1, 50) == ProductPage([Widget], 1, 1, 1)
  {
    var t := map[1 := Widget];
    WidgetTermIsText();
    WidgetNameMatches();
    assert MatchingIds(t, FilterFor(Some("widget"))) == {1};
    assert Widget in OrderedMatches(t, FilterFor(Some("widget")));
    assert OrderedMatches(t, FilterFor(Some("widget"))) == [Widget];
  }

  /** In a table holding only the widget, the term "1" finds it by id. */
  lemma IdSearchFindsWidget()
    ensures GetProducts(map[1 := Widget], Some("1"), 1, 50) == ProductPage([Widget], 1, 1, 1)
  {
    TryParseFormat(1);
    assert Format(1) == "1";
    IdSearchSelectsOnlyThatId(map[1 := Widget], "1", 1, 1, 50);
  }

  /**
   * One session on an empty catalog: create "Widget" at 9.990, find it by
   * the term "widget" and by the term "1", delete it, and look it up again.
   */
  method WidgetSession() returns (byName: ProductPage, byId: ProductPage, afterDelete: ActionResult)
    ensures byName == ProductPage([Widget], 1, 1, 1)
    ensures byId == byName
    ensures afterDelete == NotFound
  {
    var c := new ProductsController();
    WidgetIsValid();
    var created := c.CreateProduct(Widget.(id := 0));
    assert c.products == map[1 := Widget];
    var t := c.products;
    NameSearchFindsWidget();
    IdSearchFindsWidget();
    byName := GetProducts(t, Some("widget"), 1, 50);
    byId := GetProducts(t, Some("1"), 1, 50);
    var deleted := c.DeleteProduct(1);
    afterDelete := c.GetProduct(1);
  }
}
