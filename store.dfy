/** The in-memory inventory, `stockData.products`, and the three handlers
    that change it: the stock buttons, the product form and the CSV import. */
module Store {
  import opened Wrappers
  import opened Products
  import opened Csv

  /** How an import ends: the inventory replaced by the products read, the
      replacement declined at the confirmation prompt (which shows how many
      products were read), or the file rejected with the format error. */
  datatype ImportOutcome = Replaced(count: nat) | Declined(count: nat) | Rejected(error: DecodeError)

  class ProductStore {
    /** The products, in insertion order. */
    var products: seq<Product>

    /** The store of a first visit, before anything is saved. */
    constructor()
      ensures products == []
    {
      products := [];
    }

    /** `updateStock(id, amount)`: the first product with that id gets
        quantity max(0, quantity + amount); with no such product nothing
        changes. */
    method UpdateStock(id: string, amount: int)
      modifies this
      ensures products == AdjustQuantity(old(products), id, amount)
    {
      match IndexOf(products, id)
      case Some(i) =>
        var product := products[i];
        products := products[i := product.(quantity := Max(0, product.quantity + amount))];
      case None =>
    }

    /** `handleFormSubmit`: with an empty id field the draft becomes a new
        product with the minted id, appended at the end; otherwise the draft's
        fields overwrite the first product with that id, in place, and an id
        that no product has changes nothing. */
    method SubmitForm(formId: string, draft: Draft, freshId: string)
      modifies this
      ensures formId == "" ==> products == old(products) + [NewProduct(draft, freshId)]
      ensures formId != "" ==> products == EditRecord(old(products), formId, draft)
    {
      if formId != "" {
        match IndexOf(products, formId)
        case Some(i) =>
          products := products[i := Overwrite(products[i], draft)];
        case None =>
      }
      else {
        products := products + [NewProduct(draft, freshId)];
      }
    }

    /** The file-reader callback of `handleImportFile`: the text is parsed
        first; a format error leaves the inventory alone, and so does a
        declined confirmation; only a confirmed successful parse replaces the
        whole inventory with the products read. */
    method ImportFile(text: string, confirmed: bool, mint: nat -> string) returns (outcome: ImportOutcome)
      modifies this
      ensures outcome.Rejected? <==> Decode(text, mint).Failure?
      ensures outcome.Rejected? ==> outcome.error == Decode(text, mint).error
      ensures Decode(text, mint).Success? ==>
        outcome == (if confirmed then Replaced(|Decode(text, mint).value|)
                    else Declined(|Decode(text, mint).value|))
      ensures products == (if outcome.Replaced? then Decode(text, mint).value else old(products))
    {
      var parsed := Decode(text, mint);
      match parsed
      case Failure(e) =>
        outcome := Rejected(e);
      case Success(read) =>
        if confirmed {
          products := read;
          outcome := Replaced(|read|);
        } else {
          outcome := Declined(|read|);
        }
    }
  }
}
