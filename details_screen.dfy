/** The state of the DetailsScreen component and the handlers that change it.
    Each handler is one atomic step: React's batching of state updates and the
    asynchronous completion of storage writes are collapsed into ordinary
    sequencing, with the list that handleSaveProduct writes taken from before
    its append, as the closure in the source captures it. */
module DetailsScreen {
  import opened Wrappers
  import opened Products
  import Splice
  import Json
  import Picker
  import LocalStorage

  /** The storage keys the screen writes. */
  const ProductsKey := "products"
  const ImageUriKey := "imageUri"

  /** How handleSaveProduct ended: the early return on a missing field, the
      storage write succeeding, or the write throwing into the catch block. */
  datatype SaveOutcome = MissingField | Saved | WriteFailed

  /** How the picker callback in handleChooseImage ended: a branch that leaves
      the state alone, or a chosen uri and whether storing it succeeded. */
  datatype ChooseOutcome = Ignored(result: Picker.PickResult) | Chosen(uri: string, persisted: bool)

  class Screen {
    var productName: string
    var productAmount: string
    /** null until an image is chosen, and again after a save. */
    var imageUri: Option<string>
    var products: seq<Product>
    var modalVisible: bool
    const storage: LocalStorage.Storage

    /** What every reachable state satisfies: a chosen image uri is never
        empty, and every listed product has all three fields filled in. */
    ghost predicate Valid()
      reads this
    {
      && (imageUri.Some? ==> Truthy(imageUri.value))
      && forall i :: 0 <= i < |products| ==> Complete(products[i])
    }

    /** The `useState` initial values; storage keeps whatever the device holds. */
    constructor (storage: LocalStorage.Storage)
      ensures Valid()
      ensures productName == "" && productAmount == "" && imageUri == None
      ensures products == [] && !modalVisible
      ensures this.storage == storage
      ensures storage.entries == old(storage.entries)
    {
      productName := "";
      productAmount := "";
      imageUri := None;
      products := [];
      modalVisible := false;
      this.storage := storage;
    }

    /** `onChangeText={setProductName}` of the name input. */
    method SetProductName(text: string)
      requires Valid()
      modifies this
      ensures Valid()
      ensures productName == text
      ensures productAmount == old(productAmount) && imageUri == old(imageUri)
      ensures products == old(products) && modalVisible == old(modalVisible)
      ensures storage.entries == old(storage.entries)
    {
      productName := text;
    }

    /** `onChangeText={setProductAmount}` of the amount input. */
    method SetProductAmount(text: string)
      requires Valid()
      modifies this
      ensures Valid()
      ensures productAmount == text
      ensures productName == old(productName) && imageUri == old(imageUri)
      ensures products == old(products) && modalVisible == old(modalVisible)
      ensures storage.entries == old(storage.entries)
    {
      productAmount := text;
    }

    /** The "+" button (`setModalVisible(true)`) and the "Close" button
        (`setModalVisible(false)`). */
    method SetModalVisible(visible: bool)
      requires Valid()
      modifies this
      ensures Valid()
      ensures modalVisible == visible
      ensures productName == old(productName) && productAmount == old(productAmount)
      ensures imageUri == old(imageUri) && products == old(products)
      ensures storage.entries == old(storage.entries)
    {
      modalVisible := visible;
    }

    /** The picker callback of handleChooseImage: a cancelled or failed pick,
        or one without a usable first asset, changes nothing; otherwise the
        uri becomes `imageUri` and is written under "imageUri", and a failed
        write is only logged. */
    method ChooseImage(response: Picker.PickerResponse) returns (outcome: ChooseOutcome)
      requires Valid()
      modifies this, storage
      ensures Valid()
      ensures productName == old(productName) && productAmount == old(productAmount)
      ensures products == old(products) && modalVisible == old(modalVisible)
      ensures !Picker.Classify(response).Image? ==>
        && outcome == Ignored(Picker.Classify(response))
        && imageUri == old(imageUri)
        && storage.entries == old(storage.entries)
      ensures Picker.Classify(response).Image? ==>
        && outcome.Chosen?
        && outcome.uri == Picker.Classify(response).uri
        && imageUri == Some(outcome.uri)
        && storage.entries == if outcome.persisted
                              then old(storage.entries)[ImageUriKey := outcome.uri]
                              else old(storage.entries)
    {
      var result := Picker.Classify(response);
      if result.Image? {
        imageUri := Some(result.uri);
        var ok := storage.SetItem(ImageUriKey, result.uri);
        outcome := Chosen(result.uri, ok);
      } else {
        outcome := Ignored(result);
      }
    }

    /** handleSaveProduct. With a field missing it returns before touching
        anything. Otherwise it appends the record, clears the inputs and then
        writes the list it captured before the append under "products"; only
        when that write succeeds is the modal closed. */
    method SaveProduct() returns (outcome: SaveOutcome)
      requires Valid()
      modifies this, storage
      ensures Valid()
      ensures outcome == MissingField <==> MakeProduct(old(imageUri), old(productName), old(productAmount)).None?
      ensures outcome == MissingField ==>
        && productName == old(productName) && productAmount == old(productAmount)
        && imageUri == old(imageUri) && products == old(products)
        && modalVisible == old(modalVisible) && storage.entries == old(storage.entries)
      ensures outcome != MissingField ==>
        && products == old(products) + [Product(old(imageUri).value, old(productName), old(productAmount))]
        && productName == "" && productAmount == "" && imageUri == None
      ensures outcome == Saved ==>
        && storage.entries == old(storage.entries)[ProductsKey := Json.Serialize(old(products))]
        && !modalVisible
      ensures outcome == WriteFailed ==>
        storage.entries == old(storage.entries) && modalVisible == old(modalVisible)
      // The stored list lags one step behind: it reads back as every product
      // except the one just added, and is not the text of the current list.
      ensures outcome == Saved ==>
        && Json.Deserialize(storage.entries[ProductsKey]) == Some(products[..|products| - 1])
        && storage.entries[ProductsKey] != Json.Serialize(products)
    {
      hide Json.Serialize, Json.Deserialize;
      var candidate := MakeProduct(imageUri, productName, productAmount);
      if candidate.None? {
        return MissingField;
      }
      var captured := products;
      products := products + [candidate.value];
      productName := "";
      productAmount := "";
      imageUri := None;
      var text := Json.Serialize(captured);
      var ok := storage.SetItem(ProductsKey, text);
      if ok {
        modalVisible := false;
        outcome := Saved;
        Json.SerializeRoundTrip(captured);
        assert products[..|products| - 1] == captured;
        Json.SerializeInjective(captured, products);
      } else {
        outcome := WriteFailed;
      }
    }

    /** handleDeleteProduct: the list is copied and `splice(index, 1)` removes
        one entry; nothing else changes and nothing is written to storage. */
    method DeleteProduct(index: int)
      requires Valid()
      modifies this
      ensures Valid()
      ensures products == Splice.Spliced(old(products), index)
      ensures productName == old(productName) && productAmount == old(productAmount)
      ensures imageUri == old(imageUri) && modalVisible == old(modalVisible)
      ensures storage.entries == old(storage.entries)
    {
      var updated := products;
      updated := Splice.Spliced(updated, index);
      products := updated;
    }

  }
}
