/** The product record that DetailsScreen.js builds in handleSaveProduct, and the
    validation that decides whether one can be built from the three inputs. */
module Products {
  import opened Wrappers

  /** `{ imageUri, productName, productAmount }`, in the key order of the object literal. */
  datatype Product = Product(imageUri: string, productName: string, productAmount: string)

  /** JavaScript truthiness of a string: only the empty string is falsy. */
  predicate Truthy(s: string) {
    s != ""
  }

  /** Truthiness of a string that may be null. */
  predicate TruthyOpt(s: Option<string>) {
    s.Some? && Truthy(s.value)
  }

  /** A record in which every field is filled in. */
  predicate Complete(p: Product) {
    Truthy(p.imageUri) && Truthy(p.productName) && Truthy(p.productAmount)
  }

  /** The guard `!imageUri || !productName || !productAmount` followed by the
      object literal: the record built from the inputs, or None when the save
      must return early. */
  function MakeProduct(imageUri: Option<string>, productName: string, productAmount: string): (r: Option<Product>)
    ensures r.None? <==> imageUri == None || imageUri == Some("") || productName == "" || productAmount == ""
    ensures r.Some? ==> Complete(r.value)
    ensures r.Some? ==> (Some(r.value.imageUri) == imageUri
                         && r.value.productName == productName
                         && r.value.productAmount == productAmount)
  {
    if !TruthyOpt(imageUri) || !Truthy(productName) || !Truthy(productAmount) then None
    else Some(Product(imageUri.value, productName, productAmount))
  }
}
