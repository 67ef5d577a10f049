# DetailsScreen product list: a Dafny model

This project models the product list kept by the `DetailsScreen` component of a
small React Native inventory app (DetailsScreen.js). The screen holds three input
fields (`productName`, `productAmount`, and `imageUri`, which may be null), the
ordered list `products`, and the `modalVisible` flag. It writes to the device's
key-value store (AsyncStorage). Three handlers change this state:

- **handleSaveProduct** returns early when a field is missing. Otherwise it appends
  `{imageUri, productName, productAmount}`, clears the inputs, writes
  `JSON.stringify(products)` under `"products"` and closes the modal.
- **handleDeleteProduct** removes one entry from a copy of the list with `splice(index, 1)`.
- **handleChooseImage** reads the image picker's response. Depending on that response,
  it sets `imageUri` and writes it under `"imageUri"`.

The model keeps two quirks of the code exactly as written:

1. **The stored list is one step behind.** The save writes the `products` value its
   closure captured, which is the list from before the append. `SaveProduct`
   proves that the text stored after a successful save reads back as every product
   except the one just added. It also proves that this text is not the
   serialisation of the current list.
2. **Deletion never persists anything.** `DeleteProduct` changes only `products`.

Layout:

- `wrappers.dfy` (`Wrappers`): `Option`, for null or undefined values and for parsers.
- `products.dfy` (`Products`): the product record, JavaScript truthiness, and the
  save's field check.
- `splice.dfy` (`Splice`): `Array.prototype.splice(index, 1)`. The start position
  is normalised as ECMAScript defines it, so a negative index counts from the end
  and an index past the end removes nothing.
- `picker.dfy` (`Picker`): the picker response and the branch decision of the
  picker callback.
- `json.dfy` (`Json`): `JSON.stringify` of the product array. It follows the
  ECMAScript definitions of SerializeJSONArray, SerializeJSONObject and
  QuoteJSONString: the short escapes, `\u00xx` for the other control
  characters, keys in insertion order and no white space. `Deserialize` inverts the
  writer on its own output. It is not in the program and exists only to prove
  that `Serialize` loses nothing: the stored value determines the list.
- `local_storage.dfy` (`LocalStorage`): the key-value store as a class over a
  `map<string, string>`. `SetItem` either succeeds or leaves the map unchanged.
  Which one happens is not determined.
- `details_screen.dfy` (`DetailsScreen`): the component as a class `Screen`. Its
  fields are the React state, its methods are the handlers, and `Valid()` is the
  invariant every handler keeps. That invariant says a chosen `imageUri` is never
  `''`, and every listed product has all three fields non-empty.

Each handler is one atomic step. React's batched state updates and the `await` on
storage are sequenced in source order. The list written by the save is taken
before the append, as the closure captures it.

## Model

| member | source | states |
|---|---|---|
| `Products.MakeProduct` | DetailsScreen.js:48-59 | The save goes ahead exactly when `imageUri` is neither null nor `''` and both text fields are non-empty. The record then carries the three current inputs unchanged, and every field is non-empty. |
| `Splice.SpliceStart` | DetailsScreen.js:77 | Where `splice(index, 1)` starts. An index in [0, n) is used as is, an index at or past the end gives n, and a negative index counts back from the end, stopping at 0. |
| `Splice.Spliced` | DetailsScreen.js:74-79 | If the start is inside the list, the result is one shorter. Entries before the start are unchanged, each later entry is the old entry one position further on, and the removed entry is the only one missing from the multiset. If the start is at the end, the list is unchanged. |
| `Splice.DeleteInRange` | DetailsScreen.js:113-116 | For the index that a rendered delete button passes (0 ≤ i < n): the length becomes n-1, positions j < i keep their entry, and position j ≥ i holds the old entry j+1. |
| `Picker.Classify` | DetailsScreen.js:23-31 | A cancelled response ends the pick. If it is not cancelled, a non-empty `errorMessage` ends it as an error. Otherwise there is a picked uri exactly when the asset list exists, is non-empty and its first asset has a non-empty uri. That uri is the one returned. |
| `LocalStorage.Storage.SetItem` | DetailsScreen.js:33-38 | A write either replaces the value under its key and reports success, or changes nothing and reports failure. |
| `DetailsScreen.Screen.constructor` | DetailsScreen.js:11-15 | The initial state: empty name and amount, null `imageUri`, empty list, modal hidden. Storage is left as the device holds it, and the invariant holds. |
| `DetailsScreen.Screen.SetProductName` | DetailsScreen.js:89-95 | Typing in the name field sets `productName` and nothing else. |
| `DetailsScreen.Screen.SetProductAmount` | DetailsScreen.js:96-103 | Typing in the amount field sets `productAmount` and nothing else. |
| `DetailsScreen.Screen.SetModalVisible` | DetailsScreen.js:107 | The Close button, and the "+" button at line 126, set `modalVisible` and nothing else. |
| `DetailsScreen.Screen.ChooseImage` | DetailsScreen.js:17-43 | A cancelled, failed or asset-less response leaves `imageUri` and storage unchanged. Otherwise the first asset's non-empty uri becomes `imageUri` whether or not storing it succeeds. Storage then changes only under `"imageUri"`, and only when the write succeeds. The other fields never change, and the invariant is kept. |
| `DetailsScreen.Screen.SaveProduct` | DetailsScreen.js:45-73 | With a field missing, the whole state and storage are unchanged. Otherwise exactly one record built from the inputs is appended, the earlier entries keep their positions, and the inputs become `''`, `''` and null. On a successful write, only `"products"` changes: it holds the serialisation of the list from before the append, which reads back as the current list minus its last entry and differs from the current list's text. The modal is then closed. On a failed write, storage and the modal are unchanged, but the append and the cleared inputs remain. The invariant is kept. |
| `DetailsScreen.Screen.DeleteProduct` | DetailsScreen.js:74-80 | The list becomes the spliced copy. The inputs, the modal flag and storage are unchanged, and the invariant is kept. |
| `DetailsScreen.Screen.Valid` | DetailsScreen.js:29-61 | The invariant every handler requires and keeps: `imageUri` is null or a non-empty uri (only a truthy picked uri is stored at 29-32, and a save resets it to null), and every listed product has all three fields non-empty (the guard at 48 runs before the append at 61). |
| `Json.EscapeChar` | DetailsScreen.js:67 | QuoteJSONString for one character: `"` and `\` and the five control characters with short forms are written as two-character escapes, the other characters below U+0020 as `\u00xx`, everything else as itself. The written form is one to six characters and is either the character itself or starts with a backslash. Its meaning is pinned by `Json.EscapeCharRead`. |
| `Json.EscapeString` | DetailsScreen.js:67 | The escaped characters of a string, never shorter than the string. `Json.StringRoundTrip` shows they read back as the string. |
| `Json.EscapeStringPrintable` | DetailsScreen.js:67 | No character below U+0020 is left raw in the text a string is written as. |
| `Json.Quote` | DetailsScreen.js:67 | A string value as JSON text: the escaped characters between two double quotes. `Json.QuotedRoundTrip` shows it reads back as the string. |
| `Json.EncodeProduct` | DetailsScreen.js:55-59 | One product as `JSON.stringify` writes the object literal: `{"imageUri":…,"productName":…,"productAmount":…}` with keys in insertion order and no white space. `Json.ProductRoundTrip` shows it reads back as the record. |
| `Json.Join` | DetailsScreen.js:67 | SerializeJSONArray's comma separation: the element texts joined by `,`, starting with the first element's text. |
| `Json.SerializeArray` | DetailsScreen.js:67 | SerializeJSONArray without indentation: `[]` for no elements, otherwise the joined elements in brackets. |
| `Json.Serialize` | DetailsScreen.js:67 | `JSON.stringify(products)`: a bracketed text, which is `[]` exactly for the empty list. Its meaning is pinned by `Json.SerializeRoundTrip` and `Json.SerializeInjective`. |
| `Json.HexDigit` | DetailsScreen.js:67 | The lower-case hex digit written in a `\u` escape reads back as its value. |
| `Json.ParseStringBody` | DetailsScreen.js:67 | Reading a string's characters always consumes input, so the list reader terminates. |
| `Json.EscapeCharRead` | DetailsScreen.js:67 | Each character, written as itself or as a short or `\u00xx` escape, reads back as that character, followed by whatever came after it. |
| `Json.StringRoundTrip` | DetailsScreen.js:67 | A string's escaped text, followed by the closing quote, reads back as that string and leaves the rest of the input. |
| `Json.QuotedRoundTrip` | DetailsScreen.js:67 | A quoted string reads back as itself. |
| `Json.FieldRoundTrip` | DetailsScreen.js:55-59 | A key followed by its quoted value reads back as that value. |
| `Json.ProductRoundTrip` | DetailsScreen.js:55-59 | The text of one `{imageUri, productName, productAmount}` object reads back as that record, with all three fields and their order preserved. |
| `Json.ItemsRoundTrip` | DetailsScreen.js:67 | Comma-joined element texts, each of which reads back as its product, read back as the whole list in order. |
| `Json.ArrayRoundTrip` | DetailsScreen.js:67 | The bracketed array text reads back as the list, including the empty list `[]`. |
| `Json.SerializeRoundTrip` | DetailsScreen.js:67 | Reading back the text `JSON.stringify(products)` writes gives exactly that list. |
| `Json.SerializeInjective` | DetailsScreen.js:67 | Two lists with the same serialised text are the same list. |

## Left out

- The picker library and the storage library are foreign code. The picker response is an input value. A storage write either succeeds or fails, and which one is not determined. The picker options (`mediaType`, `quality`) have no effect on the state and are not modelled.
- Timing of React's state batching and of `await`: each handler is one atomic step. A second handler call that starts before an earlier save's write completes is therefore not modelled.
- HomeScreen.js (a remote login request and alerts) and App.tsx (navigation) are not part of this model. Neither touches the product list.
- Rendering, styles, `Alert.alert` and `console` output are not modelled. From lines 83-228 the model takes only the state setters bound at lines 92, 101, 107 and 126, and the range of indices the delete buttons pass (lines 113-116).
- Search, duplicate-name rejection, loading the list on mount and saving after a delete do not exist in DetailsScreen.js, so they are not modelled.
- `Json.StringRoundTrip`: JavaScript strings are UTF-16. QuoteJSONString also escapes lone surrogates as `\uXXXX`, but Dafny characters are Unicode scalar values, so lone surrogates cannot occur in this model.
- `DetailsScreen.Screen.DeleteProduct`: splice's conversion of a non-integer index is not modelled, because the buttons always pass an integer.
- `Json.Deserialize` reads only the exact shape the writer produces. It is not a general JSON parser, since the program never reads the list back.
