/** The image picker's response, as the callback in handleChooseImage reads it,
    and the branch decision that callback makes. The picker library itself is
    not modelled: its response is an input value. */
module Picker {
  import opened Wrappers
  import opened Products

  /** One picked asset; `uri` may be undefined. */
  datatype Asset = Asset(uri: Option<string>)

  /** `didCancel` is false when the library leaves it undefined; `errorMessage`
      and `assets` may be undefined. */
  datatype PickerResponse = PickerResponse(
    didCancel: bool,
    errorMessage: Option<string>,
    assets: Option<seq<Asset>>)

  /** Which branch of the callback runs. */
  datatype PickResult =
    | Cancelled
    | PickerError(message: string)
    | NoImage
    | Image(uri: string)

  /** `response.didCancel`, else a truthy `response.errorMessage`, else a
      non-empty asset list whose first asset has a truthy uri. */
  function Classify(response: PickerResponse): (r: PickResult)
    ensures r == Cancelled <==> response.didCancel
    ensures r.PickerError? <==> !response.didCancel && TruthyOpt(response.errorMessage)
    ensures r.PickerError? ==> Some(r.message) == response.errorMessage
    ensures r.Image? ==> Truthy(r.uri)
    ensures r.Image? <==>
      && !response.didCancel
      && !TruthyOpt(response.errorMessage)
      && response.assets.Some?
      && |response.assets.value| > 0
      && TruthyOpt(response.assets.value[0].uri)
    ensures r.Image? ==> response.assets.value[0].uri == Some(r.uri)
  {
    if response.didCancel then Cancelled
    else if TruthyOpt(response.errorMessage) then PickerError(response.errorMessage.value)
    else if response.assets.Some? && |response.assets.value| > 0 then
      var uri := response.assets.value[0].uri;
      if TruthyOpt(uri) then Image(uri.value) else NoImage
    else NoImage
  }
}
