/** The storefront's record types. The catalogue itself is supplied by the
    caller as a `seq<Product>`. */
module Catalog {
  import opened Optional

  /** A catalogue entry. Wattages are whole watts; the specification sheet
      is display-only and not modelled. */
  datatype Product = Product(
    id: string,
    name: string,
    category: string,
    shortDescription: string,
    images: seq<string>,
    wattageOptions: seq<nat>,
    colorTemperatures: seq<string>,
    applicationTypes: seq<string>,
    bisCertified: bool)

  /** One configured line of an enquiry. `notes` is `None` for `undefined`. */
  datatype SelectedProduct = SelectedProduct(
    productId: string,
    productName: string,
    wattage: nat,
    colorTemperature: string,
    applicationType: string,
    quantity: int,
    notes: Option<string>,
    selectionId: string)
}
