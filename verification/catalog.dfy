/** A product record as the catalog endpoint returns it. */
module Catalog {

  /** Prices and the deal fraction are JavaScript numbers; only `id` and
      `brand` take part in the logic modelled here. */
  datatype Item = Item(
    id: string,
    artName: string,
    brand: string,
    price: real,
    limitedTimeDeal: real,
    image: string,
    description: string,
    glassSurface: bool)
}
