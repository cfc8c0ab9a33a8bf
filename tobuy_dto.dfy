/** The to-buy transfer objects: an item with its categories and shop links. */
module ToBuyDto {
  import opened Opt

  /** A UUID, compared only for equality. */
  type Uuid = int

  datatype Category = Category(
    id: Option<Uuid>,
    name: Option<string>,
    description: Option<string>,
    color: Option<string>)

  datatype Link = Link(
    id: Option<Uuid>,
    url: string,
    price: Option<int>,  // a Kotlin Short
    favourite: bool,
    illustrationUrl: Option<string>,
    toBuyId: Option<Uuid>)

  datatype ToBuy = ToBuy(
    id: Option<Uuid>,
    created: Option<string>,
    title: string,
    description: Option<string>,
    criteria: Option<string>,
    bought: Option<string>,
    estimatedPrice: Option<int>,  // a Kotlin Int
    interest: Option<string>,
    categories: seq<Category>,
    links: seq<Link>)
}
