/**
 * The values the handlers exchange with their clients: the `Item` record
 * and the three kinds of reply an Echo handler sends (`c.JSON`,
 * `c.String`, `c.File`).
 */
module Api {

  /** One row of the `items` table and one element of the JSON `items` list. */
  datatype Item = Item(id: int, name: string, category: string, image: string)

  const StatusOK: int := 200
  const StatusBadRequest: int := 400

  /** Bodies of JSON replies: `Response`, a single `Item`, or `Items`. */
  datatype Body = Message(message: string) | ItemBody(item: Item) | ItemsBody(items: seq<Item>)

  datatype Response =
    | Json(status: int, body: Body)
    | Text(status: int, text: string)
    | File(path: string)

  /** The plain-text reply for an id that matches no item. */
  const NotFoundText: string := "Item not found \n"
}
