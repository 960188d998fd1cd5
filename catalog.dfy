/**
 * The item catalogue's handlers over the `items` table. The table is the
 * `rows` field of an `ItemStore`, in insertion order; an INSERT appends to
 * it and a SELECT walks it.
 */
module Catalog {
  import opened Wrappers
  import opened Api
  import opened Query
  import opened Strconv
  import opened Hex
  import opened Images

  class ItemStore {
    /** The rows of the `items` table, in insertion (rowid) order. */
    var rows: seq<Item>

    /** The table holds what `addItem` alone produces from an empty table. */
    ghost predicate Valid()
      reads this
    {
      IdsAssigned(rows)
    }

    /** A fresh, empty table. */
    constructor ()
      ensures rows == [] && Valid()
    {
      rows := [];
    }

    /** `saveItemToDB`: the INSERT adds the row at the end. */
    method SaveItemToDB(item: Item)
      modifies this
      ensures rows == old(rows) + [item]
    {
      rows := rows + [item];
    }

    /**
     * `loadItemsFromDB(keyword)`: the rows the query yields, appended one by
     * one as the cursor advances; the error it returns is always nil.
     */
    method LoadItemsFromDB(keyword: string) returns (items: seq<Item>, err: Option<string>)
      ensures items == Select(rows, keyword)
      ensures err == None
    {
      items := [];
      var i := 0;
      while i < |rows|
        invariant 0 <= i <= |rows|
        invariant items == Select(rows[..i], keyword)
      {
        var row := rows[i];
        SelectAppend(rows[..i], [row], keyword);
        assert rows[..i + 1] == rows[..i] + [row];
        assert Select([row], keyword) == if Selected(row, keyword) then [row] else [];
        if Selected(row, keyword) {
          items := items + [row];
        }
        i := i + 1;
      }
      assert rows[..i] == rows;
      err := None;
    }

    /**
     * `addItem`: names the image after its contents, gives the item the id
     * "number of listed rows plus one", inserts it and confirms by name.
     */
    method AddItem(name: string, category: string, imagePath: string,
                   fs: map<string, seq<byte>>, sum256: seq<byte> -> Digest) returns (r: Response)
      modifies this
      ensures rows == old(rows) + [Item(|Select(old(rows), "")| + 1, name, category,
                                        CalculateImageHash(fs, sum256, imagePath))]
      ensures old(Valid()) ==> Valid() && rows[|old(rows)|].id == |old(rows)| + 1
      ensures r == Json(StatusOK, Message("item received: " + name))
    {
      var newItem := Item(0, name, category, "");
      var hash := CalculateImageHash(fs, sum256, imagePath);
      newItem := newItem.(image := hash);
      var existing, _ := LoadItemsFromDB("");
      var count := |existing| + 1;
      newItem := newItem.(id := count);
      if Valid() {
        ListAllIsWholeTable(rows);
      }
      SaveItemToDB(newItem);
      r := Json(StatusOK, Message("item received: " + name));
    }

    /** `getItem`: every row with a non-negative id, as JSON. */
    method GetItem() returns (r: Response)
      ensures r == Json(StatusOK, ItemsBody(Select(rows, "")))
    {
      var items, _ := LoadItemsFromDB("");
      r := Json(StatusOK, ItemsBody(items));
    }

    /**
     * `getItemByID`: reads the id with `Atoi`, lists the table and replies
     * with the first listed item carrying that id, or the not-found text.
     */
    method GetItemByID(idText: string) returns (r: Response)
      ensures FindById(Select(rows, ""), Atoi(idText)).Some? ==>
                r == Json(StatusOK, ItemBody(FindById(Select(rows, ""), Atoi(idText)).value))
      ensures FindById(Select(rows, ""), Atoi(idText)).None? ==> r == Text(StatusOK, NotFoundText)
    {
      var targetId := Atoi(idText);
      var items, _ := LoadItemsFromDB("");
      var i := 0;
      while i < |items|
        invariant 0 <= i <= |items|
        invariant FindById(items[i..], targetId) == FindById(items, targetId)
      {
        if items[i].id == targetId {
          return Json(StatusOK, ItemBody(items[i]));
        }
        assert items[i..][1..] == items[i + 1..];
        i := i + 1;
      }
      return Text(StatusOK, NotFoundText);
    }

    /**
     * `searchItem`: the rows selected by the keyword, as JSON. The not-found
     * branch is never taken, because the load never fails.
     */
    method SearchItem(keyword: string) returns (r: Response)
      ensures r == Json(StatusOK, ItemsBody(Select(rows, keyword)))
      ensures r != Text(StatusOK, NotFoundText)
    {
      var items, err := LoadItemsFromDB(keyword);
      if err.Some? {
        return Text(StatusOK, NotFoundText);
      }
      return Json(StatusOK, ItemsBody(items));
    }
  }

  /**
   * Adding an item and then asking for its id, written in decimal, returns
   * that item: the new id is fresh and every earlier id is smaller.
   */
  lemma {:induction false} LookupAfterAdd(rows: seq<Item>, item: Item)
    requires IdsAssigned(rows) && item.id == |rows| + 1 && item.id <= MaxInt64
    ensures IdsAssigned(rows + [item])
    ensures FindById(Select(rows + [item], ""), Atoi(FormatDecimal(item.id))) == Some(item)
  {
    AtoiFormatDecimal(item.id);
    assert IdsAssigned(rows + [item]);
    LookupAssignedIds(rows + [item], item.id);
  }

  /**
   * An `:id` segment whose digits a non-digit cuts short reads as 0,
   * which `addItem` never assigns: the reply is the not-found text.
   */
  lemma {:induction false} NonDecimalIdNotFound(rows: seq<Item>, idText: string)
    requires IdsAssigned(rows)
    requires EarlyNonDigit(idText)
    ensures FindById(Select(rows, ""), Atoi(idText)) == None
  {
    AtoiNonDecimal(idText);
    LookupAssignedIds(rows, 0);
  }
}
