/**
 * What the catalogue's two queries compute over the `items` table, taken as
 * the sequence of its rows in insertion order: the row filter of
 * `loadItemsFromDB` and the first-match scan of `getItemByID`.
 */
module Query {
  import opened Wrappers
  import opened Api
  import opened SqlLike
  import opened Text

  /**
   * The WHERE clause of `loadItemsFromDB`: `id >= 0` for the empty keyword,
   * `name LIKE '%'||keyword||'%'` for any other.
   */
  predicate Selected(it: Item, keyword: string) {
    if keyword == "" then it.id >= 0 else Like(it.name, "%" + keyword + "%")
  }

  /** The rows a query returns, in table order. */
  function Select(rows: seq<Item>, keyword: string): (r: seq<Item>)
    ensures |r| <= |rows|
    ensures forall x :: x in r <==> x in rows && Selected(x, keyword)
  {
    if rows == [] then []
    else (if Selected(rows[0], keyword) then [rows[0]] else []) + Select(rows[1..], keyword)
  }

  /** Selection keeps table order: it distributes over concatenation. */
  lemma {:induction false} SelectAppend(a: seq<Item>, b: seq<Item>, keyword: string)
    ensures Select(a + b, keyword) == Select(a, keyword) + Select(b, keyword)
  {
    if a != [] {
      assert (a + b)[0] == a[0] && (a + b)[1..] == a[1..] + b;
      SelectAppend(a[1..], b, keyword);
    } else {
      assert a + b == b;
    }
  }

  /** The first item in `items` whose id is `id`, if there is one. */
  function FindById(items: seq<Item>, id: int): (r: Option<Item>)
    ensures r.None? <==> forall k :: 0 <= k < |items| ==> items[k].id != id
    ensures r.Some? ==> exists k :: 0 <= k < |items| && items[k] == r.value && items[k].id == id
                                    && forall j :: 0 <= j < k ==> items[j].id != id
  {
    if items == [] then None
    else if items[0].id == id then Some(items[0])
    else
      var r := FindById(items[1..], id);
      assert r.Some? ==> exists k :: 1 <= k < |items| && items[k] == r.value && items[k].id == id
                                     && forall j :: 0 <= j < k ==> items[j].id != id by {
        if r.Some? {
          var k :| 0 <= k < |items[1..]| && items[1..][k] == r.value && items[1..][k].id == id
                   && forall j :: 0 <= j < k ==> items[1..][j].id != id;
          assert forall j :: 1 <= j < k + 1 ==> items[j] == items[1..][j - 1];
        }
      }
      r
  }

  /** The table as `addItem` builds it from an empty table: row k has id k + 1. */
  ghost predicate IdsAssigned(rows: seq<Item>) {
    forall k :: 0 <= k < |rows| ==> rows[k].id == k + 1
  }

  /** With no negative ids in the table, listing with the empty keyword returns it whole. */
  lemma {:induction false} ListAllNonNegative(rows: seq<Item>)
    requires forall k :: 0 <= k < |rows| ==> rows[k].id >= 0
    ensures Select(rows, "") == rows
  {
    if rows != [] {
      ListAllNonNegative(rows[1..]);
      assert [rows[0]] + rows[1..] == rows;
    }
  }

  /** Under the id assignment of `addItem`, the empty keyword lists every row. */
  lemma ListAllIsWholeTable(rows: seq<Item>)
    requires IdsAssigned(rows)
    ensures Select(rows, "") == rows
  {
    ListAllNonNegative(rows);
  }

  /**
   * A non-empty keyword without wildcards selects exactly the rows whose
   * name contains it, up to ASCII case.
   */
  lemma SearchMatchesSubstring(rows: seq<Item>, keyword: string)
    requires keyword != "" && !HasWildcard(keyword)
    ensures forall x :: x in Select(rows, keyword) <==> x in rows && ContainsFold(x.name, keyword)
  {
    forall x | x in rows
      ensures Selected(x, keyword) <==> ContainsFold(x.name, keyword)
    {
      LikeContains(x.name, keyword);
    }
  }

  /**
   * Under the id assignment of `addItem`, looking up `n` over the full
   * listing finds the n-th inserted row, and nothing for any other `n`.
   */
  lemma {:induction false} LookupAssignedIds(rows: seq<Item>, n: int)
    requires IdsAssigned(rows)
    ensures FindById(Select(rows, ""), n) == if 1 <= n <= |rows| then Some(rows[n - 1]) else None
  {
    ListAllIsWholeTable(rows);
    if 1 <= n <= |rows| {
      var r := FindById(rows, n);
      assert rows[n - 1].id == n;
      var k :| 0 <= k < |rows| && rows[k] == r.value && rows[k].id == n;
    }
  }
}
