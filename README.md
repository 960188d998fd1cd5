# Item catalogue of a marketplace-listing backend, in Dafny

This project models the item-catalogue logic of a small marketplace backend
(`go/app/main.go`). Clients submit items (name, category, image path) and
get them back by listing, by id or by keyword search. Each item's image
name is the lower-case hex SHA-256 of the server-side file at the submitted
path, followed by ".jpeg"; the code stores no file under that name.
`getImg` serves ".jpg" files from the `images` directory, falling back to
`images/default.jpg`.

What is modelled:

- The `items` table is the `rows` field of the class `Catalog.ItemStore`, a
  sequence of `Api.Item` records in insertion order. `SaveItemToDB` appends
  a row. `LoadItemsFromDB` walks the table in a loop and keeps the rows the
  query's WHERE clause selects. The handlers `AddItem`, `GetItem`,
  `GetItemByID` and `SearchItem` are methods of the same class. They return
  an `Api.Response`: a JSON reply, a plain-text reply or a file to serve.
- The WHERE clause is `Query.Selected`. The empty keyword selects `id >= 0`.
  Any other keyword selects `name LIKE '%'||keyword||'%'`, and LIKE is
  SQLite's operator (`SqlLike.Like`): `%` and `_` are wildcards and letters
  compare up to ASCII case. For a keyword without wildcards this is proved
  to be a case-insensitive substring test.
- `getItemByID` reads its `:id` segment with Go's `strconv.Atoi`
  (`Strconv.Atoi`), whose error the handler drops. A syntax error gives 0.
  An out-of-range number gives the clamped int64 bound. Atoi's digit loop
  stops at the first overflow, so a run of 20 or more digits followed by
  junk can give the bound rather than 0.
- `calculateImageHash` is `Images.CalculateImageHash`. SHA-256 is a
  function parameter that returns 32 bytes. The file system is a map from
  path to contents, and an unreadable path reads as no bytes. Hex encoding
  follows Go's `encoding/hex` and is proved injective through its decoder.
- `getImg` is `Images.GetImg`. The paths that `os.Stat` succeeds on are a
  set. `path.Join("images", name)` is modelled for route parameters, which
  never contain `/`.

Three points of the code that the model keeps as they are:

- Listing selects `id >= 0` (main.go:183). This is the whole table when
  ids come from `addItem`.
- Ids are the number of listed rows plus one, inserted explicitly
  (main.go:56, 159), not left to an auto-increment.
- Images are named `<hex>.jpeg` (main.go:132), but `getImg` accepts only
  names ending in ".jpg" (main.go:75). `Images.HashedNameRejected` proves
  that no name `calculateImageHash` produces can ever be served.

## Model

| member | source | states |
|---|---|---|
| `Catalog.ItemStore.SaveItemToDB` | go/app/main.go:151-171 | the INSERT appends exactly the given row at the end of the table; earlier rows are unchanged |
| `Catalog.ItemStore.LoadItemsFromDB` | go/app/main.go:173-216 | the result is exactly the table's rows that the query's WHERE clause selects, in table order; the returned error is always nil |
| `Catalog.ItemStore.AddItem` | go/app/main.go:45-69 | the table grows by one row at the end, with id = number of listed rows + 1 and the submitted name, category and hashed image name; from a table built by `addItem` alone, the id is the table size + 1 and that shape is kept; the reply is 200 with "item received: <name>" |
| `Catalog.ItemStore.GetItem` | go/app/main.go:86-93 | replies 200 with the rows whose id is at least 0 |
| `Catalog.ItemStore.GetItemByID` | go/app/main.go:137-149 | replies 200 with the first listed item whose id is Atoi of the segment; if there is none, replies with exactly "Item not found \n" |
| `Catalog.ItemStore.SearchItem` | go/app/main.go:218-225 | replies 200 with the rows the keyword selects; never the not-found text, since loading never fails |
| `Catalog.LookupAfterAdd` | go/app/main.go:56-62 | after an item is added with id n, looking up the decimal text of n returns that item |
| `Catalog.NonDecimalIdNotFound` | go/app/main.go:139 | an id segment whose part after the sign is empty or has a non-digit among its first 20 characters reads as 0, which no added item carries, so the lookup finds nothing |
| `Query.Select` | go/app/main.go:181-213 | the result is no longer than the table, and an item is in it exactly when it is in the table and the WHERE clause selects it |
| `Query.SelectAppend` | go/app/main.go:189-197 | selecting keeps table order: it distributes over concatenation |
| `Query.FindById` | go/app/main.go:142-148 | nothing is found exactly when no item has the id; what is found is the item at the first position holding the id |
| `Query.ListAllNonNegative` | go/app/main.go:181-197 | with no negative id in the table, the empty keyword lists the whole table in order |
| `Query.ListAllIsWholeTable` | go/app/main.go:183 | for a table built by `addItem`, the empty keyword lists the whole table |
| `Query.SearchMatchesSubstring` | go/app/main.go:199-213 | for a non-empty keyword without wildcards, an item is selected exactly when it is in the table and its name contains the keyword up to ASCII case |
| `Query.LookupAssignedIds` | go/app/main.go:140-148 | for a table built by `addItem`, looking up n finds the n-th inserted row when 1 <= n <= size, and nothing otherwise |
| `SqlLike.LikeContains` | go/app/main.go:200 | `name LIKE '%'||k||'%'` holds exactly when k occurs in name up to ASCII case, for k without `%` or `_` |
| `SqlLike.LikePrefix` | go/app/main.go:200 | `s LIKE k||'%'` holds exactly when k starts s up to ASCII case, for k without wildcards |
| `Strconv.Atoi` | go/app/main.go:139 | the value read lies in the int64 range |
| `Strconv.AtoiFormatDecimal` | go/app/main.go:139 | reading the decimal text of a non-negative int64 gives the number back |
| `Strconv.AtoiNonDecimal` | go/app/main.go:139 | text whose part after the sign is empty or has a non-digit among its first 20 characters reads as 0 |
| `Strconv.ShortNonDecimalEarly` | go/app/main.go:139 | every text shorter than 19 characters that is not a signed decimal falls under that case |
| `Hex.EncodeToString` | go/app/main.go:132 | the encoding has two characters per byte |
| `Hex.EncodeDigits` | go/app/main.go:132 | every character of the encoding is a lower-case hex digit |
| `Hex.DecodeEncode` | go/app/main.go:132 | decoding the encoding gives the bytes back |
| `Hex.EncodeInjective` | go/app/main.go:132 | distinct byte sequences have distinct encodings |
| `Images.CalculateImageHash` | go/app/main.go:124-135 | the name has 69 characters: 64 lower-case hex digits that decode to the digest of the file's contents, then ".jpeg"; no error is possible |
| `Images.HashNameInjective` | go/app/main.go:129-132 | two image names are equal exactly when the two digests are |
| `Images.UnreadablePathHashesEmpty` | go/app/main.go:126 | an unreadable path is named after the digest of no bytes |
| `Images.JoinKeepsJpgSuffix` | go/app/main.go:73-75 | the joined path ends in ".jpg" exactly when the requested name does |
| `Images.GetImg` | go/app/main.go:71-84 | replies 400 with "Image path does not end with .jpg" exactly when the name does not end in ".jpg"; otherwise serves images/<name> if it exists, else images/default.jpg |
| `Images.ServedFromImageDir` | go/app/main.go:73-83 | a served file always lies directly inside the image directory |
| `Images.HashedNameRejected` | go/app/main.go:75 | every name produced at main.go:132 contains no '/' and is rejected with 400, whatever files exist |

## Left out

- `root`, routing, middleware, CORS and server start (main.go:40-43, 227-254): framework set-up with no logic.
- Opening the database, SQL errors, `LastInsertId` and the `log.Fatal` exits: the table is an in-memory sequence that never fails.
- An INSERT whose id is already in the table, which would end the process: not modelled. For a table built by `addItem` alone the new id is always fresh (`LookupAfterAdd`).
- Row order: the SELECTs have no ORDER BY; the model assumes the table's insertion order.
- `Query.SearchMatchesSubstring`: states the substring reading only for keywords without `%` or `_`; for other keywords `SqlLike.Like` still gives the selection.
- Logging (`c.Logger()`, `fmt.Println`, `fmt.Printf`): output only.
- The JSON-file store (`loadItemsFromJSON`, `saveItemToJSON`, main.go:95-122) and the local append at main.go:58: dead code.
- JSON encoding of replies, including the `null` that an empty result becomes.
- SHA-256 itself: a parameter returning 32 bytes. `os.ReadFile` either reads a whole file or fails; a partial read is not modelled.
- `c.File`: the model returns the path chosen. Echo's own reply when even the default image is missing is not modelled.
- `path.Join` for names that contain `/`: the router never passes one.
- `Api.Item`: ids are unbounded integers; an id past the int64 range is not modelled.
- Concurrent `addItem` calls racing on id assignment: only sequential behaviour is modelled.
- `Strconv.Atoi`: models a 64-bit platform only.
- `typescript/simple-mercari-web/src/components/ItemList/ItemList.tsx`: a UI view with no catalogue logic.
