# Fruit sheet adapter and sync endpoint, modelled in Dafny

The application keeps one table of rows `(id, fruit, updatedAt)` in worksheet `Sheet1`
of a spreadsheet. Row 1 is a header and data starts at row 2. Two pieces are modelled:

- **Sheet adapter** (`sheets.dfy`, module `Sheets`).
  - `getSheetData` reads range `A2:C` and zips each raw row positionally into a
    `FruitRow`. A missing cell reads as `""`.
  - `updateSheetData(id, fruit)` re-reads the sheet and finds the first row with that id.
    If one exists, it overwrites columns B:C of sheet row `index + 2`. Otherwise it appends
    `[id, fruit, updatedAt]`.
  - The remote worksheet is the class `Worksheet`. Its field `grid` holds raw rows, and
    `grid[0]` is the header row. Its methods stand for the service calls the adapter makes:
    `values.get` on `A2:C`, `values.update` on `B{n}:C{n}`, and `values.append` on `A:C`.
  - The adapter methods `GetSheetData` and `UpdateSheetData` are proved against the
    functions `ReadRows` and `Upserted`. The lemmas about those functions state what the
    adapter promises: which row changes, which cells change, how the row count changes,
    and what a later read returns.
- **Sync endpoint** (`route.dfy`, module `Route`).
  - `GET` and `POST` are functions from the request and the adapter's outcome to a
    response `(status, body)`.
  - `POST` also returns the list of adapter calls it made. This is how the model states
    that the adapter is called iff validation passes.

`wrappers.dfy` holds the `Option` and `Outcome` datatypes that both modules use.

The upsert looks the id up before every write. The client also sends a `rowNumber` for rows it
already knows, but neither the endpoint nor the adapter reads it: `updateSheetData(id, fruit)`
takes no position and always looks the id up before writing. So the model has no
position-hint write path. On a sheet with its header row, two upserts of one id in a row
add at most one row (`Sheets.UpsertTwiceAddsAtMostOneRow`), never two. On a sheet without
a header row they add two (`Sheets.UpsertWithoutHeader`).

## Model

| member | source | states |
|---|---|---|
| `Sheets.CellOr` | src/lib/sheets.ts:36-38 | the `''` default gives the cell when it exists and `""` when it is missing; an empty cell already reads as `""` |
| `Sheets.ToFruitRow` | src/lib/sheets.ts:35-39 | the `map` callback: a row with all three cells becomes `{id: A, fruit: B, updatedAt: C}`, and a row shorter than three cells has an empty `updatedAt` |
| `Sheets.ToFruitRowCells` | src/lib/sheets.ts:36-38 | each of `id`, `fruit` and `updatedAt` is the raw cell at column 0, 1 or 2 when the row has it, and `""` when it does not |
| `Sheets.ToFruitRows` | src/lib/sheets.ts:35-39 | the `map` gives one row per raw row, in the same order; row `i` is zipped from raw row `i` |
| `Sheets.ColumnsAToC` | src/lib/sheets.ts:31 | a read of columns A to C returns at most the first three cells of a row, a prefix of it, ending in a non-empty cell; the cells it drops among the first three are empty, so the fruit row built from it is the one built from the whole row |
| `Sheets.RangeA2C` | src/lib/sheets.ts:29-31 | range `A2:C` holds, in order, the A to C cells of each sheet row below the header; it has no values iff there is no such row |
| `Sheets.ReadThroughRangeA2C` | src/lib/sheets.ts:29-39 | zipping the values of range `A2:C` gives exactly `ReadRows` of the grid: cutting rows to columns A to C changes no fruit row |
| `Sheets.RowsOf` | src/lib/sheets.ts:34-39 | absent values give `[]`, not an error; otherwise one fruit row per raw row, in order |
| `Sheets.ReadRows` | src/lib/sheets.ts:26-40 | a read returns one row per sheet row below the header (none for a header-only sheet); row `i` comes from sheet row `i + 2`; the header is never read as data |
| `Sheets.FindIndex` | src/lib/sheets.ts:48 | `findIndex`: -1 iff no row has the id; otherwise the index of a row with that id, and no earlier row has it |
| `Sheets.WriteBC` | src/lib/sheets.ts:53-61 | writing `[[fruit, updatedAt]]` to B:C sets cells 1 and 2; the id cell and any cell right of C keep their contents |
| `Sheets.Upserted` | src/lib/sheets.ts:45-72 | an upsert never changes the header row, and it adds at most one row |
| `Sheets.UpsertExisting` | src/lib/sheets.ts:48-61 | when row `k` is the first with the id: the row count is unchanged, row `k`'s id cell is unchanged, its fruit and updatedAt cells become the new values, and every other row is unchanged |
| `Sheets.UpsertAbsent` | src/lib/sheets.ts:62-71 | when no row has the id: the new grid is the old grid plus exactly one row `[id, fruit, updatedAt]` at the end |
| `Sheets.ReadAfterOverwrite` | src/lib/sheets.ts:51-61 | after overwriting row `k`, the first row with the id, a read gives the same number of rows, row `k` reads `{id, fruit, updatedAt}` and is still the first with the id, and every other row reads as before |
| `Sheets.ReadAfterAppend` | src/lib/sheets.ts:62-71 | after appending for an absent id, a read gives the old rows in order followed by `{id, fruit, updatedAt}` |
| `Sheets.ReadAfterUpsert` | src/lib/sheets.ts:45-71 | after an upsert, the first row read with the id is `{id, fruit, updatedAt}`, with the single timestamp of the call in either branch; every other row reads as before; the count grows by one only when the row was appended at the end |
| `Sheets.UpsertTwiceAddsAtMostOneRow` | src/lib/sheets.ts:45-71 | a second upsert of the same id adds no row, so two upserts in a row add at most one |
| `Sheets.UpsertKeepsIdsUnique` | src/lib/sheets.ts:45-71 | if the ids in the data rows are unique before an upsert, they are unique after it, on any grid |
| `Sheets.UpsertWithoutHeader` | src/lib/sheets.ts:45-71 | on a sheet with no rows, the first upsert lands in sheet row 1, which a read never returns, and a second upsert of the same id appends again |
| `Sheets.Worksheet.GetA2C` | src/lib/sheets.ts:29-32 | `values.get` on `A2:C` returns the A to C cells of every row below the header, or no values when there is none |
| `Sheets.Worksheet.UpdateBC` | src/lib/sheets.ts:54-61 | `values.update` on `B{n}:C{n}` changes only sheet row `n`, and only its B:C cells; the row count is unchanged |
| `Sheets.Worksheet.Append` | src/lib/sheets.ts:64-71 | `values.append` adds the row after all existing rows |
| `Sheets.GetSheetData` | src/lib/sheets.ts:26-40 | `getSheetData` returns exactly `ReadRows` of the current grid |
| `Sheets.UpdateSheetData` | src/lib/sheets.ts:43-73 | `updateSheetData` leaves the grid equal to `Upserted` of the old grid, so the lemmas above apply to it; the header row exists afterwards and is unchanged. That the row it overwrites, `index + 2`, is never the header follows from `Upserted` |
| `Route.Truthy` | src/app/api/sheets/route.ts:23 | a string field passes the `!id` and `!fruit` tests iff it is present and non-empty |
| `Route.Get` | src/app/api/sheets/route.ts:5-16 | status 200 iff the adapter succeeded, with its rows unchanged under `data`; otherwise status 500 with "Failed to fetch data" |
| `Route.Post` | src/app/api/sheets/route.ts:19-39 | the adapter is called exactly once, with the body's `id` and `fruit`, iff the body parsed and both fields are non-empty. A parsed body without them gives 400 with "ID and fruit are required". A call that succeeds gives 200 `{ success: true }`. Anything else gives 500 with "Failed to update data" |
| `Route.FailureCauseNotLeaked` | src/app/api/sheets/route.ts:9-14 | the error response does not depend on the cause of the failure, for GET and for POST |
| `Route.RowNumberIgnored` | src/app/api/sheets/route.ts:21 | POST reads only `id` and `fruit`: changing `rowNumber` changes neither the response nor the call |
| `Route.PostThenGet` | src/app/api/sheets/route.ts:30-31 | a valid POST makes the call `updateSheetData(id, fruit)` and answers 200; once that call has been applied, the next GET returns `{id, fruit, updatedAt}` as the first row with that id |

## Left out

- Google client construction, credentials and environment configuration
  (src/lib/sheets.ts:4-16) are foreign library calls. The worksheet is an in-memory grid.
- Sheets API behaviour is not modelled. This covers `USER_ENTERED` interpretation, which
  the model replaces by storing the written strings verbatim. It also covers the service's
  own "next free row" detection, which the model replaces by adding the row at the end.
  Trailing blank rows are not represented.
- `Sheets.Worksheet.UpdateBC` requires the target row to exist. The service would also
  accept a row below the last one, but the adapter never targets one.
- The class `Worksheet` assumes its header row is present (`Worksheet.Valid`). The
  functions also cover a sheet with no rows. There the first upsert lands in row 1, which
  `A2:C` never reads (`Sheets.UpsertWithoutHeader`).
- `new Date().toISOString()` is the parameter `updatedAt`. That it is later than the
  row's previous timestamp depends on the clock, so it is not stated.
- Failures are inputs, not exceptions. The endpoint gets the adapter's outcome as a
  parameter. The adapter methods model only the successful service. A failed read or write
  is the `Failed` outcome seen by the endpoint, and the model does not state what a
  partial write leaves behind.
- `Route.Post`: `request.json()` and the destructuring of `{ id, fruit }` are reduced to
  `Option<PostBody>`. `None` stands for a body that could not be read, and its fields are
  `Option<string>`. Non-string JSON values for `id` or `fruit` (numbers, booleans, objects)
  are not modelled.
- NextRequest/NextResponse, JSON serialisation and `console.error` logging are framework
  plumbing and are left out.
- The React pages and the client component are presentation and are left out. So is the
  client's `rowNumber` lookup. No position-hint write path exists in the adapter.
- Concurrency is not modelled. That includes races between requests, and duplicate
  appends when two requests for an absent id interleave. The model is sequential.
