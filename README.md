# tilequeue tile stores, keys and layer selection in Dafny

This project models the sequential core of tilequeue, the service that renders and stores map tiles. It covers:

- **Quadtree navigation.** A tile is a `Coord(zoom, column, row)`. The model defines its four children, its parent, all descendants down to a maximum zoom (`coord_children_range`) and the seed pyramid from one zoom to another (`seed_tiles`). It proves the counts and orders the tile tests fix.
- **Where tiles live.** On disk a tile lives at `base/layer/z/x/y.ext` (`make_dir_path`, `make_file_path`). `os.path.join` is modelled exactly. In object storage the key is `/date/hash/path/layer/z/x/y.ext` (`calc_hash`, `s3_tile_key`); md5 is a parameter.
- **The local tile stores.**
  - `TileDirectory` stores tiles over a modelled filesystem: files, directories, a failure oracle for opens and renames, and a log of calls. Its `write_tile` writes to a swap file and then calls `os_replace`, with clean-up on failure. Its `read_tile` returns `None` on an error. Its `delete_tiles` counts what it removed.
  - `os_replace` is modelled on three platforms: Python with `os.replace`, POSIX `rename`, and the emulation that retries up to five times.
  - `Memory` is a one-slot store.
  - `tiles_are_equal` and `write_tile_if_changed` decide whether a write is needed.
- **Reading JSON tiles.** `ensure_utf8_properties` turns text into UTF-8 byte strings. A UTF-8 encoder and decoder are proved to round-trip. The layer filtering and feature rebuilding of `decode_json_tile_for_layers` are modelled.
- **Layer configuration.** `LayerConfig` sorts and indexes the layer data. `parse_layer_spec` resolves a comma-separated request with the magic name `all`. `grouper` splits a sequence into chunks.

**Where state changes.**
- The filesystem is a class `LocalFs.FileSystem` whose `state` field the store methods update. `TileDirectory` and `Memory` are classes.
- Each state-changing method is proved equal to a step function of the old state. Those functions are in `LocalFs`, `Replace` and `TileStore`.
- The lemmas beside the step functions state what the source promises: no swap file is left behind, no partial tile is created, a write followed by a read returns the bytes written, and a deletion counts distinct tiles.
- The loops the source has are loops here: `os_replace`'s retries, `delete_tiles`, `ensure_utf8_properties`, the two loops of `decode_json_tile_for_layers`, both loops of `parse_layer_spec`, and `grouper`.

**Behaviour worth knowing.**
- Child order follows the tests. There, ModestMaps builds `Coordinate(row, column, zoom)` positionally. The root's children are therefore, in order: (row 0, column 0), (row 1, column 0), (row 0, column 1), (row 1, column 1). The row varies fastest.
- `decode_json_tile_for_layers` sets `is_clipped` to `False` on every layer. The JSON data was clipped when it was written, so the flag tells the later shape transform not to clip it again.
- `write_tile_if_changed` also writes when the existing data is the empty byte string, because that string is falsy.

The modules are:

| module | contents |
|---|---|
| `Common` | `Option`, `Result`, bytes, `Flatten` |
| `Decimal` | the numeral `str(int(n))` prints and its parser |
| `Quadtree` | coordinates and navigation |
| `TilePaths` | `os.path.join`, file paths and object keys |
| `LocalFs` | the filesystem |
| `Replace` | `os_replace` |
| `TileStore` | `TileDirectory`, `Memory`, `write_tile_if_changed` |
| `Utf8` | UTF-8 encoding |
| `JsonTile` | `ensure_utf8_properties` and `decode_json_tile_for_layers` |
| `Strings` | Python string order, `sorted`, `split` |
| `Utils` | `LayerConfig`, `parse_layer_spec` and `grouper` |

## Model

| member | source | states |
|---|---|---|
| Quadtree.Children | tests/test_tile.py:101-110 | A tile has exactly four children, one zoom deeper. They are pairwise distinct, and each halves (rounding down) back to the tile's column and row. Children of a tile inside its grid are inside theirs. |
| Quadtree.ChildrenOfRoot | tests/test_tile.py:101-110 | The root's children are exactly (row, column) = (0,0), (1,0), (0,1), (1,1) at zoom 1, in that order. |
| Quadtree.Parent | tests/test_tile.py:154-182 | The parent is one zoom up. The tile is one of its parent's children, and the parent of a valid tile is valid. |
| Quadtree.ParentAtGridCorner | tests/test_tile.py:166-182 | At every zoom z ≥ 1, the last tile of the grid (column = row = 2^z − 1) is valid. Its parent is the last tile of zoom z − 1, as in the zoom-20 and zoom-10 examples. |
| Quadtree.SeedTileParents | tests/test_tile.py:154-164 | Every tile that `seed_tiles(zs, zu)` yields with zs ≥ 1 has its parent among `seed_tiles(zs-1, zu-1)`. |
| Quadtree.LevelShape | tests/test_tile.py:35-42 | The descendants k zooms below a tile number 4^k, and all of them are at zoom + k. |
| Quadtree.RootLevelMembers | tests/test_tile.py:35-42 | The tiles k levels below the root are exactly the valid tiles of zoom k. |
| Quadtree.LevelsCount | tests/test_tile.py:19-42 | Levels lo..hi together hold (4^(hi+1) − 4^lo) / 3 tiles. |
| Quadtree.SeedTilesZoom0 | tests/test_tile.py:19-21 | `seed_tiles(0)` is the root alone. |
| Quadtree.SeedTilesZoom1 | tests/test_tile.py:23-33 | `seed_tiles(1)` is the root followed by its four children: five tiles. |
| Quadtree.SeedTilesPerZoom | tests/test_tile.py:35-42 | Grouped by zoom, the seed tiles hold exactly 4^k tiles of each zoom k in range and none of any other zoom. |
| Quadtree.SeedTilesCount | tests/test_tile.py:19-42 | `seed_tiles(zoom_until=z)` yields (4^(z+1) − 1) / 3 tiles. |
| Quadtree.SeedTilesMembers | tests/test_tile.py:19-42 | A tile is a seed tile exactly when it is valid and its zoom is in range. |
| Quadtree.ChildrenRangeTwoZooms | tests/test_tile.py:112-127 | For any tile, the range two zooms deep is its children followed by its children's children: 20 tiles. |
| Quadtree.ChildrenRangeExample | tests/test_tile.py:112-118 | The tested tile (row 3, column 4, zoom 2) lies outside its grid, and its range to zoom 4 still has 20 tiles. |
| Quadtree.ChildrenRangeCount | tests/test_tile.py:112-127 | The range to a maximum zoom d zooms down holds (4^(d+1) − 4) / 3 tiles. |
| Decimal.NatToString | tilequeue/store.py:84-96 | `str(int(n))` is a non-empty string of digits without leading zeros. It is one digit long exactly when n < 10. |
| Decimal.ParseNatToString | tilequeue/store.py:84-96 | Reading a printed numeral back gives the number. |
| Decimal.NatToStringInjective | tilequeue/store.py:84-96 | Distinct numbers print differently. |
| TilePaths.JoinNumeral | tilequeue/store.py:84-87 | Joining a numeral never discards the path before it, and the result ends in a digit. |
| TilePaths.FileInDirectory | tilequeue/store.py:84-96 | A tile's file path is its directory path, then `/`, the row, `.` and the extension. The file lies in the directory `write_tile` creates. |
| TilePaths.FilePathShape | tilequeue/store.py:90-96 | Below `base/layer`, the file path is `z/x/y.ext`. |
| TilePaths.CoordTailInjective | tilequeue/store.py:90-96 | `z/x/y.ext` determines the tile and the extension. |
| TilePaths.MakeFilePathInjective | tilequeue/store.py:90-96 | Under one base and layer, equal file paths mean the same tile and extension. |
| TilePaths.CalcHash | tilequeue/store.py:20-24 | The hash is 5 lower-case hex digits: the first five of the md5 digest. |
| TilePaths.S3TileKey | tilequeue/store.py:27-43 | The key is `/date/`, then the hash of the part after it, then that part. The part is `/path/layer/z/x/y.ext`, or `/layer/z/x/y.ext` when the path is empty. |
| TilePaths.S3KeyIndependentOfDate | tilequeue/store.py:27-43 | Everything after the date prefix, the hash included, is the same whatever the date. |
| TilePaths.S3KeyInjective | tilequeue/store.py:27-43 | With the same date, path, layer and extension, distinct tiles get distinct keys. |
| Replace.RetryRoundsOutcome | tilequeue/store.py:137-159 | The retry rounds only append calls, at most two per round. They raise exactly when the last call failed, and then only after every round, with the chained error. |
| Replace.RetryRoundsCalls | tilequeue/store.py:137-156 | The calls of the rounds are pairs: a remove of the destination, then a rename. Every rename but the last failed. |
| Replace.RetryRoundsFiles | tilequeue/store.py:137-159 | Success moves the source's bytes to the destination. After failing rounds only the destination is gone. Directories are untouched. |
| Replace.ReplaceTrace | tilequeue/store.py:99-159 | With `os.replace` or POSIX: one rename, and its error on failure. In the emulation: a first rename, then retry rounds that stop at the first success; at most 11 calls (6 renames). It raises exactly when the last rename failed, and then after all 11 calls with a chained `ReplaceError` whose cause is the rename error. |
| Replace.ReplaceFiles | tilequeue/store.py:99-159 | On success the destination holds what the source held, and the source is gone. On failure nothing moved, and at most (only in the emulation) the destination was removed. |
| Replace.ReplaceWithoutFaults | tilequeue/store.py:121-159 | With no injected failure, an existing source always reaches the destination. In the emulation the first retry's remove clears the destination. |
| Replace.OsReplace | tilequeue/store.py:99-159 | The loop as written leaves the filesystem, and returns the outcome, that `ReplaceSpec` gives. |
| LocalFs.TextModeWrite | tilequeue/store.py:194-195 | On Windows, writing in text mode stores each line feed as carriage return, line feed. The file is never shorter than the data. |
| LocalFs.TextModeRead | tilequeue/store.py:210-211 | On Windows, reading in text mode turns carriage return, line feed back into line feed and stops at Ctrl-Z. The result is never longer than the file. |
| LocalFs.UpToCtrlZ | tilequeue/store.py:210-211 | The data before its first Ctrl-Z byte, which holds no Ctrl-Z. |
| LocalFs.TextModeRoundTrip | tilequeue/store.py:193-214 | A tile written and read back in text mode on Windows comes back cut at its first Ctrl-Z byte. |
| LocalFs.TextModeCorruptsTiles | tilequeue/store.py:193-214 | A tile starting with Ctrl-Z reads back empty, and a line feed is stored as two bytes. |
| TileStore.SwapSuffix | tilequeue/store.py:186-191 | The swap suffix starts with `.`. |
| TileStore.SwapIsNoTile | tilequeue/store.py:184-191 | The swap file's name starts with its tile's file name. It is never the file of any tile of the same layer and format. |
| TileStore.WriteTileSucceeded | tilequeue/store.py:177-198 | After a successful write the tile's directory exists and the tile's file holds the data. The file lies in that directory. No swap file remains, and no other file changed. |
| TileStore.WriteTileFailed | tilequeue/store.py:193-204 | After a failed write no swap file remains and no partial tile exists. The tile's file is as before, or gone (only in the emulated replace). The error raised again is the swap file's open error when the open failed, and otherwise the replace's rename error, chained in the emulation. |
| TileStore.WriteTileWithoutFaults | tilequeue/store.py:177-204 | With no injected failure, `write_tile` succeeds. |
| TileStore.ReadTileSpec | tilequeue/store.py:206-214 | A read returns the file's bytes exactly when the file exists and the open succeeds, and `None` otherwise. Files and directories are left unchanged. |
| TileStore.WriteThenRead | tilequeue/store.py:177-214 | Reading a tile after writing it returns the bytes written, unless that open fails. Other tiles of the layer and format read as before. |
| TileStore.DeleteFiles | tilequeue/store.py:216-224 | Afterwards none of the listed tiles' files exist. Every other file, the directories and the oracle are unchanged. |
| TileStore.StoredAfterRemove | tilequeue/store.py:216-224 | Removing one tile's file changes whether that tile alone has a file. |
| TileStore.DeleteCount | tilequeue/store.py:216-224 | The count returned is the number of distinct listed tiles that had a file. A tile listed twice counts once. |
| TileStore.TileDirectory.constructor | tilequeue/store.py:167-175 | The base directory exists afterwards. |
| TileStore.TileDirectory.WriteTile | tilequeue/store.py:177-204 | The method does what `WriteTileSpec` says. |
| TileStore.TileDirectory.ReadTile | tilequeue/store.py:206-214 | The method does what `ReadTileSpec` says. |
| TileStore.TileDirectory.DeleteTiles | tilequeue/store.py:216-224 | The loop leaves the filesystem, and returns the count, that `DeleteSpec` gives. |
| TileStore.Memory.constructor | tilequeue/store.py:235-236 | A new memory store is empty. |
| TileStore.Memory.Contents | tilequeue/store.py:241-245 | What a read returns: `None` when empty, else the data last written. |
| TileStore.Memory.WriteTile | tilequeue/store.py:238-239 | The slot holds the new tile with its key. A read then returns its data. |
| TileStore.Memory.ReadTile | tilequeue/store.py:241-245 | Returns the last tile written, whatever key is asked for, and `None` before any write. |
| TileStore.TilesAreEqual | tilequeue/store.py:257-269 | For the zip format, the verdict of `metatiles_are_equal`. For every other format, byte equality. |
| TileStore.ShouldWrite | tilequeue/store.py:280-282 | Write when nothing or an empty string was read. Otherwise write exactly when the tiles are not equal: bytes for ordinary formats, `metatiles_are_equal` for zip. |
| TileStore.IfChangedOutcome | tilequeue/store.py:272-286 | Returning False leaves every file and directory as it was. Returning True means the tile's file holds the new data, and a read returns it unless the open fails. |
| TileStore.IfChangedIdempotent | tilequeue/store.py:272-286 | For a byte-compared format, writing the same non-empty data a second time writes nothing, unless the read fails. |
| TileStore.WriteTileIfChanged | tilequeue/store.py:272-286 | On a directory, the read and the conditional write, as `IfChangedSpec` gives them. On a memory store, the result is whether the data differs from the last tile written. True stores the new tile; False leaves the slot unchanged. |
| Utf8.EncodeChar | tilequeue/store.py:292-295 | A character encodes to 1–4 bytes: one byte exactly for ASCII, else a lead byte and continuation bytes. |
| Utf8.DecodeEncode | tilequeue/store.py:292-295 | Decoding the UTF-8 encoding of any string gives the string back. |
| Utf8.EncodeInjective | tilequeue/store.py:292-295 | Distinct strings encode differently. |
| Utf8.EncodeAscii | tilequeue/store.py:292-295 | ASCII text encodes to the same code units. |
| JsonTile.EncodeText | tilequeue/store.py:292-295 | Text becomes a byte string that decodes back to it. Any other value is left as it is. |
| JsonTile.Utf8Props | tilequeue/store.py:289-297 | The keys are the encoded keys of the items. No key or value is text. |
| JsonTile.Utf8PropsLastWins | tilequeue/store.py:289-297 | Each key holds the encoded value of the last item with that encoded key. |
| JsonTile.Utf8PropsKeepsBytes | tilequeue/store.py:289-297 | Properties without text, with distinct keys, come out unchanged. |
| JsonTile.EnsureUtf8Properties | tilequeue/store.py:289-297 | The loop builds the dictionary `Utf8Props` describes. |
| JsonTile.DecodeFeatures | tilequeue/store.py:307-321 | One decoded feature per JSON feature, in order. |
| JsonTile.KeptIndices | tilequeue/store.py:301-306 | The positions of the layers with requested names, increasing, and all of them. |
| JsonTile.DecodeLayersSelect | tilequeue/store.py:300-331 | The result is exactly the requested layers, in the tile's order, each under its own name. Each keeps its feature count and has `is_clipped` False. Each feature's shape is its reprojected geometry, its properties are `ensure_utf8_properties` of its own, and its id is `None`. |
| JsonTile.DecodeJsonTileForLayers | tilequeue/store.py:300-331 | The loops build what `DecodeLayers` describes, keeping the names of `layer_data`. |
| Strings.LessTotal | tilequeue/utils.py:66 | Python's string order is total. |
| Strings.LessTransitive | tilequeue/utils.py:66 | Python's string order is transitive. |
| Strings.Insert | tilequeue/utils.py:66 | Insertion adds exactly one copy of the string. |
| Strings.Sort | tilequeue/utils.py:66 | `sorted` is a permutation. |
| Strings.SortSorted | tilequeue/utils.py:66 | `sorted` returns a non-decreasing list. |
| Strings.StrictlySortedUnique | tilequeue/utils.py:89 | Two increasing lists with the same elements are equal, so sorting a set has one answer. |
| Strings.Split | tilequeue/utils.py:81 | `split(',')` gives at least one field, and no field holds a comma. |
| Strings.JoinSplit | tilequeue/utils.py:81 | Joining the fields with the separator gives back the string. |
| Strings.SplitJoin | tilequeue/utils.py:81 | Splitting joined fields that hold no separator gives back the fields. |
| Utils.ByName | tilequeue/utils.py:68-69 | Every datum's name is a key, and each key maps to a datum of the list with that name. |
| Utils.ByNameLastWins | tilequeue/utils.py:68-69 | A name maps to the last datum bearing it. |
| Utils.MakeLayerConfig | tilequeue/utils.py:65-71 | Construction fails (the KeyError) exactly when some configured name has no datum. |
| Utils.LayerConfigShape | tilequeue/utils.py:65-71 | The names are the given ones, sorted. `all_layers` holds one datum per name, in that order, each the datum of that name. |
| Utils.AllNamesKnown | tilequeue/utils.py:70-71 | Every layer `all` stands for has a datum of its own name. |
| Utils.WithoutAll | tilequeue/utils.py:91-93 | Dropping `all` keeps every other name. |
| Utils.WithoutAllSorted | tilequeue/utils.py:91-93 | Dropping `all` keeps the list increasing. |
| Utils.CollectNames | tilequeue/utils.py:82-88 | The set is the listed names, plus every configured layer name when `all` is listed. |
| Utils.SortedNames | tilequeue/utils.py:89 | The set's elements in increasing order. |
| Utils.LookUpNames | tilequeue/utils.py:90-97 | `None` exactly when a name other than `all` is unknown. Otherwise one datum per name, `all` skipped, in order, each the datum of its name. |
| Utils.ParseLayerSpec | tilequeue/utils.py:74-98 | `all` gives `all_layers`. Any other spec gives `None` exactly when a listed name other than `all` is unknown. Otherwise the result is increasing by name with no duplicates and no `all`. It holds every listed known name, every layer when `all` is listed, and each layer's own datum. |
| Utils.Grouper | tilequeue/utils.py:21-28 | The chunks concatenate to the input. Each is non-empty and at most n long, and all but the last are exactly n. An empty input, or n = 0, gives no chunks. |

## Left out

- The `S3` store class and `make_s3_store` wrap boto bucket calls, whose behaviour the model cannot see. Only the key function `s3_tile_key` is modelled.
- md5 is not modelled. `calc_hash` and `s3_tile_key` take the digest function as a parameter that returns 32 lower-case hex digits.
- `zip_format` and `metatiles_are_equal` are defined elsewhere. They are the parameter `TileEquality`.
- `reformat_selected_layers` is a chain of calls into shapely, the shape transform and the format encoders, on floating-point bounds. That includes its fixed coordinate scale of 4096 at tilequeue/store.py:351.
- JSON parsing and shapely are not modelled. The tile arrives as its parsed layer items, and reprojection to Mercator is the parameter `toMercator`.
- The dictionary lookups `['features']`, `['geometry']` and `['properties']` (tilequeue/store.py:308-314) and `['name']` (tilequeue/store.py:301, tilequeue/utils.py:69) raise KeyError when the key is missing. In the model every layer, feature and layer datum is a typed record that carries them, so these errors are not modelled.
- The projection, bounds and bounded tile-generation tests of tests/test_tile.py use floating-point Mercator math.
- tilequeue/tile.py is outside this model, and with it the bit layout of `coord_marshall_int` and `coord_int_zoom_up`, which are not modelled. The parent step they are tested against is `Quadtree.Parent`.
- The process id, the thread ident and the random number in the swap file name are inputs (`SwapTag`), not real process, thread or random state.
- Concurrency is not modelled: no other writers or removers run in parallel. The failure oracle stands in for the races the retries tolerate.
- `parse_log_file`, `format_stacktrace_one_line` and `mimic_prune_tiles_of_interest_sql_structure` are regular-expression, traceback and SQL glue.
- The `TileDirectory` constructor does not check for an existing non-directory and does not raise. It only ensures that the base directory exists, and every `makedirs` is modelled simply as "the directory exists afterwards".
- `make_tile_file_store` only supplies the default base path `tiles`.
- `LocalFs.WriteStep` and `LocalFs.ReadStep` treat files as binary, byte for byte, on every platform. That is the POSIX behaviour. The source opens tile files in text mode (`'w'`, `'r'`), and on Windows, where the emulated replace runs, text mode translates line ends and stops reading at Ctrl-Z. The store lemmas (`TileStore.WriteTileSucceeded`, `TileStore.WriteThenRead`, `TileStore.IfChangedIdempotent`) hold for binary files. The translation is modelled separately by `LocalFs.TextModeWrite` and `LocalFs.TextModeRead`; see Findings.
- `Quadtree.Coord` has natural-number fields. ModestMaps coordinates may hold floats, which `str(int(...))` in `make_dir_path` and `make_file_path` and `%d` in `s3_tile_key` truncate. The model starts from the integers after that truncation.
- `LocalFs.RemoveStep`: removing an existing file always succeeds. Only a missing file makes `os.remove` fail, so faults come only from opens and renames.
- `LocalFs.WriteStep` does not require the parent directory to exist. A failing open comes only from the oracle.
- `TilePaths.Join` is POSIX `os.path.join`. The Windows variant, with drive letters and backslashes, is left out.
- `Utf8.EncodeChar` works on Unicode scalar values. Python 2's narrow-build surrogate code units are not modelled.
- `Memory` has no `delete_tiles`, just as in the source.
- Python has no traits or interfaces for the stores. The dispatch of `write_tile_if_changed` over the two local stores uses the datatype `TileStore.Store`.
- `Utils.Grouper`: its contract does not state the number of chunks, ⌈|xs| / n⌉. That follows from the chunk lengths but involves non-linear arithmetic. A negative n, which makes `islice` raise, is excluded because n is a `nat`.

## Findings

| source | as written | input that shows it | evidently intended | confidence | as-written member | corrected member |
|---|---|---|---|---|---|---|
| tilequeue/store.py:193-214 | Tile files are opened in text mode, `open(path, 'w')` and `open(path, 'r')`. On Windows, text mode writes each line feed as two bytes and stops reading at the first Ctrl-Z (0x1A). | A binary tile `[0x1A, 0x01]` reads back as the empty string. A tile `[0x0A]` is stored as `[0x0D, 0x0A]`. | Open with `'wb'` and `'rb'`, so that a read returns exactly the bytes written on every platform. | medium, not executed | LocalFs.TextModeRoundTrip | TileStore.WriteThenRead |
