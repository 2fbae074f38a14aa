# goesbrowse catalog, web helpers and configuration, in Dafny

goesbrowse keeps a catalog of satellite images and text products received
from GOES satellites. It has three parts, and this project models each:

- **The catalog.** This is `goesbrowse/database.py`.
  - Ingestion (`update_file`, `update`) turns each JSON sidecar under the
    root into a `File` row with its `Product` rows: the data file, the
    sidecar and an optional thumbnail.
    - The file name is split to recover the capture date, the source, the
      region and the channel.
    - A `Projection` row is read from the sidecar's navigation block and
      shared between files.
  - The quota sweep (`get_above_quota`, `clean`) gives up the oldest files
    until the total size fits the quota. It then prunes empty directories
    (`remove_empty_dirs`).
- **The web front end's pure and stateful helpers.** These are in
  `goesbrowse/application.py`:
  - `Pagination` and its `iter_pages` link generator;
  - the two URL converters for products and filter sets;
  - the `human_*` display helpers;
  - the argument-map helpers `url_for_args` and `url_for_filters`.
- **The configuration.** This is `goesbrowse/config.py`: TOML files that
  `inherit` other files, merged into one `Config`, and `discover`, which
  picks the file to load.

## Layout

The modules are listed in dependency order.

- `Wrappers` defines `Option` and `Result`. A `Result`'s error is the
  exception that Python would raise.
- `Text` holds the `str` operations the source relies on:
  - `split`, `rsplit` and `join`;
  - ASCII case mapping;
  - decimal printing and parsing.
- `Timestamps` holds date-times and the two fixed `strptime` formats.
- `Documents` holds JSON values and key lookup, including `KeyError` and
  `TypeError`.
- `Projections` covers `from_nav`, `from_meta` and `find_or_insert` on the
  projection table.
- `Catalog` holds the `File` and `Product` records, `get_product`, `ext`,
  total sizes and the date order.
- `FileSystem` is the directory tree under the root. It is a class whose
  methods unlink and save files and prune empty directories.
- `Ingest` holds the file-name heuristics and the date override of
  `update_file`.
- `Quota` holds the eviction rule, plus the `get_size` of an empty catalog
  as written.
- `Database` is the `Database` class: the session rows and the committed
  rows, with `update_file`, `update`, `clean` and `get_above_quota`.
- `Pages`, `Converters`, `Humanize` and `UrlArgs` cover `application.py`.
- `Configuration` covers `config.py`.

### Inputs rather than models

Effects the source gets from libraries are inputs to the model:

- JSON and TOML decoding;
- `stat` sizes, a directory's own size included;
- image decoding and thumbnail sizes;
- `pathlib` resolution and `expanduser`;
- `exists`;
- `humanfriendly.parse_size`;
- the channel and AWIPS code tables.

The database's `Env` and the configuration's `Env` datatypes collect these
inputs.

## Model

| member | source | states |
|---|---|---|
| Text.SplitAll | goesbrowse/application.py:199 | `str.split(sep)` yields one more piece than there are separators; no piece holds the separator, and joining the pieces gives the input back |
| Text.SplitAllJoin | goesbrowse/application.py:199-203 | splitting a join of separator-free pieces gives those pieces back |
| Text.SplitN | goesbrowse/application.py:176 | `str.split(sep, n)` makes at most n cuts, at the first separators; the pieces join back to the input |
| Text.RSplitN | goesbrowse/database.py:257 | `str.rsplit(sep, n)` makes at most n cuts, at the last separators; the pieces join back to the input |
| Text.Capitalize | goesbrowse/application.py:103 | `str.capitalize`: first character upper-cased, the rest lower-cased, length kept |
| Text.NatToString | goesbrowse/application.py:181-183 | decimal form of a number: digits only, no leading zero, reads back to the number |
| Text.Pad2 | goesbrowse/application.py:181-182 | `%m`/`%d`/`%H`/`%M`/`%S`: exactly two digits below 100, no leading zero beyond two digits, reading back to the number |
| Text.ParseIntOfNatToString | goesbrowse/application.py:176-183 | `int()` reads back the decimal form of every natural number |
| Timestamps.ParseFileDate | goesbrowse/database.py:255-258 | `strptime(s, '%Y%m%dT%H%M%SZ')` only accepts 16-character stamps of real calendar date-times |
| Timestamps.ParseIsoDate | goesbrowse/database.py:291-292 | `strptime(s, '%Y-%m-%dT%H:%M:%SZ')` only accepts 20-character stamps of real calendar date-times |
| Timestamps.FileDateRoundTrip | goesbrowse/database.py:255-258 | every valid date-time written in the file-name format is read back exactly |
| Timestamps.IsoDateRoundTrip | goesbrowse/database.py:291-292 | every valid date-time written in the ISO format is read back exactly |
| Timestamps.FileDateIgnoresCase | goesbrowse/database.py:258 | the literal `T` and `Z` also match in lower case, as `strptime` does |
| Documents.Get | goesbrowse/database.py:290-294 | `d[key]` succeeds exactly on an object that has the key; otherwise `KeyError`, or `TypeError` for a non-object |
| Documents.Get2 | goesbrowse/database.py:291 | `d[a][b]` succeeds exactly when both levels are objects that have the keys |
| Projections.MatchProjectionName | goesbrowse/database.py:136-138 | a match of `^geos\((...)\)$` (any case) captures a longitude lexeme of signs and digits with at most one point |
| Projections.FloatOf | goesbrowse/database.py:139 | `float()` of the captured lexeme succeeds exactly on a signed decimal number |
| Projections.FromNav | goesbrowse/database.py:125-149 | a missing navigation key gives `None`; a non-object block or a non-string name raises `TypeError`; a name the pattern rejects gives `None`; a matched number `float()` rejects raises `ValueError`; otherwise the row carries the sidecar's offsets, scales and the parsed longitude |
| Projections.FromMeta | goesbrowse/database.py:151-166 | the size comes from `SegmentIdentification`; only a `KeyError` there falls back to `ImageStructure`; neither pair, or no `ImageNavigation`, gives `None`; a block that is not a dictionary raises `TypeError`; otherwise the result is `from_nav` of that size |
| Projections.FromNavReadsLongitude | goesbrowse/database.py:136-149 | `geos(n)` in any case yields a row whose `lon_0` is n |
| Projections.FromNavCanRaiseOnMatchedName | goesbrowse/database.py:136-139 | `geos(1-2)` passes the regular expression, but `float()` then raises `ValueError` |
| Projections.TrailingNewlineAccepted | goesbrowse/database.py:136 | `$` also matches before a final newline, so `geos(5)\n` is accepted |
| Projections.FindOrInsertKeepsTableUnique | goesbrowse/database.py:109-123 | `find_or_insert` returns the first row equal to the new one and leaves the table unchanged exactly when one exists; otherwise it appends the new row; the table stays free of duplicates |
| Projections.FindOrInsertSharesEqualRows | goesbrowse/database.py:109-123 | two equal projections inserted in turn end up as the same row |
| Catalog.LocateOfPathString | goesbrowse/database.py:324-331 | a stored relative path (`str()` of the path) reads back to the same components |
| Catalog.GetProduct | goesbrowse/database.py:40-44 | `get_product` returns the first product whose type matches the query, and `None` exactly when none matches |
| Catalog.GetProductQueriesAgree | goesbrowse/database.py:40-44 | asking by enum member, by its name or by its integer value finds the same product |
| Catalog.LowerCaseNameFindsNothing | goesbrowse/database.py:42 | enum names are compared case-sensitively, so `'main'` finds nothing |
| Catalog.Ext | goesbrowse/database.py:65-67 | `ext` is lower case and holds no `.` or `/` |
| Catalog.ExtOfNamedFile | goesbrowse/database.py:65-67 | the extension of `dir/stem.e` is `e` in lower case |
| Catalog.HiddenFileHasNoExt | goesbrowse/database.py:67 | a dot-file such as `.json` has no suffix |
| Catalog.TotalSizeAppend | goesbrowse/database.py:175-182 | the summed product size of two lists of files is the sum of their sizes |
| Catalog.SortByDate | goesbrowse/database.py:197 | `order_by(File.date)` yields the same files in date order |
| Catalog.SortByDateKeepsSize | goesbrowse/database.py:192-199 | reordering by date does not change the total size |
| FileSystem.PrunedKeepsTree | goesbrowse/database.py:204-213 | removing the pruned directories leaves a well-formed tree (every parent still exists) |
| FileSystem.PrunedStaysInside | goesbrowse/database.py:204-213 | pruning never removes the root, nor anything outside the starting directory |
| FileSystem.DryRunPruneAtRootRemovesAsMuch | goesbrowse/database.py:209-213 | from the root, a dry run prunes exactly what a real run prunes |
| FileSystem.DryRunPruneDeletesEmptyDirectory | goesbrowse/database.py:209-213 | a dry run from the root still deletes an empty sub-directory |
| FileSystem.EmptyAfterPruning | goesbrowse/database.py:206-210 | after the children are pruned, a directory lists nothing exactly when no file lies under it |
| FileSystem.FileTree.RemoveEmptyDirs | goesbrowse/database.py:204-213 | recursing through the sub-directories removes exactly `Pruned(...)`: the recursion drops `dry_run`; files and the tree shape are kept |
| FileSystem.FileTree.RemoveEmptyDirsIntended | goesbrowse/database.py:204-213 | the same walk passing `dry_run` on: a dry run removes nothing |
| FileSystem.FileTree.Unlink | goesbrowse/database.py:225-228 | `unlink` removes the file if present (`FileNotFoundError` is ignored); a directory is refused; directories are unchanged |
| FileSystem.FileTree.Save | goesbrowse/database.py:344-345 | `im.save` writes the file exactly when its parent directory exists and no directory has that name |
| Ingest.SplitFileName | goesbrowse/database.py:254-273 | a split that is accepted carries a valid date and came from a stem with `_`; a rejected one raises `ValueError` |
| Ingest.NameThenDateRecognised | goesbrowse/database.py:256-260 | `name_DATE` is read as name and date, with metadata taken from the name |
| Ingest.NameDateRegionRecognised | goesbrowse/database.py:262-268 | `name_DATE_region` becomes name `name_region`, with region and channel to be swapped |
| Ingest.DateThenNameRecognised | goesbrowse/database.py:256-273 | `DATE_name` is read as date then name, without metadata from the name, whenever neither of the name's last two `_`-pieces is a date (the name may hold `_`) |
| Ingest.FirstGuessFails | goesbrowse/database.py:257-258 | on `DATE_name` the first guess reads the name's last `_`-piece as the date |
| Ingest.SecondGuessFails | goesbrowse/database.py:263-265 | on `DATE_name` the second guess needs three pieces, and then reads the name's second-to-last `_`-piece as the date |
| Ingest.NoUnderscoreRejected | goesbrowse/database.py:270-271 | a stem without `_` makes `update_file` raise `ValueError` |
| Ingest.DeriveLabels | goesbrowse/database.py:275-287 | the labels come from the name when it has two `_`, else they are unset; otherwise the source is the first path component; region and channel are both set or both unset |
| Ingest.LabelsFromPlainName | goesbrowse/database.py:279-285 | `source_region_channel_DATE` yields those three labels |
| Ingest.LabelsFromSwappedName | goesbrowse/database.py:280-283 | `source_channel_DATE_region` yields region and channel in their right places |
| Ingest.OverrideDate | goesbrowse/database.py:289-294 | a `KeyError` from either lookup keeps the file-name date; a non-dictionary level or a non-string stamp raises `TypeError`; a malformed stamp raises `ValueError`; a well-formed stamp replaces the date |
| Ingest.TimeStampOverrides | goesbrowse/database.py:290-292 | a well-formed `TimeStamp.ISO8601` value is the date recorded |
| Ingest.EmptyTimeStampKeepsFileDate | goesbrowse/database.py:290-294 | a `TimeStamp` object without `ISO8601` keeps the file-name date |
| Ingest.Describe | goesbrowse/database.py:254-294 | the name comes from the file-name split, the date from the time-stamp override of the split's date, the labels from the name; it fails exactly when the split or the override raises, with that error |
| Quota.ShortestCoverUnique | goesbrowse/database.py:196-202 | for a given date order of the files, the files the sweep selects are determined by that order and the excess |
| Quota.CleanRemovesJustEnough | goesbrowse/database.py:188-202 | after the selected files go, the rest fits the quota, and keeping the last selected file would not |
| Quota.NegativeQuotaSelectsAll | goesbrowse/database.py:188-202 | a negative quota selects every file, oldest first |
| Quota.NoProductsNoSize | goesbrowse/database.py:175-182 | a catalog without products has total size 0 |
| Quota.SizeAsWritten | goesbrowse/database.py:175-182 | `get_size` is `None` exactly when no product exists, else the total size |
| Quota.ExcessAsWritten | goesbrowse/database.py:191 | `size - quota` raises `TypeError` exactly when no product exists, else it is the total size less the quota |
| Quota.EmptyCatalogRaises | goesbrowse/database.py:179-192 | with a quota set, an empty catalog makes `get_above_quota` raise `TypeError`, where the intended selection is empty |
| Database.WithoutMembers | goesbrowse/database.py:229-231 | deleting rows by id keeps exactly the other rows |
| Database.WithoutTwice | goesbrowse/database.py:229-231 | deleting two id sets in turn equals deleting their union |
| Database.CatalogValidWithout | goesbrowse/database.py:229-231 | deleting rows keeps the catalog invariant: unique paths and ids, and projection references in range |
| Database.ThumbnailPath | goesbrowse/database.py:341 | `with_suffix('.thumbnail.' + ext)` keeps the directories and names the file `stem.thumbnail.ext` |
| Database.ThumbnailOfDataFile | goesbrowse/database.py:341 | the thumbnail of `dir/stem.e` is `dir/stem.thumbnail.e`: same extension, stem grown by `.thumbnail` |
| Database.ReadSidecar | goesbrowse/database.py:237-252 | a sidecar not on disk, or not decodable, raises; one that reads has its data path on disk as a file or a directory, and the root has no suffix |
| Database.ReadSidecarReads | goesbrowse/database.py:243-252 | a readable sidecar yields the data path, both sizes (a directory's `stat` size for a directory) and the lower-cased suffix |
| Database.ReadSidecarAcceptsDirectory | goesbrowse/database.py:246-251 | a `Path` naming a directory, the root included, still reads: its size is the directory's, and the root is stored as `.` with no suffix |
| Database.ProductsFor | goesbrowse/database.py:323-353 | a new file gets a MAIN and a META product (data, then sidecar) and a THUMBNAIL exactly for `jpg` with thumbnails on |
| Database.IngestedRowNeedsName | goesbrowse/database.py:254-314 | an ingested row exists only for a sidecar whose stem the file-name split accepts, and carries that name |
| Database.AppendKeepsCatalogValid | goesbrowse/database.py:321-338 | adding a row with fresh id and fresh paths keeps paths unique (the `unique=True` column) |
| Database.Database.constructor | goesbrowse/database.py:170-173 | the model's starting state: the given quota, thumbnail size and tree, and empty tables (an existing SQL database is not modelled) |
| Database.Database.FindOrInsert | goesbrowse/database.py:109-123 | the session's projection table changes as `find_or_insert` specifies; files are untouched |
| Database.Database.GetAboveQuota | goesbrowse/database.py:188-202 | the selection is empty without a quota or excess, else the shortest date-ordered prefix covering the excess |
| Database.TakeUntilCovered | goesbrowse/database.py:196-202 | the loop that subtracts sizes and stops once the excess is covered yields the shortest covering prefix |
| Database.Database.AttachProjection | goesbrowse/database.py:299-308 | only `jpg` data gets a projection, found or inserted; an undecodable image raises; earlier rows are kept |
| Database.Database.SaveThumbnail | goesbrowse/database.py:340-353 | the thumbnail is written and listed only for `jpg` with thumbnails on; the product list is `ProductsFor` |
| Database.Database.UpdateFile | goesbrowse/database.py:236-240 | a sidecar already in the catalog is skipped with nothing changed; otherwise exactly its `IngestedRow` is appended and its thumbnail written (`UpdateStep`), or nothing is added on error |
| Database.Database.AddFile | goesbrowse/database.py:241-353 | on success exactly one row is appended, built as `IngestedRow` describes from the sidecar read off the disk before the call; on error the rows are unchanged |
| Database.Database.AddRead | goesbrowse/database.py:299-353 | once the sidecar is read: the projection is attached, the thumbnail written, and exactly one row appended whose columns and products come from the sidecar (`RowFrom`); on error the rows are unchanged |
| Database.Database.AppendRow | goesbrowse/database.py:321-338 | the new row goes at the end with the next id; the catalog's paths grow by exactly the row's paths and the invariant is kept |
| Database.Database.Update | goesbrowse/database.py:215-218 | every sidecar visited ends up in the catalog and the session is committed; the rows added are, in the order of the sidecars, one `IngestedRow` per sidecar not yet listed (`UpdateTrace`); on error nothing is committed |
| Database.Database.UpdateTurn | goesbrowse/database.py:216-217 | one turn of the loop extends the trace by that sidecar's `UpdateStep`, and cannot fail for a sidecar already listed |
| Database.TurnsListAll | goesbrowse/database.py:216-217 | after its turns every sidecar is listed as a product |
| Database.TurnsCover | goesbrowse/database.py:216-217 | the turns add at most one row each, and every added row is added by some turn |
| Database.UpdateAddsIngestedRows | goesbrowse/database.py:215-218 | a successful `update` adds at most one row per sidecar, each the `IngestedRow` of one of them with the next id in turn |
| Database.Database.Clean | goesbrowse/database.py:220-234 | the selected files are deleted with their products and backing files and committed; a dry run changes no row and no file, but the prune, whose recursion drops `dry_run`, still removes `Pruned(...)`; as written except the empty-catalog size, see Findings |
| Database.Database.CleanIntended | goesbrowse/database.py:220-234 | the same with `dry_run` passed down the prune: a dry run changes nothing at all |
| Database.Database.DeleteAboveQuota | goesbrowse/database.py:220-232 | the selection is the `AboveQuota` one; unless a dry run, its rows and backing files go and are committed; no directory changes |
| Database.Database.DeleteFiles | goesbrowse/database.py:221-231 | the selected files' products are unlinked and the rows dropped, keeping the invariant |
| Database.Database.UnlinkProducts | goesbrowse/database.py:222-228 | every product's file is unlinked, a missing one skipped; a product that is a directory raises and no directory is touched |
| Database.Database.DeleteRow | goesbrowse/database.py:229-231 | exactly the rows with the given id leave the catalog, in order, and the invariant is kept |
| Pages.CeilDiv | goesbrowse/application.py:216 | `ceil(total / per_page)` is the least page count covering `total` |
| Pages.MakePagination | goesbrowse/application.py:210-221 | `pages` is the ceiling of `total / per_page`; `has_next`/`has_prev` and `next_num`/`prev_num` as the page's position says; the items are the page's slice of the listing, `per_page` long when enough rows exist and the rest of the listing otherwise |
| Pages.PageAt | goesbrowse/application.py:223-232 | `page_at` is `None` exactly for a falsy or out-of-range page, else the same listing at that page |
| Pages.NextExactlyWhenHasNext | goesbrowse/application.py:234-235 | `next()` exists exactly when `has_next`, and is one page on |
| Pages.PrevExactlyWhenHasPrev | goesbrowse/application.py:237-238 | `prev()` exists exactly when `has_prev`, and is one page back |
| Pages.NextThenPrev | goesbrowse/application.py:234-238 | going next then prev returns the same page |
| Pages.PrevThenNext | goesbrowse/application.py:234-238 | going prev then next returns the same page |
| Pages.PagesTile | goesbrowse/application.py:219 | consecutive pages start `per_page` rows apart, so the pages tile the listing |
| Pages.YieldRun | goesbrowse/application.py:242-246 | a `while page <= last` run yields consecutive valid pages and stops (returns) at the first invalid one; a run that does not stop ends at `last + 1`, or where it began when that is past `last` |
| Pages.YieldGap | goesbrowse/application.py:248-250 | a jump forward yields one `None` gap; no jump yields nothing |
| Pages.IterPagesHead | goesbrowse/application.py:240-256 | the first two runs start at page 1 and reach the current page |
| Pages.IterPages | goesbrowse/application.py:240-266 | `iter_pages` yields valid pages in increasing order, adjacent numbers unless a `None` marks a skip, starting at 1 and including the current page |
| Converters.ProductToPython | goesbrowse/application.py:175-178 | `to_python` reads the id before the first `/` |
| Converters.ProductUrlFields | goesbrowse/application.py:173-183 | `to_url` writes id, date, time and name as four `/`-separated fields matching the route pattern |
| Converters.ProductReadsFirstField | goesbrowse/application.py:176 | only the text before the first `/` is read |
| Converters.ProductRoundTrip | goesbrowse/application.py:175-183 | `to_python(to_url(f))` is `f.id` |
| Converters.SortedKeys | goesbrowse/application.py:203 | `sorted(value.items())` lists each key once, in strictly increasing order |
| Converters.DictOf | goesbrowse/application.py:200 | `dict(pairs)` raises `ValueError` at the first element whose length is not 2; otherwise its keys are the elements' first parts |
| Converters.DictOfLastPairWins | goesbrowse/application.py:200 | each key of `dict(pairs)` holds the value of its last pair |
| Converters.FilterToPython | goesbrowse/application.py:198-200 | `to_python` as written, splitting each piece with `split(':', 2)` |
| Converters.FilterToPythonIntended | goesbrowse/application.py:198-200 | `to_python` splitting each piece at its first `:` |
| Converters.FilterRoundTrip | goesbrowse/application.py:198-204 | for filters without `/` or `:`, `to_python(to_url(m))` is `m` |
| Converters.FilterRoundTripIntended | goesbrowse/application.py:196-204 | with the corrected split, values may contain `:` and still round-trip |
| Converters.ColonValueRejected | goesbrowse/application.py:196-200 | `a:b:c` matches the route pattern, yet `to_python` raises `ValueError` |
| Converters.ColonValueAcceptedIntended | goesbrowse/application.py:196-200 | the corrected split reads `a:b:c` as `{a: b:c}` |
| Converters.PatternParsesIntended | goesbrowse/application.py:196-200 | with the corrected split, every input matching the route pattern parses |
| Humanize.HumanType | goesbrowse/application.py:101-103 | `human_type` upper-cases the first character and lower-cases the rest, keeping the length and the letters |
| Humanize.HumanTypeIdempotent | goesbrowse/application.py:101-103 | `human_type` ignores the case of its input, and applying it twice equals applying it once |
| Humanize.HumanSource | goesbrowse/application.py:105-111 | names starting with `goes`, and `nws`, in any case, are upper-cased; others are capitalised |
| Humanize.HumanSourceKeepsLetters | goesbrowse/application.py:105-111 | `human_source` changes only case |
| Humanize.HumanSourceIgnoresCase | goesbrowse/application.py:105-111 | inputs that differ only in case display the same |
| Humanize.HumanSourceIdempotent | goesbrowse/application.py:105-111 | applying `human_source` twice is applying it once |
| Humanize.HumanRegion | goesbrowse/application.py:113-115 | `human_region` is upper case and keeps the letters |
| Humanize.HumanChannel | goesbrowse/application.py:117-125 | table entry of the lower-cased name, else of it without its last character, else the name upper-cased |
| Humanize.HumanChannelIgnoresCase | goesbrowse/application.py:117-125 | channel names that differ only in case display the same |
| Humanize.HumanChannelPrefersFullName | goesbrowse/application.py:121-124 | the full name wins over the shortened one |
| Humanize.HumanNnn | goesbrowse/application.py:127-133 | table entry of the lower-cased code, else the code upper-cased |
| Humanize.HumanStyle | goesbrowse/application.py:135-140 | `falsecolor` in any case shows as `False Color`, others capitalised |
| Humanize.FalseColorAnyCase | goesbrowse/application.py:137-139 | `FalseColor` and `FALSECOLOR` both show as `False Color` |
| Humanize.HumanStyleIgnoresCase | goesbrowse/application.py:135-140 | styles that differ only in case display the same |
| UrlArgs.UrlForArgs | goesbrowse/application.py:143-154 | keywords that are `None`, or `page` equal to 1, are absent; other keywords are set; other keys keep the query argument, else the view argument |
| UrlArgs.OverlayRequest | goesbrowse/application.py:145-147 | query arguments override view arguments; keys are the union |
| UrlArgs.ApplyKeywords | goesbrowse/application.py:148-153 | each keyword is deleted or set; keys not named are left alone |
| UrlArgs.UrlForFilters | goesbrowse/application.py:157-167 | the result's `filters` is a copy edited by the keywords (`None` deletes); other view arguments are unchanged; a non-dict `filters` raises |
| UrlArgs.AddingFiltersKeepsCurrent | goesbrowse/application.py:159-166 | adding new filters keeps every current filter and grows the set by exactly the new names |
| Configuration.Set | goesbrowse/config.py:21-28 | `database` and `files` are resolved against the file's folder and must be strings; `quota` and `use_x_accel_redirect` are stored as given |
| Configuration.AfterSetIfPresent | goesbrowse/config.py:16-18 | an absent key changes nothing; a present key sets the field and is popped from the table |
| Configuration.ParseQuota | goesbrowse/config.py:25-26 | an `int` (or `bool`) quota is kept; a string is parsed by `parse_size`; anything else raises |
| Configuration.AfterMerge | goesbrowse/config.py:20-28 | `merge` consumes exactly the four known keys and leaves an integer quota |
| Configuration.MergeTakesKeys | goesbrowse/config.py:20-28 | each key present sets its field, each key absent leaves it as it was |
| Configuration.InheritItems | goesbrowse/config.py:39 | `inherit` iterates a list's elements or a string's characters; other values raise |
| Configuration.Load | goesbrowse/config.py:30-45 | a loaded file leaves an integer quota |
| Configuration.LoadAllKeepsError | goesbrowse/config.py:39-40 | an inherited file that fails stops the loop with its exception |
| Configuration.LoadAcceptsOnlyKnownKeys | goesbrowse/config.py:42-44 | a file that loads holds no key besides `inherit` and the four known ones |
| Configuration.ThumbnailKeyRejected | goesbrowse/config.py:42-44 | a `thumbnail` key makes loading raise |
| Configuration.OwnKeysOverrideInherited | goesbrowse/config.py:36-42 | a file's own `database` overrides whatever its inherits set |
| Configuration.LaterInheritOverrides | goesbrowse/config.py:39-40 | the last inherited file's `database` wins over earlier ones |
| Configuration.Config.constructor | goesbrowse/config.py:10-14 | `Config()` has `quota` 0 and the other fields `None` |
| Configuration.Config.SetIfPresent | goesbrowse/config.py:16-18 | the object's fields and the returned table are as `AfterSetIfPresent` says; an error changes nothing |
| Configuration.Config.Merge | goesbrowse/config.py:20-28 | the object's fields and the left-over keys are as `AfterMerge` says |
| Configuration.Config.LoadFile | goesbrowse/config.py:30-45 | the object ends as `Load` specifies, or the same exception is returned |
| Configuration.Config.LoadInherited | goesbrowse/config.py:39-40 | the inherit loop loads each entry into the same object in order, as `LoadAll` specifies |
| Configuration.Candidates | goesbrowse/config.py:48 | extras, then `$GOESBROWSE`, then `~/.goesbrowse.toml` |
| Configuration.Survivors | goesbrowse/config.py:49-50 | only existing, expanded, truthy candidates survive; the first survivor is the first usable candidate, and there is none exactly when no candidate is usable |
| Configuration.Discover | goesbrowse/config.py:47-54 | no usable candidate raises `RuntimeError`; otherwise a fresh `Config` is loaded from the first one |
| Configuration.DiscoverOrder | goesbrowse/config.py:47-54 | with no usable extra, `$GOESBROWSE` is used if usable, else the home file, else nothing |

## Left out

- Floating point is not modelled:
  - `lon_0` is kept as the exact decimal value of its lexeme, not rounded
    to a double;
  - `math.ceil` on a float quotient is computed exactly on integers.
- `goesbrowse/projection.py`, `Projection.reload` and `Projection.forward`
  are not part of this model. They are floating-point trigonometry.
- `strptime` accepts one-digit month, day, hour, minute and second fields.
  The recognisers take every field at full width.
- Time zones are not modelled. This covers the UTC tagging of the ingested
  date and `localdate`.
- Case mapping is ASCII only. Python's Unicode case folding is not
  modelled.
- Symbolic links and `resolve()` of paths outside the root are not
  modelled. The `rglob('*.json')` order is an input: the sequence of
  sidecars.
- The SQLAlchemy session is modelled as follows. Rows are visible to later
  queries at once, since the session flushes before queries. `commit`
  copies the session rows to the committed rows. The exact timing of the
  automatic flush is not modelled.
- `print` output is not modelled.
- Pages.MakePagination: requires `per_page > 0`. With 0, Python raises
  `ZeroDivisionError`, and every caller passes a positive constant.
- The database query behind `Pagination.items` is modelled as the listing
  itself, sliced by `LIMIT` and `OFFSET`.
- Pages.Offset: a page below 1 gives a negative `OFFSET`, which the model
  treats as 0, as SQLite does. Other SQL engines would reject it.
- Quota.AboveQuota: `order_by(File.date)` leaves files with equal dates in
  an order the database chooses. The model fixes one order, that of
  `SortByDate`, so with ties the source may select different files among
  those sharing a date.
- Converters.ProductToPython: `int()` also accepts surrounding whitespace,
  `_` separators and non-ASCII digits. These are not modelled, because the
  route's pattern only lets digits reach it.
- URL quoting is not modelled: `_fast_url_quote` in `FilterConverter.to_url`
  and the quoting inside `flask.url_for`.
- `url_for_args` and `url_for_filters` return the argument map they would
  pass to `flask.url_for`. The URL building itself is not modelled.
- UrlArgs.UrlForArgs: `v == 1` is modelled for the integer 1 and `True`;
  a float `1.0` keyword is not modelled.
- Python dictionaries are passed by value in the model. The copies the
  source makes (`view_args.copy()`, `.copy()` of `filters`) are therefore
  implicit.
- Configuration.Load: the depth of `inherit` is bounded by `fuel`, standing
  for Python's recursion limit. A cycle of inheriting files ends in
  `TooDeep`, as Python ends in `RecursionError`.
- Configuration.InheritItems: an `inherit` written as a TOML table is
  treated as an error. Python would iterate its keys.
- Configuration.Config.Merge: after an exception the fields it may already
  have set are left unspecified. Python keeps them, but every caller drops
  the object.
- The quota is stored as the TOML value. A `bool` quota stays a `bool`, as
  in Python.
- `query_filters`, the Flask routes, templates, caching, `send_file`,
  X-Accel-Redirect, the `map` view, `web.py`, `__main__.py` and the
  migrations are not part of this model.
- `query_filters` calls `abort`, which is never imported, at
  goesbrowse/application.py:280. It would raise `NameError`.

## Findings

| source | as written | input that shows it | evidently intended | confidence | as-written member | corrected member |
|---|---|---|---|---|---|---|
| goesbrowse/database.py:209-213 | the recursive call `self.remove_empty_dirs(sub)` drops `dry_run`, so `clean(dry_run=True)` deletes empty sub-directories | a root holding only an empty directory `a`, with `dry_run=True`: `a` is removed | a dry run removes nothing | high, not executed | FileSystem.DryRunPruneDeletesEmptyDirectory | Database.Database.CleanIntended |
| goesbrowse/application.py:198-200 | each piece is split with `split(':', 2)`, so a value holding `:` gives a 3-element item and `dict()` raises `ValueError`, although the route pattern `[^/:]+:[^/]+` accepts it | the URL part `a:b:c` | split at the first `:` only, giving `{a: 'b:c'}` | high, not executed | Converters.ColonValueRejected | Converters.FilterRoundTripIntended |
| goesbrowse/database.py:179-192 | `SUM` over an empty join is `NULL`, so `get_size` returns `None` and `self.size - self.quota` raises `TypeError` | a quota of 1 and a catalog with no products | size 0, so nothing is above the quota | medium, not executed | Quota.EmptyCatalogRaises | Database.Database.GetAboveQuota |
