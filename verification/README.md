# scriptable-widgets, modelled in Dafny

This project models the decision logic of six Scriptable widgets from
doersino/scriptable-widgets. The widgets are iOS home-screen scripts. Drawing,
file and network calls are host glue; the model covers the pure logic between
them and proves what that logic promises.

- **Location, location, location!** (`tile_grid.dfy`, `tile_cache.dfy`,
  `tile_loader.dfy`) shows satellite tiles around the device's position.
  - The grid layout picks an anchor cell, filters relative offsets to the
    visible ones, lists tiles row by row and places the position marker.
  - The tile cache covers filenames, the purge rule, and version, location and
    world-map files. It is a map from filename to contents and modification time.
  - The tile loader covers cache-hit-else-download, the zoom ladder that
    retries coarser zooms, the world-map preload, version resolution and
    location fallback. `RunWidget` chains these into one run.
- **Small Seasons** (`small_seasons.dfy`) finds the current one of the 24
  sekki by walking back from today, day by day, until a start date matches.
- **Binary Date** (`binary_date.dfy`) encodes weekday, day, month and year as
  zero-padded bit strings. It lays them out as 24 blocks on a 12×2 grid.
- **ærialbot lite** (`aerialbot_lite.dfy`) runs a retry loop of up to 12
  random tile requests, then falls back to a whole-world tile.
- **Uberspace Quota** has two parts:
  - `quota_parser.dfy` models the PHP script that tokenises the `quota`
    output line and packs user, server and three numbers into a report;
  - `uberspace_quota.dfy` models the widget that validates that report and
    formats it.
- **ReAD Statistics** (`read_statistics.dfy`) builds the stats URL. It also
  builds the headline with its plural rule, the minutes sentence with its emoji
  threshold, and the sparkline path.
- **Both configurable widgets** share the dialog model in `config_dialog.dfy`:
  Save/Update label, cancel, delete, blank-field refusal and reading back.
- **Shared helpers** live in `wrappers.dfy` (`Option`, `Result`, `Step`),
  `strings.dfy` (split, prefix, whitespace removal, ASCII upper-casing) and
  `numerals.dfy`:
  - JavaScript `toString` for integers in bases 2–10;
  - `parseInt` as an optional sign plus the longest run of decimal digits;
  - `padStart`;
  - `Math.round` on reals.

Everything the scripts get from the outside is a parameter:

- the clock;
- the random draws;
- the network, as a function from request to response;
- the operating system's location;
- the alert's button index and text fields;
- the result of removing a file;
- the web-Mercator projection, as a function from zoom to tile and remainders.

Each thrown string is an error value carrying the same message. The two
download errors are the exception; `## Left out` says how they differ.

Where the code and its comments disagree, the model follows the code. The
two defects under Findings are the exception. For each, the model states the
code as written and proves the discrepancy, and the rest of the model uses
the corrected definition.

The ærialbot zoom comment promises a first attempt "between 16 and 20". The
code's `floor(4 + 11 + r·5)` gives 15..19, and `AerialbotLite.FirstAttemptZoom`
proves 15..19. The model follows the code here and does not count this as a
bug. The schedule is otherwise as intended: one step coarser per retry.

## Model

| member | source | states |
|---|---|---|
| TileGrid.GridSize | location-location-location/location-location-location.js:423-433 | small widgets show 2×2 tiles, medium 4×2, large 4×4; both counts are even and at least 2 |
| TileGrid.Anchor | location-location-location/location-location-location.js:529-533 | the cell holding the point's tile is (h/2, v/2), moved back one step in each direction whose remainder rounds up; it always lies inside the h×v grid |
| TileGrid.AnchorExample | location-location-location/location-location-location.js:523-533 | remainders 0.1 and 0.9 on a 2×2 grid put the point's tile in the top-right cell (1, 0) |
| TileGrid.VisibleRelativeIsRowMajor | location-location-location/location-location-location.js:535-546 | of the (2h−1)(2v−1) candidate offsets, exactly h·v survive the in-grid filter; they come row by row, and the i-th is (i mod h − ax, i div h − ay) |
| TileGrid.VisibleAreRanges | location-location-location/location-location-location.js:538-546 | the surviving offsets are exactly the columns −ax..h−ax−1 crossed with the rows −ay..v−ay−1, rows outermost |
| TileGrid.KeepVisibleRows | location-location-location/location-location-location.js:540-546 | filtering a row-major product of offsets equals the row-major product of the filtered columns and the filtered rows |
| TileGrid.CoordsInGrid | location-location-location/location-location-location.js:538-539 | of the relative coordinates −(n−1)..n−1, the ones that land inside 0..n−1 from anchor k are exactly −k..n−k−1 |
| TileGrid.GridLayout | location-location-location/location-location-location.js:529-553 | the grid lists h·v tiles at the attempted zoom; tile i is the point's tile moved by cell (i mod h, i div h) minus the anchor; the marker is at the point's position |
| TileGrid.PointAt | location-location-location/location-location-location.js:553 | the marker's normalised position lies inside the anchor cell's box, and so within [0, 1) in both directions |
| TileGrid.DrawOrderMatchesLayout | location-location-location/location-location-location.js:583-589 | the i-th loaded tile is drawn in cell (i mod h, i div h), and that cell is the anchor plus the tile's offset from the point's tile |
| TileGrid.CellIndex | location-location-location/location-location-location.js:583-589 | every cell of the grid is drawn by the tile with index row·h + column, so no cell stays empty |
| TileGrid.AnchorCellHoldsPointTile | location-location-location/location-location-location.js:546-550 | the tile drawn in the anchor cell is the point's own tile at that zoom |
| TileGrid.LayoutTilesDistinct | location-location-location/location-location-location.js:546-550 | no tile is listed twice in a grid |
| TileCache.FamilyName | location-location-location/location-location-location.js:423-433 | the widget-type name maps back to the same widget family |
| TileCache.TileFilename | location-location-location/location-location-location.js:197-199 | every tile filename ends in ".jpg" |
| TileCache.TileFilenameRoundTrip | location-location-location/location-location-location.js:197-199 | reading the version and coordinates back out of a tile filename yields exactly those it was built from |
| TileCache.TileFilenameInjective | location-location-location/location-location-location.js:197-199 | distinct (version, x, y, zoom) give distinct filenames, so tiles never overwrite one another |
| TileCache.AuxiliaryFilesAreNotTiles | location-location-location/location-location-location.js:232-298 | "location.json", "version.txt" and every "worldmap-….png" do not end in ".jpg", so the purge never treats them as tiles |
| TileCache.Purge | location-location-location/location-location-location.js:174-195 | with 0 days the whole cache is deleted and the run stops; otherwise a file is removed exactly when it ends in ".jpg" and is strictly older than the limit, and every other file is kept unchanged |
| TileCache.PurgeIdempotent | location-location-location/location-location-location.js:174-195 | purging again at the same moment removes nothing more |
| TileCache.PurgeMonotone | location-location-location/location-location-location.js:186-194 | a longer retention keeps every file a shorter one keeps |
| TileCache.PurgeKeepsFresh | location-location-location/location-location-location.js:189-193 | a file exactly at the age limit survives, because the comparison is strict |
| TileCache.PurgeKeepsAuxiliary | location-location-location/location-location-location.js:183-184 | the location, version and world-map files survive any purge with a positive limit |
| TileCache.PurgeExample | location-location-location/location-location-location.js:186-194 | with 30 days, a tile last used 31 days ago is removed and one used 29 days ago is kept |
| TileCache.ReadTile | location-location-location/location-location-location.js:201-224 | a read hits exactly when the tile's file exists and holds tile data, and returns that data; it refreshes that file's modification time and leaves every other file alone |
| TileCache.ReadAfterWriteTile | location-location-location/location-location-location.js:201-230 | a tile just written reads back as the written bytes; writing one tile leaves reads of every other tile and version unchanged |
| TileCache.VersionRoundTrip | location-location-location/location-location-location.js:254-292 | a written version reads back unchanged, and its age in days counts from the write |
| TileCache.ReadLocation | location-location-location/location-location-location.js:232-247 | a location is read exactly when the location file exists and holds a location |
| TileCache.LocationRoundTrip | location-location-location/location-location-location.js:232-252 | a written location reads back unchanged |
| TileCache.ReadWorldMap | location-location-location/location-location-location.js:300-315 | a world map is read exactly when that widget type's world-map file holds image data, and is then that data |
| TileCache.WritesAreSeparate | location-location-location/location-location-location.js:226-320 | writing a tile, the version, the location or a world map never changes what any other kind of file reads back: version, location, world map, and tiles of any version read at any later time |
| TileCache.WriteVersionSeparate | location-location-location/location-location-location.js:254-294 | writing the version file leaves the location, the world map and every tile reading as before |
| TileCache.WriteLocationSeparate | location-location-location/location-location-location.js:232-252 | writing the location file leaves the version, the world map and every tile reading as before |
| TileCache.WriteWorldMapSeparate | location-location-location/location-location-location.js:296-326 | writing a world map leaves the version, the location and every tile reading as before |
| TileCache.WriteTileSeparate | location-location-location/location-location-location.js:226-230 | writing a tile leaves the version, the location and the world map reading as before |
| TileCache.TileNamesAreNotAuxiliary | location-location-location/location-location-location.js:197-199 | no tile filename, of any version, is the version, location or world-map filename |
| TileLoader.NewLoader | location-location-location/location-location-location.js:331-342 | a new loader uses one of the four servers 0..3 and the fallback version 995 |
| TileLoader.Download | location-location-location/location-location-location.js:379-398 | a download succeeds exactly when the server answers 200 or 404; it then returns the response body and writes it to the cache as that tile's file, so that a later read of the tile returns it |
| TileLoader.LoadSpec | location-location-location/location-location-location.js:400-408 | loading a tile yields data exactly when the tile is cached or downloadable, and that data is the cached bytes or the downloaded body; the cache afterwards serves the same tiles |
| TileLoader.AllAvailableIff | location-location-location/location-location-location.js:558-563 | a grid loads exactly when each of its tiles can be loaded on its own |
| TileLoader.LoadAllSpec | location-location-location/location-location-location.js:558-568 | loading a grid tile by tile succeeds exactly when every tile is available, and leaves a cache that serves the same tiles |
| TileLoader.LoadAllData | location-location-location/location-location-location.js:558-563 | a grid that loads returns each tile's data in grid order |
| TileLoader.LoadAllKeepsOtherFiles | location-location-location/location-location-location.js:558-563 | loading tiles writes only tile files |
| TileLoader.FirstTileMissing | location-location-location/location-location-location.js:559-571 | one tile that cannot be loaded makes the whole zoom level fail |
| TileLoader.LadderSpec | location-location-location/location-location-location.js:513-574 | the ladder settles on the highest zoom above 8, at most the start zoom, whose whole grid loads, with that zoom's layout and tiles; otherwise it gives up at zoom 8 (or at the start zoom if that is lower), and no zoom in between had a loadable grid |
| TileLoader.LadderShape | location-location-location/location-location-location.js:517-574 | a successful ladder ends at a zoom between 9 and the start zoom, with the layout of that zoom; a failed one ends at min(start, 8) |
| TileLoader.ClimbShape | location-location-location/location-location-location.js:517-574 | the same bounds hold for any per-zoom attempt, since the loop only ever steps the zoom down by one |
| TileLoader.LadderAvailability | location-location-location/location-location-location.js:517-574 | the zoom the ladder settles on has a loadable grid, every higher zoom tried before it does not, and the tiles returned are that grid's data |
| TileLoader.LadderAvailabilityStep | location-location-location/location-location-location.js:568-573 | a failed attempt hands the next zoom a cache that serves the same tiles, so the rest of the ladder reaches the same verdicts it would have reached from the original cache |
| TileLoader.UnavailableAlike | location-location-location/location-location-location.js:568-573 | zoom levels that fail from a cache serving the same tiles also fail from this cache |
| TileLoader.GridAvailableEquivalent | location-location-location/location-location-location.js:558-563 | two caches that serve the same tiles agree on which grids load and on the data they return |
| TileLoader.LadderKeepsOtherFiles | location-location-location/location-location-location.js:517-574 | the ladder writes only tile files, so the location, version and world-map files come out unchanged |
| TileLoader.LadderKeepsWorldMap | location-location-location/location-location-location.js:517-574 | walking the zoom ladder leaves what the world-map file reads back unchanged |
| TileLoader.ClimbKeepsOtherFiles | location-location-location/location-location-location.js:517-574 | a ladder whose every attempt writes only tile files writes only tile files |
| TileLoader.LadderExample | location-location-location/location-location-location.js:517-574 | when the servers have imagery only up to zoom 14, a ladder starting at 18 settles on 14 |
| TileLoader.WorldMapTilesCoverWorld | location-location-location/location-location-location.js:448-466 | world-map tiles are at zoom v/2 and inside the world, each drawn in a cell of the grid; the medium widget swaps the columns so the main map is centred |
| TileLoader.DownloadAllSpec | location-location-location/location-location-location.js:452-467 | downloading the world-map tiles succeeds exactly when every tile's request is answered with 200 or 404, and yields their bodies in order |
| TileLoader.DownloadAllSucceeds | location-location-location/location-location-location.js:452-467 | the sequence of downloads completes exactly when no single download fails |
| TileLoader.DownloadAllBodies | location-location-location/location-location-location.js:452-467 | when every request is accepted, the downloads yield the responses' bodies, tile by tile |
| TileLoader.BodiesAt | location-location-location/location-location-location.js:452-467 | the i-th downloaded body belongs to the i-th world-map tile |
| TileLoader.PreloadWorldMap | location-location-location/location-location-location.js:444-473 | a cached world map is left as it is; otherwise the run goes on exactly when every world-map tile downloads, and the map is then cached |
| TileLoader.WorldMapOffset | location-location-location/location-location-location.js:598-610 | on the world map the marker sits at the zoom-0 remainders; the medium widget squeezes the horizontal one into [0.25, 0.75) around the centred copy |
| TileLoader.ScrapeVersionSpec | location-location-location/location-location-location.js:358-360 | the version pattern finds nothing exactly when "khms0.googleapis.com/kh?v=" followed by a digit occurs nowhere in the page; otherwise the version is the digit run after the first such occurrence |
| TileLoader.ScrapeVersionFirst | location-location-location/location-location-location.js:358-360 | wherever the first occurrence of the marker followed by a digit sits, the version read is the digit run right after it |
| TileLoader.ScrapeFindsVersion | location-location-location/location-location-location.js:358-360 | a page made of any text with no earlier match, the marker, a printed number and text not starting with a digit yields that number |
| TileLoader.Refresh | location-location-location/location-location-location.js:356-369 | a scraped version is adopted and written to the cache only when it is above 900; a failed request or page without the marker keeps the previous version and the cache, and so does a scraped number of 900 or less |
| TileLoader.DetermineVersionAsWritten | location-location-location/location-location-location.js:345-371 | a truthy cached version under a week old is used with the cache untouched; otherwise a page number above 900 is used and written to the cache; otherwise the loader's version is used, whatever stale version the cache holds |
| TileLoader.DetermineVersion | location-location-location/location-location-location.js:345-371 | the corrected resolution: a truthy cached version under a week old is used with the cache untouched; otherwise a page number above 900 is used and written to the cache; otherwise a stale but truthy cached version is used; otherwise the loader's version; only the page case changes the cache |
| TileLoader.StaleVersionDiscarded | location-location-location/location-location-location.js:345-371 | with version 1000 cached eight days ago and the page unreachable, the code as written runs with 995; the corrected resolution keeps 1000 |
| TileLoader.StaleVersionKept | location-location-location/location-location-location.js:365-369 | when scraping fails, a stale but truthy cached version is kept and the cache is untouched |
| TileLoader.VersionSticky | location-location-location/location-location-location.js:345-364 | once a version has been scraped and cached, every run in the following week uses it without asking the page |
| TileLoader.VersionFromPage | location-location-location/location-location-location.js:345-364 | with an empty cache and a page naming version 987, the widget uses 987 and caches it |
| TileLoader.ResolveLocation | location-location-location/location-location-location.js:479-495 | a usable location from the system is used and cached; otherwise the cached location is used and flagged as such; with neither the run stops |
| TileLoader.LastLocationRemembered | location-location-location/location-location-location.js:479-495 | a location the system once gave is what a later run without a system location shows, flagged as from the cache |
| TileLoader.Prelude | location-location-location/location-location-location.js:436-495 | a run that reaches the map works with the widget's grids, network and clock and holds a location with coordinates; a run stopped before the map stops either because the world map could not be downloaded or because no location is available |
| TileLoader.PreludeReady | location-location-location/location-location-location.js:444-495 | with the world map cached, the prelude can stop only for lack of a location; with a location from the system or the cache as well, it always reaches the map |
| TileLoader.RunWidget | location-location-location/location-location-location.js:436-614 | a rendered run shows a fixed location, and one of two things: a tile grid at a zoom above 8 and at most the initial zoom, with that zoom's layout and marker; or the world map at zoom 8 or below, with the world-map marker. A tile grid is shown at the highest zoom above 8 and at most the initial zoom whose whole grid loads from the cache the prelude leaves; the world map only when no zoom in that range loads. Conversely, once the prelude reaches the map, a loadable zoom in that range always gives a tile grid and a cached world map always gives a picture; a run stops only where the prelude stops or with the no-imagery message |
| TileLoader.ShowMap | location-location-location/location-location-location.js:513-614 | the map shown carries the location and its cached flag through unchanged, with the same layout and marker guarantees as the whole run; the tile grid shown is the one at the highest loadable zoom above 8 and at most the initial zoom, and the world map is shown only when no zoom above 8 loads. Conversely, a loadable zoom in that range always gives a tile grid, the cached world map is shown whenever it is there, and the run stops only with the no-imagery message when neither is |
| TileLoader.OfflineShowsWorldMap | location-location-location/location-location-location.js:592-614 | offline, with only a cached location and world map and no cached tiles, the widget shows the cached world map at the cached location, flagged as from the cache |
| TileLoader.OfflinePrelude | location-location-location/location-location-location.js:436-495 | offline, the purge and version steps keep the cached world map and location, and the run reduces to drawing the map at the cached location |
| TileLoader.OfflineLadder | location-location-location/location-location-location.js:517-574 | with every request failing and no tile cached, the ladder finds no imagery and leaves the world map in the cache |
| SmallSeasons.ParseShaped | small-seasons/small-seasons.js:284 | splitting an "MM-DD" start date on "-" and parsing both halves yields the month and the day |
| SmallSeasons.StartDateRoundTrip | small-seasons/small-seasons.js:284 | re-padding the parsed month and day to two digits gives back the start-date string |
| SmallSeasons.TableListsStarts | small-seasons/small-seasons.js:20-263 | the 24 table entries' start dates parse to 24 valid calendar dates, listed in table order |
| SmallSeasons.StartsOnIff | small-seasons/small-seasons.js:283-290 | an entry matches a lookup date exactly when that date is its start date |
| SmallSeasons.MatchFromMisses | small-seasons/small-seasons.js:283-291 | when the scan of the table finds nothing, no entry starts on that date |
| SmallSeasons.Previous | small-seasons/small-seasons.js:296-304 | one step back from a valid (month, day) is again valid and is the previous slot of the 12×31 year, wrapping from 1 January to 31 December |
| SmallSeasons.OrdinalOrder | small-seasons/small-seasons.js:274-304 | (month, day) order on valid dates is the order of their slots in the 12×31 year, and distinct dates have distinct slots |
| SmallSeasons.EveryMonthHasStart | small-seasons/small-seasons.js:20-263 | every month holds some entry's start date, so the backward walk always meets one |
| SmallSeasons.ScanStep | small-seasons/small-seasons.js:280-305 | each turn of the walk either stops on the start nearest behind today or steps one slot further back with no start missed |
| SmallSeasons.Search | small-seasons/small-seasons.js:280-305 | for any valid date the walk terminates on the entry whose start date is the latest one on or before today, wrapping round the new year |
| SmallSeasons.CurrentSekki | small-seasons/small-seasons.js:274-305 | the widget's sekki is the table entry current on today's date |
| SmallSeasons.NearestStartIsCurrent | small-seasons/small-seasons.js:280-305 | the start date fewest days behind today, counting back across the new year, is the current one |
| SmallSeasons.CurrentUnique | small-seasons/small-seasons.js:280-305 | at most one entry is current on any date |
| SmallSeasons.ExactMatch | small-seasons/small-seasons.js:283-290 | on an entry's own start date that entry is current |
| SmallSeasons.DocumentedDates | small-seasons/small-seasons.js:267-272 | the file's sample dates give the documented answers: 30 Dec and 2 Jan 冬至, 6 Jan 小寒, 20 Jan and 1 Feb 大寒, 4 Feb 立春 |
| SmallSeasons.PhantomDatesNeverMatch | small-seasons/small-seasons.js:293-295 | days the walk visits that do not exist, such as 31 February, never match an entry |
| SmallSeasons.FaceOf | small-seasons/small-seasons.js:323-337 | the widget shows the entry's kanji and notes unchanged and its title in capitals, letter for letter |
| SmallSeasons.SolsticeFace | small-seasons/small-seasons.js:329 | the winter solstice entry is captioned "WINTER SOLSTICE" |
| BinaryDate.IsWeekday | binary-date/binary-date.js:55 | the weekday block is on exactly for Monday to Friday |
| BinaryDate.BitsRoundTrip | binary-date/binary-date.js:56-58 | a number below 2^width prints as exactly width binary digits that read back as the number |
| BinaryDate.DayRoundTrip | binary-date/binary-date.js:56 | the day of the month prints as exactly five bits that read back as the day |
| BinaryDate.MonthRoundTrip | binary-date/binary-date.js:57 | the zero-based month plus one prints as exactly four bits that read back as 1..12 |
| BinaryDate.YearRoundTrip | binary-date/binary-date.js:58 | a year below 4096 prints as exactly twelve bits that read back as the year |
| BinaryDate.BitsOverflow | binary-date/binary-date.js:58 | padding never truncates: a number of 2^width or more prints longer than width |
| BinaryDate.YearBreaksAfter4095 | binary-date/binary-date.js:88-92 | from 4096 on the year string is longer than twelve bits, and the twelve blocks drawn no longer show the year |
| BinaryDate.X0 | binary-date/binary-date.js:61 | the twelve columns and eleven gaps are centred horizontally |
| BinaryDate.Y0 | binary-date/binary-date.js:62 | the two rows and their gap are centred vertically, on the full and on the halved medium-widget height |
| BinaryDate.BlocksFillGrid | binary-date/binary-date.js:64-92 | block k sits in column k mod 12 of row k div 12, so the 24 blocks fill the grid once each; only blocks 1 and 7 are the spacer dots |
| BinaryDate.BlocksInsideCells | binary-date/binary-date.js:64-92 | every block, square or dot, stays inside its own cell and inside the picture |
| BinaryDate.PictureShowsDate | binary-date/binary-date.js:55-92 | the first block shows the weekday bit, blocks 2–6 the day, 8–11 the month and the second row the year |
| BinaryDate.DayShown | binary-date/binary-date.js:72-76 | the on/off pattern of blocks 2–6 reads back as the day of the month |
| BinaryDate.MonthShown | binary-date/binary-date.js:82-86 | the on/off pattern of blocks 8–11 reads back as the month |
| BinaryDate.YearShown | binary-date/binary-date.js:88-92 | the on/off pattern of the second row reads back as the year |
| AerialbotLite.Server | aerialbot-lite/aerialbot-lite.js:79-81 | the server is one of 0..3 |
| AerialbotLite.Zoom | aerialbot-lite/aerialbot-lite.js:86-89 | the zoom at counter t lies between t + 4 and t + 8 |
| AerialbotLite.FirstAttemptZoom | aerialbot-lite/aerialbot-lite.js:86-89 | the first attempt's zoom lies in 15..19, and both ends occur |
| AerialbotLite.RetryLoop | aerialbot-lite/aerialbot-lite.js:75-103 | at most 12 requests are made, the a-th with counter 11 − a; the loop stops at the first tile that loads, and runs all 12 when none does; the counter ends one below the last value used, or at −1 when all fail |
| AerialbotLite.FallbackAsWrittenMisfires | aerialbot-lite/aerialbot-lite.js:105-111 | the whole-world fallback as written fires exactly when the twelfth attempt succeeded, and never when every attempt failed |
| AerialbotLite.FallbackIntendedFires | aerialbot-lite/aerialbot-lite.js:105-111 | the corrected condition fires exactly when every attempt failed |
| AerialbotLite.WidgetAsWritten | aerialbot-lite/aerialbot-lite.js:75-111 | as written, a run where every attempt fails shows no tile, and a twelfth-attempt success is replaced by the world tile |
| AerialbotLite.Widget | aerialbot-lite/aerialbot-lite.js:75-111 | corrected, the widget shows the first tile that loads, or the whole world when all twelve attempts fail; it never shows an empty picture |
| QuotaParser.ServerName | uberspace-quota/uberspace-quota.php:7 | the server name is the longest dot-free prefix of the hostname, the whole hostname when it has no dot |
| QuotaParser.ServerNameOfHost | uberspace-quota/uberspace-quota.php:7 | "first.domain" yields "first" |
| QuotaParser.Tokens | uberspace-quota/uberspace-quota.php:17 | every token is a non-empty run of non-whitespace |
| QuotaParser.TokensCoverLine | uberspace-quota/uberspace-quota.php:17 | the tokens, joined, are the line with its whitespace removed, in the original order |
| QuotaParser.TokensOfJoin | uberspace-quota/uberspace-quota.php:17 | a line of non-empty whitespace-free words separated by whitespace splits back into exactly those words, whatever whitespace leads |
| QuotaParser.SpaceSkipped | uberspace-quota/uberspace-quota.php:17 | leading whitespace produces no empty token |
| QuotaParser.IntVal | uberspace-quota/uberspace-quota.php:18 | conversion gives a 64-bit integer, and 0 for a token without a leading number |
| QuotaParser.IntValOfIntToString | uberspace-quota/uberspace-quota.php:18 | a printed 64-bit integer converts back to itself, whatever non-digit text follows |
| QuotaParser.IntValOfDigits | uberspace-quota/uberspace-quota.php:18 | a token of decimal digits alone, leading zeros included, converts to its value, or to the largest 64-bit integer when it is beyond it |
| QuotaParser.IntValLeadingZeros | uberspace-quota/uberspace-quota.php:18 | "007" converts to 7 |
| QuotaParser.IntValSaturates | uberspace-quota/uberspace-quota.php:18 | a number beyond the 64-bit range converts to the nearest bound |
| QuotaParser.NumbersOfQuotaLine | uberspace-quota/uberspace-quota.php:14-18 | a quota line printing 64-bit fields with whitespace between them parses back into exactly those fields |
| QuotaParser.Report | uberspace-quota/uberspace-quota.php:29-35 | the report has exactly the keys user, server, used, total and files; server is the truncated hostname; a missing user is false |
| QuotaParser.ReportOfQuota | uberspace-quota/uberspace-quota.php:20-35 | for a quota line of at least five fields, used, total and files are fields 1, 2 and 4 |
| QuotaParser.ShortLineLeavesFilesNull | uberspace-quota/uberspace-quota.php:24 | a quota line with fewer than five tokens reports null files |
| ConfigDialog.ActionLabel | read-statistics/read-statistics.js:31 | the primary button reads "Save" exactly when no stored field is filled, otherwise "Update" |
| ConfigDialog.FreshShowsSave | uberspace-quota/uberspace-quota.js:24-33 | without a configuration file the button reads "Save" |
| ConfigDialog.SavedShowsUpdate | read-statistics/read-statistics.js:21-31 | after a save the button reads "Update" |
| ConfigDialog.Dialog | uberspace-quota/uberspace-quota.js:37-58 | cancelling leaves the file as it is; deleting always stops the run; saving with a blank field stops with the blank-field message and writes nothing |
| ConfigDialog.CancelIsWidgetRun | uberspace-quota/uberspace-quota.js:37-38 | cancelling the dialog runs exactly as the widget would without a dialog |
| ConfigDialog.DeleteStops | uberspace-quota/uberspace-quota.js:39-48 | deleting stops the run; it reports success exactly when no file is left, and failure exactly when the file survived |
| ConfigDialog.BlankRefused | read-statistics/read-statistics.js:49-52 | saving with any blank field stops with the blank-field message and keeps the stored configuration |
| ConfigDialog.SaveThenRead | read-statistics/read-statistics.js:47-67 | saving non-blank fields and reading the configuration back yields exactly what was entered |
| ConfigDialog.ReadConfig | read-statistics/read-statistics.js:59-67 | reading succeeds exactly when the file exists and every field is filled, returning the stored values; a missing file or missing value stops with its own message |
| UberspaceQuota.StoredUrlRead | uberspace-quota/uberspace-quota.js:61-69 | a stored non-empty URL is read back in the widget |
| UberspaceQuota.FirstUnset | uberspace-quota/uberspace-quota.js:77-81 | the search finds the first field in check order that is falsy, and none exactly when all are truthy |
| UberspaceQuota.Validate | uberspace-quota/uberspace-quota.js:72-84 | a report is accepted exactly when user, server, used, total and files are all truthy, and is then passed on unchanged; a failed fetch is reported with its message |
| UberspaceQuota.ValidateReportsFirstUnset | uberspace-quota/uberspace-quota.js:77-84 | the error names the first falsy field in the order user, server, used, total, files |
| UberspaceQuota.ValidateAllSet | uberspace-quota/uberspace-quota.js:77-81 | a report with all five fields truthy is accepted as is |
| UberspaceQuota.ZeroUsageRefused | uberspace-quota/uberspace-quota.js:79 | an account using 0 kilobytes is refused as "space used not set", because 0 is falsy |
| UberspaceQuota.NoUserRefused | uberspace-quota/uberspace-quota.js:77 | a report whose user could not be found is refused as "user not set" |
| UberspaceQuota.ReportAccepted | uberspace-quota/uberspace-quota.js:61-84 | a configured widget shows what the PHP script reported for a well-formed quota line, when used, total and files are non-zero |
| UberspaceQuota.CaptionParts | uberspace-quota/uberspace-quota.js:107 | the caption is the upper-cased user, "@", and the upper-cased server; the part before "@" gives back the user |
| UberspaceQuota.UsedGigabytes | uberspace-quota/uberspace-quota.js:87 | the used space is shown in gibibytes to three decimals, within half a thousandth of the exact value |
| UberspaceQuota.FreePercent | uberspace-quota/uberspace-quota.js:88 | the free share is shown in percent as a whole number of tenths, within 0.05 of the exact value |
| UberspaceQuota.FreePercentInRange | uberspace-quota/uberspace-quota.js:88 | usage within the quota gives a free share between 0 and 100, and 100 when nothing is used |
| ReadStatistics.StatsUrlParts | read-statistics/read-statistics.js:70 | when the instance has no "/" and the key has no "&", both can be read back out of the request URL |
| ReadStatistics.Plural | read-statistics/read-statistics.js:118 | the plural ending is empty exactly for a count of 1, and "s" otherwise |
| ReadStatistics.HeadlineCount | read-statistics/read-statistics.js:120 | the headline states the unread count |
| ReadStatistics.HeadlinePlural | read-statistics/read-statistics.js:118-120 | the headline ends in "articles." exactly when the unread count is not 1 |
| ReadStatistics.MinutesByDivision | read-statistics/read-statistics.js:126 | rounding seconds/60 half up gives ⌊(seconds + 30)/60⌋ |
| ReadStatistics.MinutesMonotone | read-statistics/read-statistics.js:126 | more reading time never shows fewer minutes |
| ReadStatistics.BlossomThreshold | read-statistics/read-statistics.js:131 | the blossom emoji appears exactly from 3570 seconds of reading on, which round to 60 minutes |
| ReadStatistics.DetailsSay | read-statistics/read-statistics.js:131 | the details sentence states the rounded minutes |
| ReadStatistics.StepEnds | read-statistics/read-statistics.js:85-96 | value i becomes a horizontal step from x = i/n·500 to (i+1)/n·500 at height 500 − 10·value |
| ReadStatistics.SparklineSpansWidth | read-statistics/read-statistics.js:85-96 | a non-empty sparkline starts at x = 0 and ends at x = 500 |
| ReadStatistics.SparklineFlatSteps | read-statistics/read-statistics.js:87-89 | both ends of each step are at that value's height |
| ReadStatistics.SparklineConnected | read-statistics/read-statistics.js:88-95 | each step starts where the previous one ended horizontally, so the path has no gaps |
| ReadStatistics.SparklineLeftToRight | read-statistics/read-statistics.js:85-96 | the path never moves left |
| ReadStatistics.FilledAreaClosed | read-statistics/read-statistics.js:103-104 | for a non-empty series the filled area starts on the left edge, drops straight down the right edge to the bottom corner, runs along the bottom and ends directly below its first point |
| ReadStatistics.SavedInstanceShown | read-statistics/read-statistics.js:47-131 | saving an instance and key in the app shows that instance's statistics: link, headline, details and sparkline |
| ReadStatistics.IncompleteConfigStops | read-statistics/read-statistics.js:59-67 | a configuration lacking either value stops the run before any request |
| Numerals.ValueOfNatToString | binary-date/binary-date.js:56-58 | printing a number in base 2..10 gives digits of that base whose value is the number |
| Numerals.NatToStringLength | binary-date/binary-date.js:56-58 | a number prints in at most k digits exactly when it is below base^k, so padding to k is needed exactly then |
| Numerals.PadStartShape | binary-date/binary-date.js:56-58 | padding keeps the string as its tail and fills only the front with the pad character |
| Numerals.ParseSignedOfIntToString | location-location-location/location-location-location.js:264-273 | parseInt reads a printed integer back, whatever non-digit text follows |
| Numerals.IntToStringInjective | location-location-location/location-location-location.js:197-199 | distinct integers print differently |
| Numerals.JsRound | read-statistics/read-statistics.js:126 | Math.round lands within half a unit of its argument, rounding halves up |
| Strings.ToUpper | uberspace-quota/uberspace-quota.js:107 | upper-casing keeps the length, shifts each ASCII lower-case letter to its capital and keeps every other character |
| Strings.SplitAtFirst | small-seasons/small-seasons.js:284 | splitting on a separator cuts at its first occurrence |

## Left out

- File, iCloud, network, alert, location and drawing calls are left out. Their
  results are parameters: a cache map with modification times, a network
  function, the button index and entered texts, and the system location.
  Image drawing, colours, fonts, padding and the `Script` calls are left out.
- JSON text is left out. A configuration file is its list of fields, and the
  PHP output is a map of JSON values. `JSON.parse` errors on a corrupt file are
  not modelled.
- The web-Mercator projection, `metersPerPixelAt`, the initial-zoom loop and
  `randomGeoPoint` are left out because they use logarithms and trigonometry.
  The projection is a function from zoom to tile and remainders, and the
  initial zoom is an input.
- Coordinate pretty-printing, the uncertainty-circle size, the star field, the
  altitude text and the Google Maps link are left out. They are floating-point
  output.
- Refresh scheduling is left out: `refreshAfterDate`, the halved update
  interval and `setHours`.
- `nukeCache` deleting file by file is collapsed into one step. A cache location
  other than "local" or "iCloud" is not modelled.
- The quota columns 3, 5 and 6 are read by the PHP script but never reported,
  so they are left out.
- The sekki romanji, description and season texts are left out. The widget
  never shows them.
- The file-count text and the "FREE"/"FILES" sentence are left out. The
  minute, archived and added plurals are modelled only through `Plural`.
- UberspaceQuota.UsedGigabytes: states the value rounded to thousandths, as a
  real. It does not model the JavaScript double, `toString` or the
  `substring(0,5)` cut of the displayed text.
- UberspaceQuota.FreePercent: states the value rounded to tenths, as a real. It
  does not model the printed double.
- QuotaParser.IntVal: reads an optional sign and the longest run of decimal
  digits, saturating at the 64-bit bounds. It does not model PHP's
  leading-whitespace skip, exponents such as "1e3", or hexadecimal.
- TileCache.ReadVersion: parseInt is modelled without leading-whitespace
  skipping and without NaN. A text with no leading number reads as no version.
- Numerals.JsRound: rounds exact reals. JavaScript doubles, including integers
  above 2^53, are not modelled.
- ReadStatistics.StepEnds: sparkline coordinates are exact reals, not doubles.
- TileGrid.PointAt: the marker position is an exact real, not a double.
- AerialbotLite.Zoom: the random draw is an exact real in [0, 1). The projected
  tile coordinates are a parameter.
- SmallSeasons.FaceOf: upper-casing is ASCII only. The titles are ASCII.
- TileCache.ReadTile: every tile file's bytes are taken to decode as an image.
  The script's `readImage` and `Image.fromData` yield nothing for bytes that
  are not an image, such as a 404 error page. It then downloads again, so
  such a cached file is never a hit; in the model it is one.
- TileLoader.Download: likewise, the body of any 200 or 404 response is taken
  to be the tile image.
- TileLoader.Download: the unexpected-status message carries the status code
  but not the `, response: …` text of the raw response body. A request that
  throws yields the fixed message "request failed" instead of the host's
  exception text.
- TileLoader.RunWidget: a run uses the corrected `DetermineVersion`, so after
  a failed refresh it keeps a stale cached version where the script falls
  back to 995 (see Findings). `DetermineVersionAsWritten` states the script's
  own behaviour.
- Strings.ToUpper: ASCII letters only, which is all the user and server names
  reported by the PHP script contain.

## Findings

| source | as written | input that shows it | evidently intended | confidence | as-written member | corrected member |
|---|---|---|---|---|---|---|
| aerialbot-lite/aerialbot-lite.js:107 | the whole-world fallback runs when `tries == 0` after the post-decrement loop | eleven failed requests and a twelfth that loads leave `tries` at 0, so the loaded tile is replaced by the world; twelve failures leave `tries` at −1, so no fallback runs and the widget has no tile | fall back to the world exactly when all twelve attempts failed | high (not executed) | AerialbotLite.WidgetAsWritten, AerialbotLite.FallbackAsWrittenMisfires | AerialbotLite.Widget, AerialbotLite.FallbackIntendedFires |
| location-location-location/location-location-location.js:345-371 | when the cached version is a week old or more and scraping fails, the loader keeps its constructor value 995 | version file "1000" written eight days ago, Maps API unreachable: the widget requests tiles with version 995 | the comment at lines 366-368 promises the old cached version in that case | medium (not executed) | TileLoader.StaleVersionDiscarded | TileLoader.DetermineVersion, TileLoader.StaleVersionKept |
