/** The location widget's file cache: one directory of map tiles, world maps,
    the last known location and the imagery version, each file with the time it
    was last written (milliseconds since the epoch).

    iCloud download-on-demand is not modelled: every file is treated as local. */
module TileCache {
  import opened Wrappers
  import opened Strings
  import opened Numerals
  import opened TileGrid

  type Bytes = seq<bv8>

  /** What a purge with a zero-day duration throws after emptying the cache. */
  const NukedMessage := "removed everything from the cache (this exception is just to stop the program, things actually succeeded)"

  /** What the operating system reports for the device's position; it sometimes
      hands back an object without any fields. */
  datatype Location =
    | EmptyObject
    | Fix(latitude: real, longitude: real, horizontalAccuracy: real, altitude: real)

  /** File contents, by the way the widget writes and reads them. */
  datatype Content =
    | Binary(data: Bytes)           // raw JPEG data of a map tile
    | Text(text: string)            // a string, e.g. the version number
    | LocationJson(loc: Location)   // a location serialised as JSON
    | Picture(cells: seq<Bytes>)    // a composed image, from its tiles in drawing order

  datatype File = File(content: Content, modified: int)

  type Cache = map<string, File>

  const MsPerDay: int := 1000 * 60 * 60 * 24
  const LocationFile: string := "location.json"
  const VersionFile: string := "version.txt"
  const TileSuffix: string := ".jpg"

  /** `a`, the separator, then `b`. */
  function Tagged(a: string, sep: char, b: string): string {
    a + [sep] + b
  }

  /** `v<version>x<x>y<y>z<z>.jpg`. */
  function TileFilename(t: TileCoords, version: int): (name: string)
    ensures EndsWith(name, TileSuffix)
  {
    var body := Tagged(IntToString(version), 'x', Tagged(IntToString(t.x), 'y', Tagged(IntToString(t.y), 'z', IntToString(t.z))));
    assert ("v" + body + TileSuffix)[|"v" + body|..] == TileSuffix;
    "v" + body + TileSuffix
  }

  /** The name of the cached world map for a widget type, `worldmap-<type>.png`. */
  function WorldMapFilename(f: WidgetFamily): string {
    "worldmap-" + FamilyName(f) + ".png"
  }

  function FamilyName(f: WidgetFamily): (name: string)
    ensures FamilyOf(name) == f
  {
    match f
    case Small => "small"
    case Medium => "medium"
    case Large => "large"
  }

  // ---------------------------------------------------------------------------
  // Tile file names are unambiguous.

  /** The text before the first `sep`, and the text after it. */
  function Field(s: string, sep: char): (string, string) {
    var p := PrefixBefore(s, sep);
    (p, if |p| < |s| then s[|p| + 1..] else [])
  }

  /** Reads a tile file name back into its version and coordinates. */
  function TileOfFilename(name: string): Option<(int, TileCoords)> {
    if |name| < 5 || name[0] != 'v' || !EndsWith(name, TileSuffix) then None
    else
      var (v, r1) := Field(name[1..|name| - 4], 'x');
      var (x, r2) := Field(r1, 'y');
      var (y, z) := Field(r2, 'z');
      match (ParseSigned(v), ParseSigned(x), ParseSigned(y), ParseSigned(z))
      case (Some(a), Some(b), Some(c), Some(d)) => Some((a, TileCoords(b, c, d)))
      case _ => None
  }

  lemma FieldOfTagged(a: string, sep: char, b: string)
    requires sep !in a
    ensures Field(Tagged(a, sep, b), sep) == (a, b)
  {
    PrefixOfSeparated(a, b, sep);
    assert Tagged(a, sep, b)[|a| + 1..] == b;
  }

  lemma NoLetterInNumeral(n: int, c: char)
    requires c != '-' && !IsDigit(c)
    ensures c !in IntToString(n)
  {
    IntToStringChars(n);
  }

  lemma ParseNumeral(n: int)
    ensures ParseSigned(IntToString(n)) == Some(n)
  {
    ParseSignedOfIntToString(n, []);
    assert IntToString(n) + [] == IntToString(n);
  }

  /** A tile's file name reads back as its version and coordinates. */
  lemma TileFilenameRoundTrip(t: TileCoords, version: int)
    ensures TileOfFilename(TileFilename(t, version)) == Some((version, t))
  {
    var sv, sx, sy, sz := IntToString(version), IntToString(t.x), IntToString(t.y), IntToString(t.z);
    var r2 := Tagged(sy, 'z', sz);
    var r1 := Tagged(sx, 'y', r2);
    var body := Tagged(sv, 'x', r1);
    var name := TileFilename(t, version);
    assert name == "v" + body + TileSuffix;
    assert name[1..|name| - 4] == body;
    NoLetterInNumeral(version, 'x');
    NoLetterInNumeral(t.x, 'y');
    NoLetterInNumeral(t.y, 'z');
    FieldOfTagged(sv, 'x', r1);
    FieldOfTagged(sx, 'y', r2);
    FieldOfTagged(sy, 'z', sz);
    ParseNumeral(version);
    ParseNumeral(t.x);
    ParseNumeral(t.y);
    ParseNumeral(t.z);
  }

  /** Different tiles, or one tile under different versions, never share a file. */
  lemma TileFilenameInjective(t: TileCoords, v: int, t': TileCoords, v': int)
    requires TileFilename(t, v) == TileFilename(t', v')
    ensures t == t' && v == v'
  {
    TileFilenameRoundTrip(t, v);
    TileFilenameRoundTrip(t', v');
  }

  /** Only tile files carry the `.jpg` suffix: the location, version and world-map
      files do not. */
  lemma AuxiliaryFilesAreNotTiles(f: WidgetFamily)
    ensures !EndsWith(LocationFile, TileSuffix)
    ensures !EndsWith(VersionFile, TileSuffix)
    ensures !EndsWith(WorldMapFilename(f), TileSuffix)
  {
    var w := WorldMapFilename(f);
    assert w[|w| - 4..] == ".png";
  }

  // ---------------------------------------------------------------------------
  // Expiry.

  /** A file last written more than `days` days before `now`. */
  predicate Expired(file: File, days: nat, now: int) {
    now - file.modified > MsPerDay * days
  }

  predicate ExpiredTile(cache: Cache, name: string, days: nat, now: int)
    requires name in cache
  {
    EndsWith(name, TileSuffix) && Expired(cache[name], days, now)
  }

  /** Purging tiles older than `days` days. Zero days clears the whole cache,
      world maps, version and location included, and stops the run; otherwise only
      the `.jpg` files not written for more than `days` days are removed. */
  function Purge(cache: Cache, days: nat, now: int): (r: Step<Cache>)
    ensures r.Halt? <==> days == 0
    ensures r.Halt? ==> r.state == map[]
    ensures forall name :: name in r.state ==> name in cache && r.state[name] == cache[name]
    ensures days > 0 ==> forall name :: name in cache ==>
      (name !in r.state <==> ExpiredTile(cache, name, days, now))
  {
    if days == 0 then Halt(map[], NukedMessage)
    else Proceed(map name | name in cache && !ExpiredTile(cache, name, days, now) :: cache[name])
  }

  /** Purging twice at the same moment removes nothing more. */
  lemma PurgeIdempotent(cache: Cache, days: nat, now: int)
    requires days > 0
    ensures Purge(Purge(cache, days, now).state, days, now) == Purge(cache, days, now)
  {
    var once := Purge(cache, days, now).state;
    var twice := Purge(once, days, now).state;
    forall name | name in once
      ensures name in twice
    {
      assert !ExpiredTile(cache, name, days, now);
    }
    assert twice.Keys == once.Keys;
    assert twice == once;
  }

  /** A longer expiry keeps every file a shorter one keeps. */
  lemma PurgeMonotone(cache: Cache, days: nat, days': nat, now: int)
    requires 0 < days <= days'
    ensures Purge(cache, days, now).state.Keys <= Purge(cache, days', now).state.Keys
  {
    forall name | name in Purge(cache, days, now).state
      ensures name in Purge(cache, days', now).state
    {
      MulMonotone(MsPerDay, days, days');
    }
  }

  /** A tile written or read within the last `days` days survives a purge. */
  lemma PurgeKeepsFresh(cache: Cache, name: string, days: nat, now: int)
    requires days > 0 && name in cache
    requires now - cache[name].modified <= MsPerDay * days
    ensures name in Purge(cache, days, now).state
  {
  }

  /** With a positive expiry, the world map, version and location files are
      never purged, however old. */
  lemma PurgeKeepsAuxiliary(cache: Cache, days: nat, now: int, f: WidgetFamily)
    requires days > 0
    ensures LocationFile in cache ==> LocationFile in Purge(cache, days, now).state
    ensures VersionFile in cache ==> VersionFile in Purge(cache, days, now).state
    ensures WorldMapFilename(f) in cache ==> WorldMapFilename(f) in Purge(cache, days, now).state
  {
    AuxiliaryFilesAreNotTiles(f);
  }

  /** With the widget's 30-day window, a tile last used 31 days ago goes and one
      used 29 days ago stays. */
  lemma PurgeExample(stale: File, recent: File, now: int)
    requires stale.modified == now - 31 * MsPerDay && recent.modified == now - 29 * MsPerDay
    ensures var c := map["v1x0y0z1.jpg" := stale, "v1x1y0z1.jpg" := recent];
      Purge(c, 30, now).state == map["v1x1y0z1.jpg" := recent]
  {
    var c := map["v1x0y0z1.jpg" := stale, "v1x1y0z1.jpg" := recent];
    assert EndsWith("v1x0y0z1.jpg", TileSuffix);
    assert EndsWith("v1x1y0z1.jpg", TileSuffix);
    assert Purge(c, 30, now).state.Keys == {"v1x1y0z1.jpg"};
  }

  // ---------------------------------------------------------------------------
  // Tiles.

  /** The cached data of a tile, read as an image, with the file's modification
      time refreshed to `now` (the read rewrites the file). A missing file is a
      miss and leaves the cache alone; a file that is not tile data reads as a
      miss but is still refreshed. */
  function ReadTile(cache: Cache, t: TileCoords, version: int, now: int): (r: (Option<Bytes>, Cache))
    ensures var name := TileFilename(t, version);
      && (r.0.Some? <==> name in cache && cache[name].content.Binary?)
      && (r.0.Some? ==> r.0.value == cache[name].content.data)
      && r.1.Keys == cache.Keys
      && (forall n :: n in cache && n != name ==> r.1[n] == cache[n])
      && (name in cache ==> r.1[name] == File(cache[name].content, now))
  {
    var name := TileFilename(t, version);
    if name !in cache then (None, cache)
    else
      var file := cache[name];
      var touched := cache[name := File(file.content, now)];
      match file.content
      case Binary(data) => (Some(data), touched)
      case _ => (None, touched)
  }

  function WriteTile(cache: Cache, t: TileCoords, version: int, data: Bytes, now: int): Cache {
    cache[TileFilename(t, version) := File(Binary(data), now)]
  }

  /** Reading a tile just written yields the written data, and writing one tile
      never changes what another tile (or another version of it) reads. */
  lemma ReadAfterWriteTile(cache: Cache, t: TileCoords, version: int, data: Bytes, now: int,
                           t': TileCoords, version': int, later: int)
    ensures ReadTile(WriteTile(cache, t, version, data, now), t, version, later).0 == Some(data)
    ensures (t', version') != (t, version) ==>
      ReadTile(WriteTile(cache, t, version, data, now), t', version', later).0
      == ReadTile(cache, t', version', later).0
  {
    if (t', version') != (t, version) && TileFilename(t', version') == TileFilename(t, version) {
      TileFilenameInjective(t', version', t, version);
    }
  }

  // ---------------------------------------------------------------------------
  // Version and location.

  /** The cached imagery version as `parseInt` reads the version file; `None`
      when the file is missing or holds no number. */
  function ReadVersion(cache: Cache): (r: Option<int>)
    ensures r.Some? ==> VersionFile in cache && cache[VersionFile].content.Text?
  {
    if VersionFile in cache && cache[VersionFile].content.Text? then
      ParseSigned(cache[VersionFile].content.text)
    else None
  }

  function WriteVersion(cache: Cache, version: int, now: int): Cache {
    cache[VersionFile := File(Text(IntToString(version)), now)]
  }

  /** Days since the version file was written, fractional; 9999 when there is
      no version file, so that a missing file always reads as outdated. */
  function VersionAgeDays(cache: Cache, now: int): real {
    if VersionFile in cache then (now - cache[VersionFile].modified) as real / MsPerDay as real
    else 9999.0
  }

  /** The version file reads back what was written, and its age counts from the write. */
  lemma VersionRoundTrip(cache: Cache, version: int, now: int, later: int)
    ensures ReadVersion(WriteVersion(cache, version, now)) == Some(version)
    ensures VersionAgeDays(WriteVersion(cache, version, now), later) == (later - now) as real / MsPerDay as real
  {
    ParseNumeral(version);
  }

  /** The cached location; `None` when the file is missing or not a JSON location. */
  function ReadLocation(cache: Cache): (r: Option<Location>)
    ensures r.Some? <==> LocationFile in cache && cache[LocationFile].content.LocationJson?
  {
    if LocationFile in cache && cache[LocationFile].content.LocationJson? then
      Some(cache[LocationFile].content.loc)
    else None
  }

  function WriteLocation(cache: Cache, loc: Location, now: int): Cache {
    cache[LocationFile := File(LocationJson(loc), now)]
  }

  lemma LocationRoundTrip(cache: Cache, loc: Location, now: int)
    ensures ReadLocation(WriteLocation(cache, loc, now)) == Some(loc)
  {
  }

  /** The cached world map for a widget type, if the file holds an image. */
  function ReadWorldMap(cache: Cache, f: WidgetFamily): (r: Option<Content>)
    ensures r.Some? ==> WorldMapFilename(f) in cache && r.value == cache[WorldMapFilename(f)].content
    ensures r.Some? ==> r.value.Binary? || r.value.Picture?
    ensures WorldMapFilename(f) in cache
              && (cache[WorldMapFilename(f)].content.Binary? || cache[WorldMapFilename(f)].content.Picture?)
            ==> r == Some(cache[WorldMapFilename(f)].content)
  {
    var name := WorldMapFilename(f);
    if name in cache && (cache[name].content.Binary? || cache[name].content.Picture?) then
      Some(cache[name].content)
    else None
  }

  function WriteWorldMap(cache: Cache, f: WidgetFamily, picture: seq<Bytes>, now: int): Cache {
    cache[WorldMapFilename(f) := File(Picture(picture), now)]
  }

  /** No tile file shares its name with the version, location or world-map file. */
  lemma TileNamesAreNotAuxiliary(t: TileCoords, version: int, f: WidgetFamily)
    ensures TileFilename(t, version) != VersionFile
    ensures TileFilename(t, version) != LocationFile
    ensures TileFilename(t, version) != WorldMapFilename(f)
  {
    AuxiliaryFilesAreNotTiles(f);
  }

  /** The world-map file is neither the version nor the location file. */
  lemma WorldMapNameIsOwn(f: WidgetFamily)
    ensures WorldMapFilename(f) != VersionFile && WorldMapFilename(f) != LocationFile
  {
    assert WorldMapFilename(f)[0] == 'w';
  }

  /** Writing the version changes what no other kind of file reads back. */
  lemma WriteVersionSeparate(cache: Cache, version: int, now: int, f: WidgetFamily,
                             t: TileCoords, tileVersion: int, later: int)
    ensures ReadLocation(WriteVersion(cache, version, now)) == ReadLocation(cache)
    ensures ReadWorldMap(WriteVersion(cache, version, now), f) == ReadWorldMap(cache, f)
    ensures ReadTile(WriteVersion(cache, version, now), t, tileVersion, later).0
         == ReadTile(cache, t, tileVersion, later).0
  {
    TileNamesAreNotAuxiliary(t, tileVersion, f);
    WorldMapNameIsOwn(f);
  }

  /** Writing the location changes what no other kind of file reads back. */
  lemma WriteLocationSeparate(cache: Cache, loc: Location, now: int, f: WidgetFamily,
                              t: TileCoords, tileVersion: int, later: int)
    ensures ReadVersion(WriteLocation(cache, loc, now)) == ReadVersion(cache)
    ensures ReadWorldMap(WriteLocation(cache, loc, now), f) == ReadWorldMap(cache, f)
    ensures ReadTile(WriteLocation(cache, loc, now), t, tileVersion, later).0
         == ReadTile(cache, t, tileVersion, later).0
  {
    TileNamesAreNotAuxiliary(t, tileVersion, f);
    WorldMapNameIsOwn(f);
  }

  /** Writing a world map changes what no other kind of file reads back. */
  lemma WriteWorldMapSeparate(cache: Cache, f: WidgetFamily, picture: seq<Bytes>, now: int,
                              t: TileCoords, tileVersion: int, later: int)
    ensures ReadVersion(WriteWorldMap(cache, f, picture, now)) == ReadVersion(cache)
    ensures ReadLocation(WriteWorldMap(cache, f, picture, now)) == ReadLocation(cache)
    ensures ReadTile(WriteWorldMap(cache, f, picture, now), t, tileVersion, later).0
         == ReadTile(cache, t, tileVersion, later).0
  {
    TileNamesAreNotAuxiliary(t, tileVersion, f);
    WorldMapNameIsOwn(f);
  }

  /** Writing a tile changes what no other kind of file reads back. */
  lemma WriteTileSeparate(cache: Cache, t: TileCoords, version: int, data: Bytes, now: int, f: WidgetFamily)
    ensures ReadVersion(WriteTile(cache, t, version, data, now)) == ReadVersion(cache)
    ensures ReadLocation(WriteTile(cache, t, version, data, now)) == ReadLocation(cache)
    ensures ReadWorldMap(WriteTile(cache, t, version, data, now), f) == ReadWorldMap(cache, f)
  {
    TileNamesAreNotAuxiliary(t, version, f);
  }

  /** Writing the version, the location, a world map or a tile leaves the other
      kinds of file untouched; a tile read may be of any version and at any time. */
  lemma WritesAreSeparate(cache: Cache, version: int, loc: Location, t: TileCoords, data: Bytes,
                          f: WidgetFamily, picture: seq<Bytes>, now: int, tileVersion: int, later: int)
    ensures ReadLocation(WriteVersion(cache, version, now)) == ReadLocation(cache)
    ensures ReadVersion(WriteLocation(cache, loc, now)) == ReadVersion(cache)
    ensures ReadVersion(WriteTile(cache, t, version, data, now)) == ReadVersion(cache)
    ensures ReadLocation(WriteTile(cache, t, version, data, now)) == ReadLocation(cache)
    ensures ReadWorldMap(WriteTile(cache, t, version, data, now), f) == ReadWorldMap(cache, f)
    ensures ReadVersion(WriteWorldMap(cache, f, picture, now)) == ReadVersion(cache)
    ensures ReadLocation(WriteWorldMap(cache, f, picture, now)) == ReadLocation(cache)
    ensures ReadWorldMap(WriteVersion(cache, version, now), f) == ReadWorldMap(cache, f)
    ensures ReadWorldMap(WriteLocation(cache, loc, now), f) == ReadWorldMap(cache, f)
    ensures ReadTile(WriteVersion(cache, version, now), t, tileVersion, later).0 == ReadTile(cache, t, tileVersion, later).0
    ensures ReadTile(WriteLocation(cache, loc, now), t, tileVersion, later).0 == ReadTile(cache, t, tileVersion, later).0
    ensures ReadTile(WriteWorldMap(cache, f, picture, now), t, tileVersion, later).0 == ReadTile(cache, t, tileVersion, later).0
  {
    WriteVersionSeparate(cache, version, now, f, t, tileVersion, later);
    WriteLocationSeparate(cache, loc, now, f, t, tileVersion, later);
    WriteWorldMapSeparate(cache, f, picture, now, t, tileVersion, later);
    WriteTileSeparate(cache, t, version, data, now, f);
  }
}
